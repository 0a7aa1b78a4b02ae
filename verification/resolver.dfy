/**
 The link resolver of the release controller: from a Release to its ReleaseLink, from that link
 to the matching ReleaseLink in the target workspace, and from the target link to its
 ReleaseStrategy. Every step is a read of the store and short-circuits on its first error.
 */
module Resolver {
  import opened Api
  import opened RecordStore

  /** Where a Release's ReleaseLink is looked up: its own namespace, under the name it references. */
  function LinkKey(release: Release): ObjectKey {
    ObjectKey(release.namespace, release.releaseLink)
  }

  /** Where a target link's ReleaseStrategy is looked up: the target link's namespace. */
  function StrategyKey(target: ReleaseLink): ObjectKey {
    ObjectKey(target.namespace, target.releaseStrategy)
  }

  /**
   `cand` is a counterpart of `origin`: it is in the scope of the workspace `origin` targets
   (that workspace itself, or any namespace when the target is empty), it targets `origin`'s
   workspace back, and it is for the same application.
   */
  predicate Counterpart(origin: ReleaseLink, cand: ReleaseLink) {
    && InScope(origin.target, cand.namespace)
    && cand.target == origin.namespace
    && cand.application == origin.application
  }

  /** `links[k]` is a counterpart of `origin` and no earlier link is one. */
  ghost predicate FirstCounterpartAt(links: seq<ReleaseLink>, origin: ReleaseLink, k: int) {
    && 0 <= k < |links|
    && Counterpart(origin, links[k])
    && forall j :: 0 <= j < k ==> !Counterpart(origin, links[j])
  }

  /** `getReleaseLink`: the ReleaseLink the Release names, in the Release's namespace. */
  function GetReleaseLink(s: Store, release: Release): (r: Result<ReleaseLink, Error>)
    ensures Fault(s, ReleaseLinkGet).Some? ==> r == Failure(Fault(s, ReleaseLinkGet).value)
    ensures r.Success? ==> r.value in s.links
    ensures r.Success? ==> r.value.namespace == release.namespace && r.value.name == release.releaseLink
    ensures Fault(s, ReleaseLinkGet).None? && r.Failure? ==>
      && r.error == NotFound(ReleaseLinkKind, LinkKey(release))
      && forall i :: 0 <= i < |s.links| ==> s.links[i].Key() != LinkKey(release)
  {
    GetLink(s, LinkKey(release))
  }

  /** `getReleaseStrategy`: the ReleaseStrategy a target link names, in the target link's namespace. */
  function GetReleaseStrategy(s: Store, target: ReleaseLink): (r: Result<ReleaseStrategy, Error>)
    ensures Fault(s, ReleaseStrategyGet).Some? ==> r == Failure(Fault(s, ReleaseStrategyGet).value)
    ensures Fault(s, ReleaseStrategyGet).None? ==>
      && (r.Success? <==> StrategyKey(target) in s.strategies)
      && (r.Success? ==> r.value == s.strategies[StrategyKey(target)])
      && (r.Failure? ==> r.error == NotFound(ReleaseStrategyKind, ObjectKey(target.namespace, target.releaseStrategy)))
  {
    GetStrategy(s, StrategyKey(target))
  }

  /** Whether a link is for `application`: the test of the loop over the listed items. */
  function HasApplication(application: string): ReleaseLink -> bool {
    (l: ReleaseLink) => l.application == application
  }

  /**
   The first listed item for the application is the first counterpart of the origin link in
   store order: the listing keeps the store's order and drops only links that are not candidates.
   */
  lemma {:induction false} FirstInSelection(links: seq<ReleaseLink>, origin: ReleaseLink, items: seq<ReleaseLink>, k: nat)
    requires items == Select(links, origin.target, origin.namespace)
    requires k == FirstWhere(items, HasApplication(origin.application))
    requires k < |items|
    ensures exists i :: FirstCounterpartAt(links, origin, i) && links[i] == items[k]
    decreases |links|
  {
    if Counterpart(origin, links[0]) {
      assert items[0] == links[0];
      assert FirstCounterpartAt(links, origin, 0);
    } else {
      var rest := Select(links[1..], origin.target, origin.namespace);
      var kRest := FirstWhere(rest, HasApplication(origin.application));
      SkipFirst(links, origin, items, k);
      FirstInSelection(links[1..], origin, rest, kRest);
      var i :| FirstCounterpartAt(links[1..], origin, i) && links[1..][i] == rest[kRest];
      ShiftFirstCounterpart(links, origin, i);
    }
  }

  /** When the head of the store is no counterpart, the first listed match is found in the tail's listing. */
  lemma SkipFirst(links: seq<ReleaseLink>, origin: ReleaseLink, items: seq<ReleaseLink>, k: nat)
    requires items == Select(links, origin.target, origin.namespace)
    requires k == FirstWhere(items, HasApplication(origin.application))
    requires k < |items|
    requires !Counterpart(origin, links[0])
    ensures var rest := Select(links[1..], origin.target, origin.namespace);
            var kRest := FirstWhere(rest, HasApplication(origin.application));
            kRest < |rest| && rest[kRest] == items[k]
  {
    var rest := Select(links[1..], origin.target, origin.namespace);
    if InScope(origin.target, links[0].namespace) && origin.namespace in TargetIndex(links[0]) {
      assert items == [links[0]] + rest;
      assert items[1..] == rest;
      assert !HasApplication(origin.application)(items[0]);
    } else {
      assert items == rest;
    }
  }

  /** A first counterpart in the tail, behind a head that is none, is the first counterpart of the whole store. */
  lemma ShiftFirstCounterpart(links: seq<ReleaseLink>, origin: ReleaseLink, i: int)
    requires |links| > 0 && !Counterpart(origin, links[0])
    requires FirstCounterpartAt(links[1..], origin, i)
    ensures FirstCounterpartAt(links, origin, i + 1) && links[i + 1] == links[1..][i]
  {
    forall j | 0 <= j < i + 1 ensures !Counterpart(origin, links[j]) {
      if j > 0 { assert links[j] == links[1..][j - 1]; }
    }
  }

  /** When no listed item is for the application, the store holds no counterpart at all. */
  lemma {:induction false} NoneInSelection(links: seq<ReleaseLink>, origin: ReleaseLink, items: seq<ReleaseLink>)
    requires items == Select(links, origin.target, origin.namespace)
    requires forall j :: 0 <= j < |items| ==> items[j].application != origin.application
    ensures forall i :: 0 <= i < |links| ==> !Counterpart(origin, links[i])
    decreases |links|
  {
    if |links| > 0 {
      var rest := Select(links[1..], origin.target, origin.namespace);
      if InScope(origin.target, links[0].namespace) && origin.namespace in TargetIndex(links[0]) {
        assert items == [links[0]] + rest;
        assert items[0] == links[0];
        forall j | 0 <= j < |rest| ensures rest[j].application != origin.application {
          assert rest[j] == items[j + 1];
        }
      } else {
        assert items == rest;
      }
      NoneInSelection(links[1..], origin, rest);
      forall i | 0 <= i < |links| ensures !Counterpart(origin, links[i]) {
        if i > 0 { assert links[i] == links[1..][i - 1]; }
      }
    }
  }

  /**
   `getTargetReleaseLink`: lists the links in the workspace `link.target` (in every namespace
   when that is empty) whose target is `link.namespace` and returns the first one for
   `link.application`.
   */
  function GetTargetReleaseLink(s: Store, link: ReleaseLink): (r: Result<ReleaseLink, Error>)
    ensures Fault(s, ReleaseLinkList).Some? ==> r == Failure(Fault(s, ReleaseLinkList).value)
    ensures r.Success? ==> r.value in s.links && Counterpart(link, r.value)
    ensures r.Success? && link.target != "" ==> r.value.namespace == link.target
    ensures r.Success? ==> exists k :: FirstCounterpartAt(s.links, link, k) && s.links[k] == r.value
    ensures Fault(s, ReleaseLinkList).None? ==>
      (r.Failure? <==> forall i :: 0 <= i < |s.links| ==> !Counterpart(link, s.links[i]))
    ensures Fault(s, ReleaseLinkList).None? && r.Failure? ==>
      r.error == NoMatchingTarget(link.target, link.namespace, link.application)
  {
    match ListLinks(s, link.target, link.namespace)
    case Failure(e) => Failure(e)
    case Success(items) =>
      var k := FirstWhere(items, HasApplication(link.application));
      if k < |items| then
        FirstInSelection(s.links, link, items, k);
        Success(items[k])
      else
        NoneInSelection(s.links, link, items);
        Failure(NoMatchingTarget(link.target, link.namespace, link.application))
  }

  /**
   The text of the error returned when no counterpart exists: it starts with
   "no ReleaseLink found in target workspace" and quotes the target workspace, the origin
   namespace and the application, in that order.
   */
  function NoMatchingTargetMessage(workspace: string, origin: string, application: string): (m: string)
    ensures |m| == |NoMatchPrefix| + |workspace| + |TargetSeparator| + |origin| + |ApplicationSeparator| + |application| + 1
    ensures m[..|NoMatchPrefix|] == NoMatchPrefix
    ensures m[|NoMatchPrefix|..|NoMatchPrefix| + |workspace|] == workspace
    ensures var w := |NoMatchPrefix| + |workspace|;
            m[w..w + |TargetSeparator|] == TargetSeparator
    ensures var o := |NoMatchPrefix| + |workspace| + |TargetSeparator|;
            && m[o..o + |origin|] == origin
            && m[o + |origin|..o + |origin| + |ApplicationSeparator|] == ApplicationSeparator
    ensures var a := |NoMatchPrefix| + |workspace| + |TargetSeparator| + |origin| + |ApplicationSeparator|;
            m[a..a + |application|] == application && m[|m| - 1] == '\''
  {
    NoMatchPrefix + workspace + TargetSeparator + origin + ApplicationSeparator + application + "'"
  }

  const NoMatchPrefix: string := "no ReleaseLink found in target workspace '"
  const TargetSeparator: string := "' with target '"
  const ApplicationSeparator: string := "' and application '"

  /** The three records the resolver walks to. */
  datatype Chain = Chain(link: ReleaseLink, target: ReleaseLink, strategy: ReleaseStrategy)

  /**
   What it means, independently of the lookup code, for `c` to be the resolution of `release`
   in `s`: the link sits under the key the Release names, the target link is the first
   counterpart of that link in store order, and the strategy sits under the key the target names.
   */
  ghost predicate ChainResolved(s: Store, release: Release, c: Chain) {
    && c.link in s.links
    && c.link.Key() == LinkKey(release)
    && (exists k :: FirstCounterpartAt(s.links, c.link, k) && s.links[k] == c.target)
    && StrategyKey(c.target) in s.strategies
    && s.strategies[StrategyKey(c.target)] == c.strategy
  }

  /** None of the three reads fails for a reason other than "not found". */
  predicate ResolutionFaultFree(s: Store) {
    Fault(s, ReleaseLinkGet).None? && Fault(s, ReleaseLinkList).None? && Fault(s, ReleaseStrategyGet).None?
  }

  /**
   The three lookups of `triggerReleasePipeline`, in order, stopping at the first error,
   which is returned unchanged.
   */
  function ResolveChain(s: Store, release: Release): (r: Result<Chain, Error>)
    ensures r.Success? ==> ChainResolved(s, release, r.value)
    ensures r.Success? ==> ResolutionFaultFree(s)
    ensures Fault(s, ReleaseLinkGet).Some? ==> r == Failure(Fault(s, ReleaseLinkGet).value)
    ensures r.Failure? && r.error.StoreFailure? ==>
      Some(r.error) in [Fault(s, ReleaseLinkGet), Fault(s, ReleaseLinkList), Fault(s, ReleaseStrategyGet)]
    ensures Fault(s, ReleaseLinkGet).None? && (forall i :: 0 <= i < |s.links| ==> s.links[i].Key() != LinkKey(release)) ==>
      r == Failure(NotFound(ReleaseLinkKind, LinkKey(release)))
    ensures GetReleaseLink(s, release).Success? ==>
      var link := GetReleaseLink(s, release).value;
      && (Fault(s, ReleaseLinkList).Some? ==> r == Failure(Fault(s, ReleaseLinkList).value))
      && (Fault(s, ReleaseLinkList).None? && (forall i :: 0 <= i < |s.links| ==> !Counterpart(link, s.links[i])) ==>
            r == Failure(NoMatchingTarget(link.target, link.namespace, link.application)))
      && (forall k :: Fault(s, ReleaseLinkList).None? && FirstCounterpartAt(s.links, link, k) ==>
            && (Fault(s, ReleaseStrategyGet).Some? ==> r == Failure(Fault(s, ReleaseStrategyGet).value))
            && (Fault(s, ReleaseStrategyGet).None? && StrategyKey(s.links[k]) !in s.strategies ==>
                  r == Failure(NotFound(ReleaseStrategyKind, StrategyKey(s.links[k])))))
    ensures r.Failure? && ResolutionFaultFree(s) ==>
      || (&& r.error == NotFound(ReleaseLinkKind, LinkKey(release))
          && forall i :: 0 <= i < |s.links| ==> s.links[i].Key() != LinkKey(release))
      || (&& r.error.NoMatchingTarget?
          && r.error.origin == release.namespace
          && exists i :: 0 <= i < |s.links| && s.links[i].Key() == LinkKey(release) && s.links[i].target == r.error.workspace)
      || (&& r.error.NotFound?
          && r.error.kind == ReleaseStrategyKind
          && r.error.key !in s.strategies)
  {
    match GetReleaseLink(s, release)
    case Failure(e) => Failure(e)
    case Success(link) =>
      match GetTargetReleaseLink(s, link)
      case Failure(e) => Failure(e)
      case Success(target) =>
        match GetReleaseStrategy(s, target)
        case Failure(e) => Failure(e)
        case Success(strategy) => Success(Chain(link, target, strategy))
  }

  /**
   On a well-formed store whose reads do not fail, the resolver finds every chain that resolves:
   together with the first postcondition of ResolveChain, the resolver succeeds exactly when a
   resolved chain exists, and that chain is unique.
   */
  lemma ResolveChainComplete(s: Store, release: Release, c: Chain)
    requires WellFormed(s) && ResolutionFaultFree(s)
    requires ChainResolved(s, release, c)
    ensures ResolveChain(s, release) == Success(c)
  {
    var i :| 0 <= i < |s.links| && s.links[i] == c.link;
    assert s.links[i].Key() == LinkKey(release);
    assert GetReleaseLink(s, release) == Success(c.link);
    var k :| FirstCounterpartAt(s.links, c.link, k) && s.links[k] == c.target;
    var t := GetTargetReleaseLink(s, c.link);
    assert t.Success?;
    var k2 :| FirstCounterpartAt(s.links, c.link, k2) && s.links[k2] == t.value;
    FirstCounterpartUnique(s.links, c.link, k, k2);
    assert t == Success(c.target);
  }

  /** There is at most one first counterpart. */
  lemma FirstCounterpartUnique(links: seq<ReleaseLink>, origin: ReleaseLink, k1: int, k2: int)
    requires FirstCounterpartAt(links, origin, k1) && FirstCounterpartAt(links, origin, k2)
    ensures k1 == k2
  {
  }

  /**
   Pairing is symmetric whenever the origin names a target workspace: a counterpart of `a`
   has `a` as its counterpart.
   */
  lemma CounterpartSymmetric(a: ReleaseLink, b: ReleaseLink)
    requires a.target != ""
    requires Counterpart(a, b)
    ensures Counterpart(b, a)
  {
  }

  /**
   When `a` and `b` are each other's counterparts and each is the other's only one, resolving
   the target of `a` yields `b` and resolving the target of `b` yields `a`.
   */
  lemma TargetPairingSymmetric(s: Store, a: ReleaseLink, b: ReleaseLink)
    requires Fault(s, ReleaseLinkList).None?
    requires a in s.links && b in s.links
    requires Counterpart(a, b) && Counterpart(b, a)
    requires forall l :: l in s.links && Counterpart(a, l) ==> l == b
    requires forall l :: l in s.links && Counterpart(b, l) ==> l == a
    ensures GetTargetReleaseLink(s, a) == Success(b)
    ensures GetTargetReleaseLink(s, b) == Success(a)
  {
    var j :| 0 <= j < |s.links| && s.links[j] == b;
    assert Counterpart(a, s.links[j]);
    var i :| 0 <= i < |s.links| && s.links[i] == a;
    assert Counterpart(b, s.links[i]);
  }

  /** The resolver reads only the links, the strategies and the faults of the store. */
  lemma ResolveChainFrame(s: Store, t: Store, release: Release)
    requires s.links == t.links && s.strategies == t.strategies && s.faults == t.faults
    ensures ResolveChain(t, release) == ResolveChain(s, release)
  {
    assert Fault(t, ReleaseLinkGet) == Fault(s, ReleaseLinkGet);
    assert Fault(t, ReleaseLinkList) == Fault(s, ReleaseLinkList);
    assert Fault(t, ReleaseStrategyGet) == Fault(s, ReleaseStrategyGet);
    assert GetReleaseLink(t, release) == GetReleaseLink(s, release);
    if GetReleaseLink(s, release).Success? {
      var link := GetReleaseLink(s, release).value;
      assert ListLinks(t, link.target, link.namespace) == ListLinks(s, link.target, link.namespace);
      assert GetTargetReleaseLink(t, link) == GetTargetReleaseLink(s, link);
      if GetTargetReleaseLink(s, link).Success? {
        var target := GetTargetReleaseLink(s, link).value;
        assert GetReleaseStrategy(t, target) == GetReleaseStrategy(s, target);
      }
    }
  }
}
