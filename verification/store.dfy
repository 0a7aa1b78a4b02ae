/**
 An abstract, immutable picture of the cluster's record store as the controller's client sees it
 during one reconciliation. `Get`, `List`, `Create` and `UpdateStatus` become pure functions of
 this picture; a failure of the client other than "not found" is an entry of `faults` for that call.
 */
module RecordStore {
  import opened Api

  /** The client calls one reconciliation makes, each at most once. */
  datatype Call =
    | ReleaseGet
    | ReleaseLinkGet
    | ReleaseLinkList
    | ReleaseStrategyGet
    | PipelineRunCreate
    | ReleaseStatusUpdate

  /**
   `links` lists every ReleaseLink in the order a List call returns them; `runs` are the
   PipelineRuns created so far; `faults` maps a call to the error the client reports for it.
   */
  datatype Store = Store(
    releases: map<ObjectKey, Release>,
    links: seq<ReleaseLink>,
    strategies: map<ObjectKey, ReleaseStrategy>,
    runs: seq<PipelineRun>,
    faults: map<Call, string>)

  /** What the API server guarantees: a record sits under its own key, and keys are unique. */
  ghost predicate WellFormed(s: Store) {
    && (forall k :: k in s.releases ==> s.releases[k].Key() == k)
    && (forall k :: k in s.strategies ==> s.strategies[k].Key() == k)
    && (forall i, j :: 0 <= i < j < |s.links| ==> s.links[i].Key() != s.links[j].Key())
  }

  /** The error the client reports for `call`, if it fails for a reason other than "not found". */
  function Fault(s: Store, call: Call): Option<Error> {
    if call in s.faults then Some(StoreFailure(s.faults[call])) else None
  }

  function GetRelease(s: Store, key: ObjectKey): Result<Release, Error> {
    if Fault(s, ReleaseGet).Some? then Failure(Fault(s, ReleaseGet).value)
    else if key in s.releases then Success(s.releases[key])
    else Failure(NotFound(ReleaseKind, key))
  }

  /** Position of the first element satisfying `p`, or `|xs|` when there is none. */
  function FirstWhere<T>(xs: seq<T>, p: T -> bool): (k: nat)
    ensures k <= |xs|
    ensures k < |xs| ==> p(xs[k])
    ensures forall j :: 0 <= j < k ==> !p(xs[j])
  {
    if |xs| == 0 then 0
    else if p(xs[0]) then 0
    else 1 + FirstWhere(xs[1..], p)
  }

  /** Whether a link is stored under `key`. */
  function HasKey(key: ObjectKey): ReleaseLink -> bool {
    (l: ReleaseLink) => l.Key() == key
  }

  function GetLink(s: Store, key: ObjectKey): Result<ReleaseLink, Error> {
    if Fault(s, ReleaseLinkGet).Some? then Failure(Fault(s, ReleaseLinkGet).value)
    else
      var k := FirstWhere(s.links, HasKey(key));
      if k < |s.links| then Success(s.links[k]) else Failure(NotFound(ReleaseLinkKind, key))
  }

  function GetStrategy(s: Store, key: ObjectKey): Result<ReleaseStrategy, Error> {
    if Fault(s, ReleaseStrategyGet).Some? then Failure(Fault(s, ReleaseStrategyGet).value)
    else if key in s.strategies then Success(s.strategies[key])
    else Failure(NotFound(ReleaseStrategyKind, key))
  }

  /** The field index on ReleaseLinks registered at start-up under the name "spec.target". */
  function TargetIndex(link: ReleaseLink): seq<string> {
    [link.target]
  }

  /** `InNamespace(namespace)`: a record in `recordNamespace` is in scope; the empty namespace scopes the whole cluster. */
  predicate InScope(namespace: string, recordNamespace: string) {
    namespace == "" || recordNamespace == namespace
  }

  /**
   The links a List call with `InNamespace(namespace)` and `MatchingFields{"spec.target": value}`
   returns: those in scope whose index values contain `value`, in store order.
   */
  function Select(links: seq<ReleaseLink>, namespace: string, value: string): (r: seq<ReleaseLink>)
    ensures forall i :: 0 <= i < |r| ==> r[i] in links
  {
    if |links| == 0 then []
    else
      var rest := Select(links[1..], namespace, value);
      if InScope(namespace, links[0].namespace) && value in TargetIndex(links[0]) then [links[0]] + rest else rest
  }

  /**
   A link is listed exactly when it is stored, is in the scope of `namespace` and its target is
   `value`: the index keys every link by its target alone.
   */
  lemma {:induction false} SelectMembers(links: seq<ReleaseLink>, namespace: string, value: string)
    ensures forall l :: l in Select(links, namespace, value) <==>
      l in links && InScope(namespace, l.namespace) && l.target == value
    decreases |links|
  {
    if |links| > 0 {
      SelectMembers(links[1..], namespace, value);
      assert links == [links[0]] + links[1..];
    }
  }

  function ListLinks(s: Store, namespace: string, value: string): Result<seq<ReleaseLink>, Error> {
    if Fault(s, ReleaseLinkList).Some? then Failure(Fault(s, ReleaseLinkList).value)
    else Success(Select(s.links, namespace, value))
  }

  /** The error of the Create call, if any; the created record itself is added by the caller. */
  function Create(s: Store, run: PipelineRun): Option<Error> {
    Fault(s, PipelineRunCreate)
  }

  /** The error of `helpers.UpdateStatus`, if any; the written record is stored by the caller. */
  function UpdateStatus(s: Store, release: Release): Option<Error> {
    Fault(s, ReleaseStatusUpdate)
  }
}
