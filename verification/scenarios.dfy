/**
 End-to-end reconciliations over a small store: Release `r1` in workspace `team-a` names
 ReleaseLink `link1`, which targets `team-b` for application `app1`. The counterpart `link2` in
 `team-b` names ReleaseStrategy `strat1`; the cases differ in whether it is present and whether
 the List fails.
 */
module Scenarios {
  import opened Api
  import opened RecordStore
  import opened Resolver
  import opened Reconciler

  const R1: Release := Release("team-a", "r1", "link1", ReleaseStatus(NoCondition))
  const Link1: ReleaseLink := ReleaseLink("team-a", "link1", "team-b", "app1", "strat1")
  const Link2: ReleaseLink := ReleaseLink("team-b", "link2", "team-a", "app1", "strat1")
  const Strat1: ReleaseStrategy := ReleaseStrategy("team-b", "strat1", "release-pipeline")

  function TeamStore(links: seq<ReleaseLink>): Store {
    Store(map[R1.Key() := R1], links, map[Strat1.Key() := Strat1], [], map[])
  }

  /** With the counterpart present, exactly one run is created, for `strat1` and `team-b`, and `r1` keeps its status. */
  lemma PairedWorkspacesTrigger()
    ensures var s := TeamStore([Link1, Link2]);
            var o := Reconcile(s, R1.Key());
            && o.Triggered?
            && o.run == PipelineRun(Strat1, "team-b", R1)
            && Apply(s, o).runs == [o.run]
            && Apply(s, o).releases[R1.Key()].status.condition == NoCondition
  {
    var s := TeamStore([Link1, Link2]);
    var c := Chain(Link1, Link2, Strat1);
    assert FirstCounterpartAt(s.links, Link1, 1);
    assert ChainResolved(s, R1, c);
    ReconcileTriggersWhenResolvable(s, R1.Key(), c);
  }

  /** Without the counterpart, `r1` gets a "no ReleaseLink found" error condition and no run is created. */
  lemma MissingCounterpartRecordsError()
    ensures var s := TeamStore([Link1]);
            var o := Reconcile(s, R1.Key());
            && o.ErrorRecorded?
            && o.cause == NoMatchingTarget("team-b", "team-a", "app1")
            && Apply(s, o).runs == []
            && Apply(s, o).releases[R1.Key()].status.condition == ErrorCondition(o.cause)
            && NoMatchingTargetMessage(o.cause.workspace, o.cause.origin, o.cause.application)[..|NoMatchPrefix|]
               == NoMatchPrefix
  {
    var s := TeamStore([Link1]);
    assert GetReleaseLink(s, R1) == Success(Link1);
    assert !Counterpart(Link1, s.links[0]);
  }

  /**
   A link with an empty target lists in every namespace: a counterpart in `team-c` that points
   back to `team-a` is found although no workspace was named.
   */
  lemma EmptyTargetSearchesAllNamespaces()
    ensures var origin := ReleaseLink("team-a", "link1", "", "app1", "strat1");
            var linkC := ReleaseLink("team-c", "linkc", "team-a", "app1", "strat1");
            GetTargetReleaseLink(TeamStore([origin, linkC]), origin) == Success(linkC)
  {
    var origin := ReleaseLink("team-a", "link1", "", "app1", "strat1");
    var linkC := ReleaseLink("team-c", "linkc", "team-a", "app1", "strat1");
    var s := TeamStore([origin, linkC]);
    assert !Counterpart(origin, s.links[0]);
    assert Counterpart(origin, s.links[1]);
  }

  /** With the counterpart present but the List failing, `r1` records the List's error and no run is created. */
  lemma ListFailureRecordsError()
    ensures var s := TeamStore([Link1, Link2]).(faults := map[ReleaseLinkList := "cache unavailable"]);
            var o := Reconcile(s, R1.Key());
            && o.ErrorRecorded?
            && o.cause == StoreFailure("cache unavailable")
            && Apply(s, o).runs == []
            && Apply(s, o).releases[R1.Key()].status.condition == ErrorCondition(o.cause)
  {
  }

  /** With both links present but no `strat1` stored, `r1` records NotFound for the strategy key and no run is created. */
  lemma MissingStrategyRecordsNotFound()
    ensures var s := TeamStore([Link1, Link2]).(strategies := map[]);
            var o := Reconcile(s, R1.Key());
            && o.ErrorRecorded?
            && o.cause == NotFound(ReleaseStrategyKind, ObjectKey("team-b", "strat1"))
            && Apply(s, o).runs == []
  {
    var s := TeamStore([Link1, Link2]).(strategies := map[]);
    assert GetReleaseLink(s, R1) == Success(Link1);
    assert FirstCounterpartAt(s.links, Link1, 1);
  }
}
