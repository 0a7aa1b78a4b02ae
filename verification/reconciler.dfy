/**
 The reconciliation of one Release request: fetch the Release, resolve its link chain, submit one
 PipelineRun built from the resolved strategy, and record any failure in the Release's status.
 A reconciliation is a pure function of the store; `Apply` gives the store after its writes.
 */
module Reconciler {
  import opened Api
  import opened RecordStore
  import opened Resolver

  /** How one call of `Reconcile` ends. */
  datatype Outcome =
    /** The Release no longer exists: nothing to do. */
    | Ignored
    /** Reading the Release failed for another reason; that error is returned. */
    | GetFailed(err: Error)
    /**
     A step failed with `cause`; `updated` is the Release with its error condition set, handed to
     the status write, whose error (if any) is what the reconciliation returns.
     */
    | ErrorRecorded(updated: Release, cause: Error, writeError: Option<Error>)
    /** The chain resolved and `run` was created. */
    | Triggered(chain: Chain, run: PipelineRun)

  /**
   The error half of the `(ctrl.Result, error)` pair handed back to the work queue; the
   `ctrl.Result` half is empty on every path.
   */
  function Returned(o: Outcome): Option<Error> {
    match o
    case Ignored => None
    case GetFailed(e) => Some(e)
    case ErrorRecorded(_, _, w) => w
    case Triggered(_, _) => None
  }

  /** `Status.SetErrorCondition(err)` followed by `helpers.UpdateStatus`. */
  function RecordError(s: Store, release: Release, err: Error): (o: Outcome)
    ensures o.ErrorRecorded? && o.cause == err
    ensures o.updated.Key() == release.Key() && o.updated.releaseLink == release.releaseLink
    ensures o.updated.status.condition == ErrorCondition(err)
    ensures o.writeError == Fault(s, ReleaseStatusUpdate)
  {
    var updated := release.WithErrorCondition(err);
    ErrorRecorded(updated, err, UpdateStatus(s, updated))
  }

  /**
   `triggerReleasePipeline`: resolve the chain; on the first failing step record its error;
   otherwise build the PipelineRun from the strategy, the link's target and the Release, and
   create it, recording the create error if there is one.
   */
  function TriggerReleasePipeline(s: Store, release: Release): (o: Outcome)
    ensures o.ErrorRecorded? || o.Triggered?
    ensures o.Triggered? <==> ResolveChain(s, release).Success? && Fault(s, PipelineRunCreate).None?
    ensures o.Triggered? ==>
      && ChainResolved(s, release, o.chain)
      && o.run == PipelineRun(o.chain.strategy, o.chain.link.target, release)
      && (o.chain.link.target != "" ==> o.run.targetWorkspace == o.chain.target.namespace)
    ensures o.ErrorRecorded? ==>
      && o.updated == release.WithErrorCondition(o.cause)
      && o.writeError == Fault(s, ReleaseStatusUpdate)
    ensures o.ErrorRecorded? && ResolveChain(s, release).Failure? ==> o.cause == ResolveChain(s, release).error
    ensures o.ErrorRecorded? && ResolveChain(s, release).Success? ==> Fault(s, PipelineRunCreate) == Some(o.cause)
  {
    match ResolveChain(s, release)
    case Failure(e) => RecordError(s, release, e)
    case Success(chain) =>
      var run := PipelineRun(chain.strategy, chain.link.target, release);
      match Create(s, run)
      case Some(e) => RecordError(s, release, e)
      case None => Triggered(chain, run)
  }

  /** `Reconcile`: the entry point, for the Release stored under `req`. */
  function Reconcile(s: Store, req: ObjectKey): (o: Outcome)
    ensures Fault(s, ReleaseGet).Some? ==> o == GetFailed(Fault(s, ReleaseGet).value)
    ensures o.Ignored? <==> Fault(s, ReleaseGet).None? && req !in s.releases
    ensures o.GetFailed? <==> Fault(s, ReleaseGet).Some?
    ensures Fault(s, ReleaseGet).None? && req in s.releases ==> o == TriggerReleasePipeline(s, s.releases[req])
    ensures o.Triggered? <==>
      && Fault(s, ReleaseGet).None? && req in s.releases
      && ResolveChain(s, s.releases[req]).Success?
      && Fault(s, PipelineRunCreate).None?
    ensures o.Triggered? ==>
      && ChainResolved(s, s.releases[req], o.chain)
      && o.run == PipelineRun(o.chain.strategy, o.chain.link.target, s.releases[req])
    ensures o.ErrorRecorded? ==>
      && req in s.releases
      && o.updated == s.releases[req].WithErrorCondition(o.cause)
      && Returned(o) == Fault(s, ReleaseStatusUpdate)
      && (ResolveChain(s, s.releases[req]).Failure? ==> o.cause == ResolveChain(s, s.releases[req]).error)
      && (ResolveChain(s, s.releases[req]).Success? ==> Fault(s, PipelineRunCreate) == Some(o.cause))
  {
    match GetRelease(s, req)
    case Failure(e) => if e.NotFound? then Ignored else GetFailed(e)
    case Success(release) => TriggerReleasePipeline(s, release)
  }

  /** The store after the writes a reconciliation with outcome `o` performed. */
  function Apply(s: Store, o: Outcome): Store {
    match o
    case Ignored => s
    case GetFailed(_) => s
    case ErrorRecorded(updated, _, writeError) =>
      if writeError.None? then s.(releases := s.releases[updated.Key() := updated]) else s
    case Triggered(_, run) => s.(runs := s.runs + [run])
  }

  /**
   What one reconciliation writes: exactly one PipelineRun when it triggers and none otherwise;
   on success no Release is touched; on a recorded error only the reconciled Release changes,
   and only in its condition.
   */
  lemma ReconcileWrites(s: Store, req: ObjectKey)
    ensures var o := Reconcile(s, req);
            var s' := Apply(s, o);
            && s'.links == s.links && s'.strategies == s.strategies && s'.faults == s.faults
            && (o.Triggered? ==> s'.runs == s.runs + [o.run] && s'.releases == s.releases)
            && (!o.Triggered? ==> s'.runs == s.runs)
            && (o.Ignored? || o.GetFailed? ==> s' == s)
            && (o.ErrorRecorded? && o.writeError.Some? ==> s' == s)
            && (WellFormed(s) && o.ErrorRecorded? && o.writeError.None? ==>
                  s'.releases == s.releases[req := s.releases[req].WithErrorCondition(o.cause)])
  {
  }

  /**
   A Release whose chain resolves in a well-formed store is triggered with the run built from
   that chain, provided no store call fails.
   */
  lemma ReconcileTriggersWhenResolvable(s: Store, req: ObjectKey, c: Chain)
    requires WellFormed(s) && ResolutionFaultFree(s)
    requires Fault(s, ReleaseGet).None? && Fault(s, PipelineRunCreate).None?
    requires req in s.releases && ChainResolved(s, s.releases[req], c)
    ensures Reconcile(s, req) == Triggered(c, PipelineRun(c.strategy, c.link.target, s.releases[req]))
  {
    ResolveChainComplete(s, s.releases[req], c);
  }

  /**
   A resolution failure whose status write succeeds hands no error back to the work queue, even
   when the failure was a store error: the Release is not retried.
   */
  lemma ResolutionFailureNotRequeued(s: Store, req: ObjectKey)
    requires Fault(s, ReleaseGet).None? && Fault(s, ReleaseStatusUpdate).None?
    requires req in s.releases && ResolveChain(s, s.releases[req]).Failure?
    ensures Reconcile(s, req).ErrorRecorded?
    ensures Reconcile(s, req).cause == ResolveChain(s, s.releases[req]).error
    ensures Returned(Reconcile(s, req)) == None
  {
  }

  /** A reconciliation never reads the PipelineRuns created so far. */
  lemma ReconcileIgnoresRuns(s: Store, runs: seq<PipelineRun>, req: ObjectKey)
    ensures Reconcile(s.(runs := runs), req) == Reconcile(s, req)
  {
    if req in s.releases {
      ResolveChainFrame(s, s.(runs := runs), s.releases[req]);
    }
  }

  /**
   Nothing on the Release marks it as triggered, so delivering the same request again after a
   successful reconciliation triggers the same run a second time.
   */
  lemma RedeliveryTriggersAgain(s: Store, req: ObjectKey)
    ensures var o := Reconcile(s, req);
            o.Triggered? ==>
            && Reconcile(Apply(s, o), req) == o
            && Apply(Apply(s, o), o).runs == s.runs + [o.run, o.run]
  {
    var o := Reconcile(s, req);
    if o.Triggered? {
      ReconcileIgnoresRuns(s, s.runs + [o.run], req);
    }
  }
}
