# Release controller reconciliation, modelled in Dafny

This project models the reconciliation logic of the release-service Release controller
(`controllers/release_controller.go`). When a Release record is created, the controller:

1. fetches the Release;
2. resolves a chain of linked records:
   - the ReleaseLink the Release names, in the Release's namespace;
   - the matching ReleaseLink in that link's target workspace, meaning one that points back to
     the origin workspace for the same application;
   - the ReleaseStrategy the target link names, in the target link's namespace;
3. creates one Tekton PipelineRun built from the strategy, the link's target workspace and the
   Release.

If resolving the chain or creating the run fails, the controller writes an error condition into
the Release's status. A failed fetch of the Release writes nothing: a missing Release is a no-op
and any other fetch error is returned as it is.
A pair of event filters decides which watch notifications reach the reconciler.

The Kubernetes client is replaced by an immutable `Store`:
- Releases and ReleaseStrategies are maps from (namespace, name).
- ReleaseLinks are a sequence; a List call returns the selected links in that order.
- Created PipelineRuns are a sequence.
- A map from each client call to the error it reports stands for a store failure that is not
  "not found".

A reconciliation is a pure function `Reconcile(store, request)` that returns an `Outcome`:
`Ignored`, `GetFailed(err)`, `ErrorRecorded(updated, cause, writeError)` or `Triggered(chain, run)`.
`Apply(store, outcome)` gives the store after the writes that reconciliation performed.

Files:
- `api.dfy`: the records and errors.
- `store.dfy`: the store and the client calls, including the `spec.target` field index and the
  List that uses it.
- `resolver.dfy`: the three lookups and their composition.
- `reconciler.dfy`: `Reconcile`, `triggerReleasePipeline` and the write effects.
- `events.dfy`: the event filters.
- `scenarios.dfy`: worked end-to-end cases.

## Behaviour worth noting

- **Updates.** The explicit `UpdateFunc` returns false (release_controller.go:187-189), so no
  update passes the filters, including generation-changing ones (`Events.UpdatesNeverAdmitted`).
- **No requeue after a recorded error.** A failed resolution step or a failed create returns
  whatever `helpers.UpdateStatus` returns (release_controller.go:77, 86, 94, 105). The model
  takes a successful status write to return no error, so then nothing goes back to the work
  queue, even when the cause was a store failure (`Reconciler.ResolutionFailureNotRequeued`).
- **Several matching target links.** The loop at release_controller.go:157-161 returns the first
  listed link with the right application and does not report the others
  (`Resolver.GetTargetReleaseLink`, `Resolver.FirstInSelection`).
- **Empty target.** `InNamespace("")` lists every namespace, so a ReleaseLink with an empty
  `Spec.Target` accepts a counterpart from any namespace that points back to it
  (`Scenarios.EmptyTargetSearchesAllNamespaces`).
- **Redelivery.** Nothing marks a Release as triggered. Reconciling the same request again after
  a success resolves the same chain and submits a second run built from the same arguments
  (`Reconciler.RedeliveryTriggersAgain`).

## Model

| member | source | states |
|---|---|---|
| RecordStore.SelectMembers | controllers/release_controller.go:147-172 | The List with `InNamespace(ns)` and `MatchingFields{"spec.target": v}` returns a link exactly when it is stored, is in scope (it lives in `ns`, or `ns` is empty and every namespace is in scope) and its index value is `v`. The index function keys a ReleaseLink by `[Spec.Target]`, so that means its target is `v`. |
| Resolver.GetReleaseLink | controllers/release_controller.go:115-127 | Success gives a stored link with namespace `release.Namespace` and name `release.Spec.ReleaseLink`. A client fault is returned unchanged. Otherwise a failure is NotFound for exactly that key, and no stored link has that key. |
| Resolver.GetReleaseStrategy | controllers/release_controller.go:130-142 | Without a fault, success happens exactly when the key (target link's namespace, target link's `Spec.ReleaseStrategy`) is in the store, and it returns the record under that key. Otherwise the result is NotFound for that key. A client fault is returned unchanged. |
| RecordStore.FirstWhere | controllers/release_controller.go:157-161 | The search used by the loop over listed items (with the application test) and by the Get of a link (with the key test) stops at the first element that passes. Every earlier element fails the test. Running past the end means no element passes. |
| Resolver.FirstInSelection | controllers/release_controller.go:146-161 | The first listed item for the origin's application is the first counterpart of the origin link in the store's order. |
| Resolver.NoneInSelection | controllers/release_controller.go:153-164 | If no listed item is for the origin's application, the store holds no counterpart at all. |
| Resolver.GetTargetReleaseLink | controllers/release_controller.go:146-165 | A returned link is stored and satisfies all three conditions: it lives in `Spec.Target` (any namespace when `Spec.Target` is empty), it targets the origin namespace, and it has the same application. It is the first such link in list order. Without a list fault, failure happens exactly when no counterpart exists, and the error is NoMatchingTarget(target, origin namespace, application). A list fault is returned unchanged. |
| Resolver.NoMatchingTargetMessage | controllers/release_controller.go:163-164 | The error text starts with "no ReleaseLink found in target workspace '", then quotes the target workspace, then "' with target '", the origin namespace, "' and application '", the application and a closing quote, as the format string lays them out. |
| Resolver.ResolveChain | controllers/release_controller.go:72-95 | A success is a resolved chain: the link under the Release's key, that link's first counterpart, and the strategy under the counterpart's key. A success means none of the three reads failed. The reads run in order and the first failing one's error comes back unchanged: the link Get's fault or NotFound for the link key when no link has it; then the List's fault, or NoMatchingTarget(target, origin namespace, application) when the link has no counterpart; then, for the first counterpart, the strategy Get's fault or NotFound for the strategy key it names. Any store failure returned is the failure of one of the three reads. Without faults, a failure is one of three cases: NotFound for the link key when no link has it, NoMatchingTarget naming the Release's namespace, or NotFound for an absent strategy key. |
| Resolver.ResolveChainComplete | controllers/release_controller.go:115-161 | On a well-formed store with no read faults, every resolved chain is the one the resolver returns. So resolution succeeds exactly when a chain exists, and that chain is unique. |
| Resolver.CounterpartSymmetric | controllers/release_controller.go:146-161 | When the origin names a non-empty target, a counterpart of the origin has the origin as its counterpart. |
| Resolver.TargetPairingSymmetric | controllers/release_controller.go:146-161 | Two links that are each other's counterparts, and each the other's only one, resolve to each other in both directions. |
| Reconciler.RecordError | controllers/release_controller.go:75-77 | On a failure, the Release handed to the status write keeps its identity and link reference, and its condition is an error condition built from that error. The outcome carries the status write's own error. |
| Reconciler.TriggerReleasePipeline | controllers/release_controller.go:69-112 | The run is triggered exactly when the chain resolves and the create succeeds. The run is built from (strategy, `releaseLink.Spec.Target`, release); when that target is not empty it is the target link's namespace. Otherwise the error from the resolver, or from the create, is recorded in the status. |
| Reconciler.Reconcile | controllers/release_controller.go:48-66 | The outcome is a no-op exactly when the Release is not found. The get fails exactly when the client reports an error other than not found, and that error is returned unchanged. A stored Release goes on to `triggerReleasePipeline`: it is triggered exactly when its chain resolves and the create succeeds, with the run built from that chain; otherwise the resolver's or the create's error is recorded, and the status write's result is returned. |
| Reconciler.ReconcileWrites | controllers/release_controller.go:72-111 | A trigger creates exactly one run and leaves every Release untouched. No other path creates a run. A not-found Release or a failed get writes nothing. A recorded error changes only the reconciled Release's condition. |
| Reconciler.ReconcileTriggersWhenResolvable | controllers/release_controller.go:89-111 | On a well-formed store with no faults, a Release whose chain resolves is triggered with the run built from that chain. |
| Reconciler.ResolutionFailureNotRequeued | controllers/release_controller.go:72-95 | A resolution failure is recorded as the cause. After a successful status write, no error goes back to the work queue. |
| Reconciler.RedeliveryTriggersAgain | controllers/release_controller.go:99-111 | Reconciling again after a successful trigger produces the same outcome: the same chain and a second run built from the same arguments. |
| Events.ExplicitFilter | controllers/release_controller.go:180-190 | Delete, generic and update events are all rejected, whatever generations they carry. A creation gets the library's default verdict. |
| Events.Admits | controllers/release_controller.go:177-190 | An event passes the two chained filters exactly when it is a creation, the generation predicate accepts it and the default create verdict is true. |
| Events.UpdatesNeverAdmitted | controllers/release_controller.go:179-190 | No update is ever admitted, including status-only updates. |
| Scenarios.PairedWorkspacesTrigger | controllers/release_controller.go:97-111 | With link1 (team-a to team-b, app1), its counterpart link2 and strat1 present, exactly one run for (strat1, team-b, r1) is created. r1's status stays without a condition. |
| Scenarios.EmptyTargetSearchesAllNamespaces | controllers/release_controller.go:146-161 | A link in team-a with an empty target resolves to a link in team-c that targets team-a for the same application. |
| Scenarios.ListFailureRecordsError | controllers/release_controller.go:80-87 | With link2 present but the List failing, r1's condition is built from the List's error and no run is created. |
| Scenarios.MissingStrategyRecordsNotFound | controllers/release_controller.go:89-94 | With both links present but strat1 absent, r1's condition is NotFound for (team-b, strat1) and no run is created. |
| Scenarios.MissingCounterpartRecordsError | controllers/release_controller.go:80-87 | Without link2, r1's condition becomes NoMatchingTarget(team-b, team-a, app1). Its message starts with "no ReleaseLink found", and no run is created. |

## Left out

- The Kubernetes client, informer cache and field-index registration: `Get`, `List`, `Create`
  and `UpdateStatus` are pure functions of an immutable store. The error return of `IndexField`
  in `SetupWithManager` is not modelled.
- `helpers.UpdateStatus`: its body is not part of this model. It is modelled as returning only
  the write's error. The `ctrl.Result` it returns is taken to be empty.
- `Status.SetErrorCondition`: its body is not part of this model. It is modelled as replacing the
  condition with one that carries the error value. The condition's message formatting and any
  other status fields are not modelled.
- `tekton.CreatePipelineRunFromReleaseStrategy`: its body is not part of this model. The run
  records only its three arguments. Its name, namespace and any name conflict on create are not
  specified; a failed create is a store fault.
- `predicate.GenerationChangedPredicate` and the unset `CreateFunc` of `predicate.Funcs` are
  library code. They are parameters of `Events.Admits`.
- Logging, RBAC markers, the scheme and the controller-manager wiring.
- Work-queue retry and backoff, and concurrency across Release objects.
- List order: the informer cache promises no order for an indexed List, but the model lists
  links in one fixed store order, the same for every call. When several counterparts exist, the
  source may pick a different one on different calls.
- Resolver.FirstInSelection, Resolver.ResolveChainComplete: "first in list order" and "the
  chain is unique" rest on that fixed order, which the source does not promise.
- Reconciler.RedeliveryTriggersAgain: the second create is assumed to succeed. Whether it fails
  with an already-exists error depends on the run's name, which is not modelled.
- Reconciler.ResolutionFailureNotRequeued: that a successful status write returns no error is
  an assumption about `helpers.UpdateStatus`, whose body is not part of this model.
- Per-call faults: each client call fails or succeeds as a whole, as one reconciliation calls
  each at most once.
