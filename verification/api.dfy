/**
 The records the release controller reads and writes, as immutable values: the Release,
 ReleaseLink and ReleaseStrategy kinds of the appstudio.redhat.com/v1alpha1 API, the Tekton
 PipelineRun the controller submits, and the errors its store calls and its resolver return.
 Only the fields the controller looks at are kept.
 */
module Api {

  datatype Option<+T> = None | Some(value: T)

  /** A value or the error a Go function would have returned beside a nil value. */
  datatype Result<+T, +E> = Success(value: T) | Failure(error: E)

  /** The (namespace, name) pair that identifies a namespaced record in the store. */
  datatype ObjectKey = ObjectKey(namespace: string, name: string)

  datatype Kind = ReleaseKind | ReleaseLinkKind | ReleaseStrategyKind

  datatype Error =
    /** The store holds no record of this kind under this key (`errors.IsNotFound`). */
    | NotFound(kind: Kind, key: ObjectKey)
    /** Any other failure reported by the store client, carried through unchanged. */
    | StoreFailure(reason: string)
    /** No ReleaseLink in `workspace` points back to `origin` for `application`. */
    | NoMatchingTarget(workspace: string, origin: string, application: string)

  /** The condition the controller keeps in a Release's status. */
  datatype Condition = NoCondition | ErrorCondition(cause: Error)

  datatype ReleaseStatus = ReleaseStatus(condition: Condition)

  /** A request to ship an application; `releaseLink` names a ReleaseLink in the same namespace. */
  datatype Release = Release(namespace: string, name: string, releaseLink: string, status: ReleaseStatus)
  {
    function Key(): ObjectKey {
      ObjectKey(namespace, name)
    }

    /**
     `Status.SetErrorCondition(err)`. Its body is not part of this model; it is taken to
     replace the condition by an error condition built from `err` and to touch nothing else.
     */
    function WithErrorCondition(err: Error): (r: Release)
      ensures r.Key() == Key() && r.releaseLink == releaseLink
      ensures r.status.condition == ErrorCondition(err)
    {
      this.(status := status.(condition := ErrorCondition(err)))
    }
  }

  /**
   Declares, for the workspace `namespace`, that `application` is released into the workspace
   `target` using the ReleaseStrategy named `releaseStrategy`.
   */
  datatype ReleaseLink = ReleaseLink(namespace: string, name: string, target: string, application: string, releaseStrategy: string)
  {
    function Key(): ObjectKey {
      ObjectKey(namespace, name)
    }
  }

  /** How to run the release pipeline; `pipeline` stands for the pipeline reference and its parameters. */
  datatype ReleaseStrategy = ReleaseStrategy(namespace: string, name: string, pipeline: string)
  {
    function Key(): ObjectKey {
      ObjectKey(namespace, name)
    }
  }

  /**
   The PipelineRun built by `tekton.CreatePipelineRunFromReleaseStrategy`. That builder is not
   part of this model, so the record only carries the three arguments it was built from; its
   name and namespace are left unspecified.
   */
  datatype PipelineRun = PipelineRun(strategy: ReleaseStrategy, targetWorkspace: string, release: Release)
}
