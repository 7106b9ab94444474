/**
 * The release record and the rollback request, as the release server sees
 * them (the `hapi/release` and `hapi/services` message types, reduced to
 * the fields the rollback reads or writes).
 */
module Releases {

  /** The status codes a release passes through during a rollback. */
  datatype StatusCode = UNKNOWN | DEPLOYED | SUPERSEDED | FAILED

  /** An opaque reading of the server's clock; only copied and compared for equality. */
  type Timestamp = int

  /** The lifecycle phases a rollback runs hooks for. */
  datatype HookEvent = PreRollback | PostRollback

  /** A lifecycle hook definition; it is copied between releases, never run by the core itself. */
  datatype Hook = Hook(name: string, manifest: string, events: seq<HookEvent>)

  /**
   * One persisted version of a named release. `Info` and `Info.Status`
   * of the message types are flattened into the last five fields.
   */
  datatype Release = Release(
    name: string,
    namespace: string,
    version: int,
    chart: string,         // the chart, as an opaque serialised value
    config: string,        // the user-supplied values, as an opaque serialised value
    manifest: string,
    hooks: seq<Hook>,
    firstDeployed: Timestamp,
    lastDeployed: Timestamp,
    code: StatusCode,
    notes: string,
    description: string)

  /** A rollback request: which release, which version (0 = the one before the latest), and how. */
  datatype Request = Request(
    name: string,
    version: int,
    dryRun: bool,
    disableHooks: bool,
    timeout: int)

  /** The verdict of a call into a collaborator the model cannot see. */
  datatype Outcome = Succeeded | Failed(msg: string)

  /** The errors a rollback can return. */
  datatype Error =
    | MissingRelease                          // the name fails the naming policy
    | InvalidRevision                         // a negative requested version
    | LockHeld(name: string)                  // another operation holds the per-name lock
    | ReleaseNotFound(name: string)           // no version at all is stored under the name
    | RevisionNotFound(name: string, version: int)
    | ReleaseExists(name: string, version: int)
    | StorageFailure(msg: string)             // the storage backend refused a write
    | HookFailed(event: HookEvent, msg: string)
    | ModuleFailed(msg: string)               // the release module could not apply the rollback
}
