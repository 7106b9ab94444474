# Release rollback of the Tiller release server

This project models the rollback operation of Helm's Tiller release server
(`pkg/tiller/release_rollback.go`). A rollback takes the per-name lock, finds
the latest record of the release and the historical record it rolls back to,
and builds a new target record one version above the latest. Unless it is a
dry run, it then runs the pre-rollback hooks, asks the release module to apply
the rollback to the cluster, and runs the post-rollback hooks. Each failure
point leaves the store in a different state. The lock is released on every
path.

Layout:

- `wrappers.dfy`: `Option` and `Result`.
- `releases.dfy`: the release record, the request, status codes, outcomes and errors.
- `format.dfy`: Go's `%d` on a revision and `%q` on a name, each with its parser and a round-trip lemma.
- `storage.dfy`: the store. Pure functions give `Last`, `Get`, `Update` and `Create` over a map keyed by (name, version). The `Store` class holds that map and the set of locked names, and updates both in place.
- `rollback.dfy` (module `ReleaseServer`): `Prepare` (pure). `Perform` and `Rollback` are the functions that specify the two imperative methods, `PerformRollback` and `RollbackRelease`.
- `properties.dfy`: what each exit path leaves behind, that history is append-only, and the lock balance.
- `scenarios.dfy`: concrete rollbacks of a two-version release "app".

The collaborators are fields of an `Env` value:

- the naming policy, as a predicate on names;
- the clock reading;
- the hook runner and the release module, each a function from its arguments to an outcome;
- the storage backend's verdict on the final `Create`.

The ghost out-parameter `calls` of both methods records which hooks and module
calls were made, with their arguments. This is what lets the model state that a
dry run calls nothing.

Where the code and the usual description of this operation differ, the model
follows the code:

- The default description is `Rollback to <n>` with no `v` before the number (line 97).
- Only the record that was latest when the call started is superseded (lines 125 and 140). So the "at most one DEPLOYED record per name" invariant holds afterwards only if every DEPLOYED record was the latest one beforehand. `RollbackProperties.SingleDeployedKept` proves this conditional form. `RollbackScenarios.OlderDeployedSurvives` shows a history (v1 DEPLOYED, v2 FAILED) where a successful rollback leaves two DEPLOYED records.
- A failing post-rollback hook records nothing, although the release module has already changed the cluster (lines 134-138).

## Model

| member | source | states |
|---|---|---|
| `Format.DecimalRoundTrip` | pkg/tiller/release_rollback.go:97 | the `%d` rendering of any revision, negative ones included, parses back to that revision |
| `Format.UnquoteQuote` | pkg/tiller/release_rollback.go:123 | the `%q` rendering of any name unquotes back to that name |
| `Storage.LastOf` | pkg/tiller/release_rollback.go:65-68 | `Last` fails with not-found exactly when no record of the name is stored; otherwise it returns a stored record of the name whose version is at least that of every other record of the name |
| `Storage.GetOf` | pkg/tiller/release_rollback.go:77-80 | `Get` succeeds exactly when the (name, version) key is stored, returning that record, and otherwise fails with `RevisionNotFound` for that name and version |
| `Storage.Updated` | pkg/tiller/release_rollback.go:128 | `Update` keeps the key set, replaces only the record under the release's own key, and fails exactly when that key is absent, with `RevisionNotFound` for the release and the store unchanged |
| `Storage.Created` | pkg/tiller/release_rollback.go:47-49 | `Create` inserts exactly when the key is fresh and the backend accepts; an existing key is refused with `ReleaseExists`; a fresh key the backend refuses gives `StorageFailure` with the backend's message; on failure the store is unchanged |
| `Storage.Store.Update` | pkg/tiller/release_rollback.go:128 | the in-place update of the store object: its records and error are exactly those of `Updated`, and the store invariant is kept |
| `Storage.Store.Create` | pkg/tiller/release_rollback.go:47-49 | the in-place insert into the store object: its records and error are exactly those of `Created`, and the store invariant is kept |
| `Storage.Store.LockRelease` | pkg/tiller/release_rollback.go:30-33 | taking a held lock fails at once with `LockHeld`; otherwise the name joins the lock set |
| `Storage.Store.UnlockRelease` | pkg/tiller/release_rollback.go:34 | the name leaves the lock set |
| `ReleaseServer.RollbackDescription` | pkg/tiller/release_rollback.go:97 | the target's description is `Rollback to ` followed by text that parses back to the resolved version |
| `ReleaseServer.FailureMessageParses` | pkg/tiller/release_rollback.go:123 | the failure description starts `Rollback `, ends ` failed: ` plus the module's error, and the quoted part between unquotes to the release name |
| `ReleaseServer.Prepare` | pkg/tiller/release_rollback.go:57-105 | it succeeds exactly when the name is valid, the version is non-negative, the name has a latest record and the resolved target version is stored; otherwise invalid name, then negative version, are refused first; unknown name and missing target version propagate; the current record is the latest stored; the target is a fresh version, current+1; 0 resolves to current-1; chart, config, manifest, hooks and notes come from the historical record; namespace and first-deployed time come from the current record; status UNKNOWN, last-deployed time is the clock reading |
| `ReleaseServer.Perform` | pkg/tiller/release_rollback.go:107-146 | the response is the target with at most its status and description changed, and a changed description means FAILED; a dry run returns the target untouched with no calls and no writes; success without a dry run means DEPLOYED; the store changes only after the release module was called |
| `ReleaseServer.Rollback` | pkg/tiller/release_rollback.go:29-53 | the lock set is restored; a nil response comes with an error, an unchanged store and no calls; no error means a response, and outside a dry run a DEPLOYED target stored under its own key |
| `ReleaseServer.RecordRelease` | pkg/tiller/release_rollback.go:128-129 | the store becomes the update (reuse) or insert of the release, with errors dropped |
| `ReleaseServer.PerformRollback` | pkg/tiller/release_rollback.go:107-146 | response, error, new store and calls made are exactly those of `Perform`, with the response being the final target value |
| `ReleaseServer.RollbackRelease` | pkg/tiller/release_rollback.go:29-53 | response, error, new store, new lock set and calls made are exactly those of `Rollback`, and the store invariant is kept |
| `RollbackProperties.LockDiscipline` | pkg/tiller/release_rollback.go:30-34 | the lock set after any call equals the one before; a held lock gives a nil response, `LockHeld` and no other effect; otherwise a later lock attempt on the name succeeds |
| `RollbackProperties.ValidationBeforeLookup` | pkg/tiller/release_rollback.go:58-63 | an invalid name gives `MissingRelease`, else a negative version gives `InvalidRevision`, whatever the store holds; nil response, no writes, no calls |
| `RollbackProperties.LookupFailures` | pkg/tiller/release_rollback.go:65-80 | an unknown name or an absent target version fails with a nil response, no writes and no calls |
| `RollbackProperties.DryRun` | pkg/tiller/release_rollback.go:110-113 | a dry run returns the UNKNOWN target with no error, makes no hook or module call, and writes nothing, the final `Create` included |
| `RollbackProperties.PreHookFailure` | pkg/tiller/release_rollback.go:116-120 | a failing pre-rollback hook returns the UNKNOWN target with the hook error after one hook call, and writes nothing |
| `RollbackProperties.ModuleFailure` | pkg/tiller/release_rollback.go:122-131 | a module failure supersedes the current record in place and inserts the target as FAILED with the failure message, returning that FAILED target with the module error |
| `RollbackProperties.PostHookFailure` | pkg/tiller/release_rollback.go:134-138 | a failing post-rollback hook returns the UNKNOWN target with the error after pre-hook, module and post-hook calls, and writes nothing |
| `RollbackProperties.Success` | pkg/tiller/release_rollback.go:140-145 | full success supersedes the current record and inserts the DEPLOYED target; a refused final insert returns its error with the current record still superseded |
| `RollbackProperties.HistoryPreserved` | pkg/tiller/release_rollback.go:122-145 | no record disappears, the only new record is the returned target, and the only rewritten record is the name's latest, whose status alone becomes SUPERSEDED; the version rolled back to is untouched unless it is that latest record |
| `RollbackProperties.SupersedeThenInsert` | pkg/tiller/release_rollback.go:140-141 | superseding the latest record and inserting a fresh one is append-only |
| `RollbackProperties.WritingRun` | pkg/tiller/release_rollback.go:122-145 | a rollback that writes has superseded the name's latest record and at most inserted the returned target, one version above it |
| `RollbackProperties.PreparedFacts` | pkg/tiller/release_rollback.go:65-99 | in a well-keyed store, the current record `Prepare` returns is the latest stored record of the name, and the target's key is the name with the next version |
| `RollbackProperties.SingleDeployedKept` | pkg/tiller/release_rollback.go:140-143 | if every DEPLOYED record of the name is its latest, at most one DEPLOYED record remains after any rollback, and every DEPLOYED record is again the latest, so the condition carries over to the next operation |
| `RollbackProperties.VersionsStayGapFree` | pkg/tiller/release_rollback.go:99 | if the name holds exactly versions 1..n, after any rollback it holds exactly 1..n or 1..n+1 |
| `RollbackScenarios.AppPrepared` | pkg/tiller/release_rollback.go:83-102 | from v1 (config A) and v2, a request for version 0 builds v3 with v1's chart, config, manifest and notes and the description `Rollback to 1` |
| `RollbackScenarios.AppRollbackSucceeds` | pkg/tiller/release_rollback.go:29-53 | v1 and v2 end SUPERSEDED, v3 is DEPLOYED with v1's config and is the response |
| `RollbackScenarios.AppRollbackModuleFails` | pkg/tiller/release_rollback.go:122-131 | with the module failing "connection refused", v2 ends SUPERSEDED and v3 FAILED with description `Rollback "app" failed: connection refused`; both error and v3 are returned |
| `RollbackScenarios.AppNegativeVersion` | pkg/tiller/release_rollback.go:61-62 | version -1 fails with `InvalidRevision`, store unchanged |
| `RollbackScenarios.OlderDeployedSurvives` | pkg/tiller/release_rollback.go:140-143 | with v1 DEPLOYED and v2 FAILED, a successful rollback leaves v1 and v3 both DEPLOYED |

## Left out

- The RPC context and the protobuf request and response types. The request is a plain datatype, and the response is the target release, or `None` for a nil response.
- The log calls (lines 75, 111, 124). They have no effect on behaviour.
- The `ValidName` pattern (line 59) is not part of this model. The naming policy is a predicate supplied in `Env`.
- The clock (line 90). Its reading is a value supplied in `Env`.
- Running hooks, the release module, and the Kubernetes environment passed to it. Each is a function from its arguments to success or an error message; what they do to the cluster is not modelled.
- `recordRelease` and the storage backend are not part of this model. Writes through `recordRelease` are always accepted by the backend; only the store's own key checks apply, and they are proved never to refuse those writes.
- The storage backend's query and sort behind `Last`, and its failures on reads.
- Concurrency. The per-name lock is a set of names in a single-threaded model. Taking a held lock fails at once rather than blocking.
- Versions are unbounded integers, so the 32-bit overflow of `current.Version + 1` at 2^31-1 is not modelled.
- Records are values. The in-place status changes on `currentRelease` (lines 125 and 140) reach the store only through the following update. A storage backend that hands out its own stored objects would see them earlier, but the final store is the same.
- Format.Quote: escapes only `"` and `\`; Go's escaping of control and non-printable characters is not modelled.
- Charts, configurations and hooks are opaque values that are only copied. Status codes other than the four a rollback reads or writes are not modelled.
