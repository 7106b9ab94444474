/**
 * The rollback operation of the release server (pkg/tiller/release_rollback.go):
 * `Prepare` validates the request and builds the target release, `Perform`
 * runs the hooks and the release module and records failures, and `Rollback`
 * wraps both in the per-name lock and persists a successful target.
 *
 * Each operation appears twice: as a function over the store's value, which
 * states what the operation does, and (for the two that change the store) as
 * a method over the `Store` object, proved to do exactly that.
 */
module ReleaseServer {
  import opened Wrappers
  import opened Releases
  import opened Format
  import opened Storage

  /** The collaborators the release server consults during a rollback. */
  datatype Env = Env(
    validName: string -> bool,                                         // the release-naming policy
    now: Timestamp,                                                    // the clock reading for `lastDeployed`
    execHook: (seq<Hook>, string, string, HookEvent, int) -> Outcome,  // runs the hooks of one phase
    moduleRollback: (Release, Release, Request) -> Outcome,            // applies the rollback to the cluster
    storage: Outcome)                                                  // the backend's verdict on the final Create

  /** A call into a collaborator that acts on the cluster, with the arguments it was given. */
  datatype Call =
    | ExecHook(hooks: seq<Hook>, name: string, namespace: string, event: HookEvent, timeout: int)
    | ModuleRollback(current: Release, target: Release)

  /** The latest record and the new record built from the historical one. */
  datatype Prepared = Prepared(current: Release, target: Release)

  /** The version a request rolls back to: the requested one, or for 0 the one before the latest. */
  function TargetVersion(requested: int, currentVersion: int): int
  {
    if requested == 0 then currentVersion - 1 else requested
  }

  /** The default description of a rollback target, `Rollback to <version>`. */
  function RollbackDescription(rbv: int): (d: string)
    ensures |d| > 12 && d[..12] == "Rollback to "
    ensures ParseDecimal(d[12..]) == Some(rbv)
  {
    var d := "Rollback to " + Decimal(rbv);
    assert d[12..] == Decimal(rbv);
    DecimalRoundTrip(rbv);
    d
  }

  /** The description of a target whose rollback the release module refused. */
  function FailureMessage(name: string, err: string): string
  {
    "Rollback " + Quote(name) + " failed: " + err
  }

  /** The failure description can be taken apart again: the quoted part unquotes to the release name. */
  lemma FailureMessageParses(name: string, err: string)
    ensures var m := FailureMessage(name, err);
      |m| >= 9 + 2 + 9 + |err| && m[..9] == "Rollback " &&
      m[|m| - |err| - 9..] == " failed: " + err &&
      Unquote(m[9..|m| - |err| - 9]) == Some(name)
  {
    var m := FailureMessage(name, err);
    assert m[9..|m| - |err| - 9] == Quote(name);
    assert m[|m| - |err| - 9..] == " failed: " + err;
    UnquoteQuote(name);
  }

  /** `prepareRollback`: validate, resolve the two records, and build the target. No store writes. */
  function Prepare(records: Records, req: Request, env: Env): (r: Result<Prepared, Error>)
    // validation comes first, in this order, and does not look at the store
    ensures !env.validName(req.name) ==> r == Err(MissingRelease)
    ensures env.validName(req.name) && req.version < 0 ==> r == Err(InvalidRevision)
    // lookup failures propagate
    ensures env.validName(req.name) && req.version >= 0 && (forall k :: k in records ==> k.0 != req.name) ==>
      r == Err(ReleaseNotFound(req.name))
    ensures r.Ok? ==> (req.name, TargetVersion(req.version, r.value.current.version)) in records
    // and a valid request over a stored history with the target version present succeeds
    ensures r.Ok? <==>
      env.validName(req.name) && req.version >= 0 && LastOf(records, req.name).Ok? &&
      (req.name, TargetVersion(req.version, LastOf(records, req.name).value.version)) in records
    ensures env.validName(req.name) && req.version >= 0 && LastOf(records, req.name).Ok? ==>
      var rbv := TargetVersion(req.version, LastOf(records, req.name).value.version);
      (req.name, rbv) !in records ==> r == Err(RevisionNotFound(req.name, rbv))
    // the current record is the latest stored under the name
    ensures WellKeyed(records) && r.Ok? ==>
      var cur := r.value.current;
      cur.name == req.name && KeyOf(cur) in records && records[KeyOf(cur)] == cur &&
      forall k :: k in records && k.0 == req.name ==> k.1 <= cur.version
    // the target is a fresh version, one above the latest
    ensures WellKeyed(records) && r.Ok? ==>
      r.value.target.version == r.value.current.version + 1 && KeyOf(r.value.target) !in records
    // the target combines the current record, the historical record and fresh values
    ensures r.Ok? ==>
      var cur, tgt := r.value.current, r.value.target;
      var rbv := TargetVersion(req.version, cur.version);
      var prev := records[(req.name, rbv)];
      tgt.name == req.name && tgt.namespace == cur.namespace && tgt.firstDeployed == cur.firstDeployed &&
      tgt.chart == prev.chart && tgt.config == prev.config && tgt.manifest == prev.manifest &&
      tgt.hooks == prev.hooks && tgt.notes == prev.notes &&
      tgt.code == UNKNOWN && tgt.lastDeployed == env.now && tgt.description == RollbackDescription(rbv)
  {
    if !env.validName(req.name) then Err(MissingRelease)
    else if req.version < 0 then Err(InvalidRevision)
    else
      match LastOf(records, req.name)
      case Err(e) => Err(e)
      case Ok(current) =>
        var rbv := TargetVersion(req.version, current.version);
        match GetOf(records, req.name, rbv)
        case Err(e) => Err(e)
        case Ok(previous) =>
          var target := Release(
            name := req.name,
            namespace := current.namespace,
            version := current.version + 1,
            chart := previous.chart,
            config := previous.config,
            manifest := previous.manifest,
            hooks := previous.hooks,
            firstDeployed := current.firstDeployed,
            lastDeployed := env.now,
            code := UNKNOWN,
            notes := previous.notes,
            description := RollbackDescription(rbv));
          Ok(Prepared(current, target))
  }

  /** `recordRelease`: an update (`reuse`) or an insert whose error is logged and dropped. */
  function Recorded(records: Records, r: Release, reuse: bool): Records
  {
    if reuse then Updated(records, r).0 else Created(records, r, Succeeded).0
  }

  /** Whether the hooks of `event` run, and what they report. */
  function HookOutcome(env: Env, target: Release, req: Request, event: HookEvent): Outcome
  {
    if req.disableHooks then Succeeded
    else env.execHook(target.hooks, target.name, target.namespace, event, req.timeout)
  }

  function HookCalls(target: Release, req: Request, event: HookEvent): seq<Call>
  {
    if req.disableHooks then [] else [ExecHook(target.hooks, target.name, target.namespace, event, req.timeout)]
  }

  /** What `performRollback` returns and leaves behind. */
  datatype Performed = Performed(response: Release, err: Option<Error>, records: Records, calls: seq<Call>)

  /** `performRollback` over the store's value. */
  function Perform(records: Records, current: Release, target: Release, req: Request, env: Env): (r: Performed)
    // the response is the target, at most with a new status and description
    ensures r.response == target.(code := r.response.code, description := r.response.description)
    ensures r.response.description != target.description ==> r.response.code == FAILED
    ensures req.dryRun ==> r == Performed(target, None, records, [])
    ensures r.err.None? && !req.dryRun ==> r.response.code == DEPLOYED
    // the store changes only after the release module has been called
    ensures r.records != records ==> ModuleRollback(current, target) in r.calls
  {
    if req.dryRun then Performed(target, None, records, [])
    else
      var preCalls := HookCalls(target, req, PreRollback);
      match HookOutcome(env, target, req, PreRollback)
      case Failed(msg) => Performed(target, Some(HookFailed(PreRollback, msg)), records, preCalls)
      case Succeeded =>
        var moduleCalls := preCalls + [ModuleRollback(current, target)];
        match env.moduleRollback(current, target, req)
        case Failed(msg) =>
          var superseded := current.(code := SUPERSEDED);
          var failed := target.(code := FAILED, description := FailureMessage(target.name, msg));
          Performed(failed, Some(ModuleFailed(msg)),
                    Recorded(Recorded(records, superseded, true), failed, false), moduleCalls)
        case Succeeded =>
          var postCalls := moduleCalls + HookCalls(target, req, PostRollback);
          match HookOutcome(env, target, req, PostRollback)
          case Failed(msg) => Performed(target, Some(HookFailed(PostRollback, msg)), records, postCalls)
          case Succeeded =>
            Performed(target.(code := DEPLOYED), None,
                      Recorded(records, current.(code := SUPERSEDED), true), postCalls)
  }

  /** What `RollbackRelease` returns and leaves behind; `response` is None for a nil response. */
  datatype Run = Run(response: Option<Release>, err: Option<Error>, records: Records, locks: set<string>, calls: seq<Call>)

  /** `RollbackRelease` over the store's value: lock, prepare, perform, persist, unlock. */
  function Rollback(records: Records, locks: set<string>, req: Request, env: Env): (r: Run)
    ensures r.locks == locks
    ensures r.response.None? ==> r.err.Some? && r.records == records && r.calls == []
    ensures r.err.None? ==> r.response.Some?
    ensures r.err.None? && !req.dryRun ==>
      var t := r.response.value;
      t.code == DEPLOYED && KeyOf(t) in r.records && r.records[KeyOf(t)] == t
  {
    if req.name in locks then Run(None, Some(LockHeld(req.name)), records, locks, [])
    else
      match Prepare(records, req, env)
      case Err(e) => Run(None, Some(e), records, locks, [])
      case Ok(p) =>
        var perf := Perform(records, p.current, p.target, req, env);
        if perf.err.Some? || req.dryRun then
          Run(Some(perf.response), perf.err, perf.records, locks, perf.calls)
        else
          var created := Created(perf.records, perf.response, env.storage);
          Run(Some(perf.response), created.1, created.0, locks, perf.calls)
  }

  method RecordRelease(store: Store, r: Release, reuse: bool)
    requires store.Valid()
    modifies store`records
    ensures store.Valid()
    ensures store.records == Recorded(old(store.records), r, reuse)
  {
    var ignored: Option<Error>;
    if reuse {
      ignored := store.Update(r);
    } else {
      ignored := store.Create(r, Succeeded);
    }
  }

  /**
   * `performRollback`. The response and the target are one object in the
   * source, so the status changes made after the response exists are part of
   * the returned release.
   */
  method PerformRollback(store: Store, current: Release, target: Release, req: Request, env: Env)
    returns (res: Release, err: Option<Error>, ghost calls: seq<Call>)
    requires store.Valid()
    modifies store`records
    ensures store.Valid()
    ensures var p := Perform(old(store.records), current, target, req, env);
      res == p.response && err == p.err && store.records == p.records && calls == p.calls
  {
    var currentRelease, targetRelease := current, target;
    calls := [];
    if req.dryRun {
      return targetRelease, None, calls;
    }

    if !req.disableHooks {
      calls := calls + [ExecHook(targetRelease.hooks, targetRelease.name, targetRelease.namespace, PreRollback, req.timeout)];
      var hook := env.execHook(targetRelease.hooks, targetRelease.name, targetRelease.namespace, PreRollback, req.timeout);
      if hook.Failed? {
        return targetRelease, Some(HookFailed(PreRollback, hook.msg)), calls;
      }
    }

    calls := calls + [ModuleRollback(currentRelease, targetRelease)];
    var applied := env.moduleRollback(currentRelease, targetRelease, req);
    if applied.Failed? {
      var msg := FailureMessage(targetRelease.name, applied.msg);
      currentRelease := currentRelease.(code := SUPERSEDED);
      targetRelease := targetRelease.(code := FAILED, description := msg);
      RecordRelease(store, currentRelease, true);
      RecordRelease(store, targetRelease, false);
      return targetRelease, Some(ModuleFailed(applied.msg)), calls;
    }

    if !req.disableHooks {
      calls := calls + [ExecHook(targetRelease.hooks, targetRelease.name, targetRelease.namespace, PostRollback, req.timeout)];
      var hook := env.execHook(targetRelease.hooks, targetRelease.name, targetRelease.namespace, PostRollback, req.timeout);
      if hook.Failed? {
        return targetRelease, Some(HookFailed(PostRollback, hook.msg)), calls;
      }
    }

    currentRelease := currentRelease.(code := SUPERSEDED);
    RecordRelease(store, currentRelease, true);

    targetRelease := targetRelease.(code := DEPLOYED);
    return targetRelease, None, calls;
  }

  /**
   * `RollbackRelease`. The deferred unlock of the source runs on every path
   * after the lock is taken; here that is the single unlock at the end.
   */
  method RollbackRelease(store: Store, req: Request, env: Env)
    returns (res: Option<Release>, err: Option<Error>, ghost calls: seq<Call>)
    requires store.Valid()
    modifies store
    ensures store.Valid()
    ensures var run := Rollback(old(store.records), old(store.locks), req, env);
      res == run.response && err == run.err && store.records == run.records &&
      store.locks == run.locks && calls == run.calls
  {
    var lockErr := store.LockRelease(req.name);
    if lockErr.Some? {
      return None, lockErr, [];
    }

    calls := [];
    var prepared := Prepare(store.records, req, env);
    if prepared.Err? {
      res, err := None, Some(prepared.error);
    } else {
      var targetRelease: Release;
      targetRelease, err, calls := PerformRollback(store, prepared.value.current, prepared.value.target, req, env);
      res := Some(targetRelease);
      if err.None? && !req.dryRun {
        err := store.Create(targetRelease, env.storage);
      }
    }

    store.UnlockRelease(req.name);
  }
}
