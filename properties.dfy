/**
 * What a rollback promises about the store, the lock set and the response,
 * path by path, stated over `Rollback` (and therefore, through the contract
 * of `RollbackRelease`, about the imperative operation on a `Store`).
 */
module RollbackProperties {
  import opened Wrappers
  import opened Releases
  import opened Storage
  import opened ReleaseServer

  /** The lock set is the same after every call; a held lock fails the call with no other effect. */
  lemma LockDiscipline(records: Records, locks: set<string>, req: Request, env: Env)
    ensures var run := Rollback(records, locks, req, env);
      run.locks == locks &&
      (req.name in locks ==> run == Run(None, Some(LockHeld(req.name)), records, locks, [])) &&
      (req.name !in locks ==> req.name !in run.locks)
  {
  }

  /** An invalid name, then a negative version, is refused before the store is consulted. */
  lemma ValidationBeforeLookup(records: Records, locks: set<string>, req: Request, env: Env)
    requires req.name !in locks
    requires !env.validName(req.name) || req.version < 0
    ensures Rollback(records, locks, req, env) ==
      Run(None, Some(if !env.validName(req.name) then MissingRelease else InvalidRevision), records, locks, [])
  {
  }

  /** An unknown name, or a target version that is not stored, fails with no effect. */
  lemma LookupFailures(records: Records, locks: set<string>, req: Request, env: Env)
    requires req.name !in locks && env.validName(req.name) && req.version >= 0
    ensures (forall k :: k in records ==> k.0 != req.name) ==>
      Rollback(records, locks, req, env) == Run(None, Some(ReleaseNotFound(req.name)), records, locks, [])
    ensures LastOf(records, req.name).Ok? ==>
      var rbv := TargetVersion(req.version, LastOf(records, req.name).value.version);
      (req.name, rbv) !in records ==>
      Rollback(records, locks, req, env) == Run(None, Some(RevisionNotFound(req.name, rbv)), records, locks, [])
  {
  }

  /** A dry run returns the UNKNOWN target, calls nothing and writes nothing. */
  lemma DryRun(records: Records, locks: set<string>, req: Request, env: Env, p: Prepared)
    requires req.name !in locks && Prepare(records, req, env) == Ok(p) && req.dryRun
    ensures Rollback(records, locks, req, env) == Run(Some(p.target), None, records, locks, [])
    ensures p.target.code == UNKNOWN
  {
  }

  /** A failing pre-rollback hook returns the UNKNOWN target with the error and writes nothing. */
  lemma PreHookFailure(records: Records, locks: set<string>, req: Request, env: Env, p: Prepared, msg: string)
    requires req.name !in locks && Prepare(records, req, env) == Ok(p) && !req.dryRun
    requires HookOutcome(env, p.target, req, PreRollback) == Failed(msg)
    ensures !req.disableHooks
    ensures Rollback(records, locks, req, env) ==
      Run(Some(p.target), Some(HookFailed(PreRollback, msg)), records, locks,
          [ExecHook(p.target.hooks, req.name, p.target.namespace, PreRollback, req.timeout)])
  {
  }

  /**
   * A failing release module supersedes the current record in place and
   * inserts the target as FAILED, with the module's error in its description.
   */
  lemma ModuleFailure(records: Records, locks: set<string>, req: Request, env: Env, p: Prepared, msg: string)
    requires WellKeyed(records)
    requires req.name !in locks && Prepare(records, req, env) == Ok(p) && !req.dryRun
    requires HookOutcome(env, p.target, req, PreRollback) == Succeeded
    requires env.moduleRollback(p.current, p.target, req) == Failed(msg)
    ensures var failed := p.target.(code := FAILED, description := FailureMessage(req.name, msg));
      Rollback(records, locks, req, env) ==
      Run(Some(failed), Some(ModuleFailed(msg)),
          records[KeyOf(p.current) := p.current.(code := SUPERSEDED)][KeyOf(p.target) := failed], locks,
          HookCalls(p.target, req, PreRollback) + [ModuleRollback(p.current, p.target)])
  {
  }

  /** A failing post-rollback hook returns the UNKNOWN target with the error and writes nothing. */
  lemma PostHookFailure(records: Records, locks: set<string>, req: Request, env: Env, p: Prepared, msg: string)
    requires req.name !in locks && Prepare(records, req, env) == Ok(p) && !req.dryRun
    requires HookOutcome(env, p.target, req, PreRollback) == Succeeded
    requires env.moduleRollback(p.current, p.target, req) == Succeeded
    requires HookOutcome(env, p.target, req, PostRollback) == Failed(msg)
    ensures var run := Rollback(records, locks, req, env);
      run.response == Some(p.target) && run.err == Some(HookFailed(PostRollback, msg)) &&
      run.records == records && run.locks == locks
    ensures Rollback(records, locks, req, env).calls ==
      [ExecHook(p.target.hooks, req.name, p.target.namespace, PreRollback, req.timeout),
       ModuleRollback(p.current, p.target),
       ExecHook(p.target.hooks, req.name, p.target.namespace, PostRollback, req.timeout)]
  {
  }

  /**
   * When the module and both hooks succeed, the current record is superseded
   * and the target is inserted as DEPLOYED; if that final insert is refused,
   * the error is returned and the current record stays superseded.
   */
  lemma Success(records: Records, locks: set<string>, req: Request, env: Env, p: Prepared)
    requires WellKeyed(records)
    requires req.name !in locks && Prepare(records, req, env) == Ok(p) && !req.dryRun
    requires HookOutcome(env, p.target, req, PreRollback) == Succeeded
    requires env.moduleRollback(p.current, p.target, req) == Succeeded
    requires HookOutcome(env, p.target, req, PostRollback) == Succeeded
    ensures var deployed := p.target.(code := DEPLOYED);
      var superseded := records[KeyOf(p.current) := p.current.(code := SUPERSEDED)];
      var run := Rollback(records, locks, req, env);
      run.response == Some(deployed) && run.locks == locks &&
      (env.storage.Succeeded? ==> run.err == None && run.records == superseded[KeyOf(p.target) := deployed]) &&
      (env.storage.Failed? ==> run.err == Some(StorageFailure(env.storage.msg)) && run.records == superseded)
  {
  }

  /** The record with the highest version stored under `name`, when there is one. */
  ghost predicate IsLatest(records: Records, k: Key)
  {
    k in records && forall j :: j in records && j.0 == k.0 ==> j.1 <= k.1
  }

  /**
   * `after` extends `before` append-only: no record disappears, the only new
   * record is `added`, and the only record rewritten is the latest one of
   * `name`, whose status alone becomes SUPERSEDED.
   */
  ghost predicate AppendOnly(before: Records, after: Records, name: string, added: Option<Release>)
  {
    WellKeyed(after) &&
    (forall k :: k in before ==> k in after) &&
    (forall k :: k in after && k !in before ==>
      added.Some? && k == KeyOf(added.value) && after[k] == added.value) &&
    (forall k :: k in before && after[k] != before[k] ==>
      k.0 == name && IsLatest(before, k) && after[k] == before[k].(code := SUPERSEDED))
  }

  /** Superseding the latest record, then possibly inserting a fresh one, is append-only. */
  lemma SupersedeThenInsert(records: Records, cur: Release, added: Option<Release>, after: Records)
    requires WellKeyed(records)
    requires WriteShape(records, after, added, cur)
    ensures AppendOnly(records, after, cur.name, added)
  {
  }

  /** Every rollback leaves the history append-only in the sense of `AppendOnly`. */
  lemma HistoryPreserved(records: Records, locks: set<string>, req: Request, env: Env)
    requires WellKeyed(records)
    ensures var run := Rollback(records, locks, req, env);
      AppendOnly(records, run.records, req.name, run.response)
  {
    var run := Rollback(records, locks, req, env);
    if run.records != records {
      var cur := WritingRun(records, locks, req, env);
      SupersedeThenInsert(records, cur, run.response, run.records);
    }
  }

  /**
   * The store a writing rollback leaves: `cur`, the latest record, superseded,
   * and at most the response inserted, one version above it.
   */
  ghost predicate WriteShape(records: Records, after: Records, response: Option<Release>, cur: Release)
  {
    KeyOf(cur) in records && records[KeyOf(cur)] == cur && IsLatest(records, KeyOf(cur)) &&
    response.Some? && KeyOf(response.value) == (cur.name, cur.version + 1) &&
    var superseded := records[KeyOf(cur) := cur.(code := SUPERSEDED)];
    (after == superseded || after == superseded[KeyOf(response.value) := response.value])
  }

  /** A rollback that writes leaves the store in the shape `WriteShape` describes. */
  lemma WritingRun(records: Records, locks: set<string>, req: Request, env: Env) returns (cur: Release)
    requires WellKeyed(records)
    requires Rollback(records, locks, req, env).records != records
    ensures cur.name == req.name
    ensures WriteShape(records, Rollback(records, locks, req, env).records, Rollback(records, locks, req, env).response, cur)
  {
    var p, t := WritingFacts(records, locks, req, env);
    cur := p.current;
  }

  /** The records a writing rollback touches: the latest one, and the target inserted one version above it. */
  lemma WritingFacts(records: Records, locks: set<string>, req: Request, env: Env) returns (p: Prepared, t: Release)
    requires WellKeyed(records)
    requires Rollback(records, locks, req, env).records != records
    ensures p.current.name == req.name
    ensures KeyOf(p.current) in records && records[KeyOf(p.current)] == p.current && IsLatest(records, KeyOf(p.current))
    ensures KeyOf(t) == (p.current.name, p.current.version + 1) && Rollback(records, locks, req, env).response == Some(t)
    ensures var superseded := records[KeyOf(p.current) := p.current.(code := SUPERSEDED)];
      Rollback(records, locks, req, env).records == superseded[KeyOf(t) := t] ||
      Rollback(records, locks, req, env).records == superseded
  {
    p := WritingPath(records, locks, req, env);
    t := WrittenTarget(records, locks, req, env, p);
  }

  /** Only the module-failure and the all-hooks-passed paths write. */
  lemma WritingPath(records: Records, locks: set<string>, req: Request, env: Env) returns (p: Prepared)
    requires Rollback(records, locks, req, env).records != records
    ensures req.name !in locks && Prepare(records, req, env) == Ok(p) && !req.dryRun
    ensures HookOutcome(env, p.target, req, PreRollback) == Succeeded
    ensures env.moduleRollback(p.current, p.target, req).Succeeded? ==>
      HookOutcome(env, p.target, req, PostRollback) == Succeeded
  {
    p := Prepare(records, req, env).value;
  }

  /** `WritingFacts` once the prepared pair is known. */
  lemma WrittenTarget(records: Records, locks: set<string>, req: Request, env: Env, p: Prepared) returns (t: Release)
    requires WellKeyed(records)
    requires req.name !in locks && Prepare(records, req, env) == Ok(p) && !req.dryRun
    requires HookOutcome(env, p.target, req, PreRollback) == Succeeded
    requires env.moduleRollback(p.current, p.target, req).Succeeded? ==>
      HookOutcome(env, p.target, req, PostRollback) == Succeeded
    ensures p.current.name == req.name
    ensures KeyOf(p.current) in records && records[KeyOf(p.current)] == p.current && IsLatest(records, KeyOf(p.current))
    ensures KeyOf(t) == (p.current.name, p.current.version + 1) && Rollback(records, locks, req, env).response == Some(t)
    ensures var superseded := records[KeyOf(p.current) := p.current.(code := SUPERSEDED)];
      Rollback(records, locks, req, env).records == superseded[KeyOf(t) := t] ||
      Rollback(records, locks, req, env).records == superseded
  {
    PreparedFacts(records, req, env, p);
    match env.moduleRollback(p.current, p.target, req)
    case Failed(msg) => t := FailedRun(records, locks, req, env, p, msg);
    case Succeeded => t := SucceededRun(records, locks, req, env, p);
  }

  /** `ModuleFailure` with the failure message kept abstract: the run supersedes and inserts one record. */
  lemma FailedRun(records: Records, locks: set<string>, req: Request, env: Env, p: Prepared, msg: string)
    returns (failed: Release)
    requires WellKeyed(records)
    requires req.name !in locks && Prepare(records, req, env) == Ok(p) && !req.dryRun
    requires HookOutcome(env, p.target, req, PreRollback) == Succeeded
    requires env.moduleRollback(p.current, p.target, req) == Failed(msg)
    ensures KeyOf(failed) == KeyOf(p.target) && Rollback(records, locks, req, env).response == Some(failed)
    ensures Rollback(records, locks, req, env).records ==
      records[KeyOf(p.current) := p.current.(code := SUPERSEDED)][KeyOf(failed) := failed]
  {
    ModuleFailure(records, locks, req, env, p, msg);
    failed := p.target.(code := FAILED, description := FailureMessage(req.name, msg));
  }

  /** `Success` in the same form: the run supersedes, and inserts the target unless the store fails. */
  lemma SucceededRun(records: Records, locks: set<string>, req: Request, env: Env, p: Prepared)
    returns (deployed: Release)
    requires WellKeyed(records)
    requires req.name !in locks && Prepare(records, req, env) == Ok(p) && !req.dryRun
    requires HookOutcome(env, p.target, req, PreRollback) == Succeeded
    requires env.moduleRollback(p.current, p.target, req) == Succeeded
    requires HookOutcome(env, p.target, req, PostRollback) == Succeeded
    ensures KeyOf(deployed) == KeyOf(p.target) && Rollback(records, locks, req, env).response == Some(deployed)
    ensures var superseded := records[KeyOf(p.current) := p.current.(code := SUPERSEDED)];
      Rollback(records, locks, req, env).records == superseded[KeyOf(deployed) := deployed] ||
      Rollback(records, locks, req, env).records == superseded
  {
    Success(records, locks, req, env, p);
    deployed := p.target.(code := DEPLOYED);
  }

  /** What `Prepare` guarantees about the two records it returns, for a well-keyed store. */
  lemma PreparedFacts(records: Records, req: Request, env: Env, p: Prepared)
    requires WellKeyed(records) && Prepare(records, req, env) == Ok(p)
    ensures KeyOf(p.current) in records && records[KeyOf(p.current)] == p.current
    ensures IsLatest(records, KeyOf(p.current)) && p.current.name == req.name
    ensures KeyOf(p.target) == (req.name, p.current.version + 1)
  {
  }

  /** No two records of `name` are DEPLOYED. */
  ghost predicate AtMostOneDeployed(records: Records, name: string)
  {
    forall k1, k2 ::
      (k1 in records && k2 in records && k1.0 == name && k2.0 == name &&
       records[k1].code == DEPLOYED && records[k2].code == DEPLOYED) ==> k1 == k2
  }

  /** Every DEPLOYED record of `name` is its latest record. */
  ghost predicate DeployedOnlyAtLatest(records: Records, name: string)
  {
    forall k :: k in records && k.0 == name && records[k].code == DEPLOYED ==> IsLatest(records, k)
  }

  /** Records that are all latest are one record. */
  lemma LatestUnique(records: Records, name: string)
    requires DeployedOnlyAtLatest(records, name)
    ensures AtMostOneDeployed(records, name)
  {
    forall k1, k2 | k1 in records && k2 in records && k1.0 == name && k2.0 == name &&
      records[k1].code == DEPLOYED && records[k2].code == DEPLOYED
      ensures k1 == k2
    {
      assert IsLatest(records, k1) && IsLatest(records, k2);
    }
  }

  /**
   * Superseding the latest record leaves only the inserted record, if any,
   * DEPLOYED; inserted one version above the latest, it is the new latest.
   */
  lemma SupersedeKeepsOneDeployed(records: Records, cur: Release, added: Option<Release>, after: Records)
    requires WellKeyed(records) && DeployedOnlyAtLatest(records, cur.name)
    requires WriteShape(records, after, added, cur)
    ensures AtMostOneDeployed(after, cur.name)
    ensures DeployedOnlyAtLatest(after, cur.name)
  {
    forall k | k in after && k.0 == cur.name && after[k].code == DEPLOYED
      ensures added.Some? && k == KeyOf(added.value) && IsLatest(after, k)
    {
      if k in records {
        assert false;
      }
      forall j | j in after && j.0 == k.0
        ensures j.1 <= k.1
      {
        if j in records {
          assert j.1 <= cur.version;
        }
      }
    }
  }

  /**
   * When the only DEPLOYED record of the name, if any, is its latest one, a
   * rollback ends with at most one DEPLOYED record, on every path, and keeps
   * that condition for the next operation.
   */
  lemma SingleDeployedKept(records: Records, locks: set<string>, req: Request, env: Env)
    requires WellKeyed(records) && DeployedOnlyAtLatest(records, req.name)
    ensures AtMostOneDeployed(Rollback(records, locks, req, env).records, req.name)
    ensures DeployedOnlyAtLatest(Rollback(records, locks, req, env).records, req.name)
  {
    var after := Rollback(records, locks, req, env).records;
    if after == records {
      LatestUnique(records, req.name);
      assert AtMostOneDeployed(after, req.name) && DeployedOnlyAtLatest(after, req.name);
    } else {
      var cur := WritingRun(records, locks, req, env);
      SupersedeKeepsOneDeployed(records, cur, Rollback(records, locks, req, env).response, after);
    }
  }

  /** The versions stored under `name` are exactly 1 to `n`. */
  ghost predicate GapFree(records: Records, name: string, n: nat)
  {
    forall v :: (name, v) in records <==> 1 <= v <= n
  }

  /**
   * Versions stay gap-free from 1: when a name holds exactly versions 1..n,
   * after a rollback it holds 1..n or 1..n+1.
   */
  lemma VersionsStayGapFree(records: Records, locks: set<string>, req: Request, env: Env, n: nat)
    requires WellKeyed(records) && GapFree(records, req.name, n)
    ensures var after := Rollback(records, locks, req, env).records;
      GapFree(after, req.name, n) || GapFree(after, req.name, n + 1)
  {
    var run := Rollback(records, locks, req, env);
    if run.records != records {
      var cur := WritingRun(records, locks, req, env);
      GapFreeAfterWrite(records, req.name, n, cur, run.response, run.records);
    }
  }

  /** A writing rollback over versions 1..n leaves versions 1..n or 1..n+1. */
  lemma GapFreeAfterWrite(records: Records, name: string, n: nat, cur: Release,
                          added: Option<Release>, after: Records)
    requires GapFree(records, name, n) && cur.name == name
    requires WriteShape(records, after, added, cur)
    ensures GapFree(after, name, n) || GapFree(after, name, n + 1)
  {
    assert cur.version == n by {
      assert (name, cur.version) in records;
      assert (name, n) in records;
    }
    var superseded := records[KeyOf(cur) := cur.(code := SUPERSEDED)];
    if after == superseded {
      assert after.Keys == records.Keys;
    } else {
      assert after.Keys == records.Keys + {(name, n + 1)};
    }
  }
}
