/**
 * Concrete rollbacks of a release "app" whose history is v1 then v2, with the
 * collaborators fixed: every name valid, hooks succeeding, the release module
 * succeeding or failing as each scenario says.
 */
module RollbackScenarios {
  import opened Wrappers
  import opened Releases
  import opened Format
  import opened Storage
  import opened ReleaseServer
  import opened RollbackProperties

  function App(version: int, code: StatusCode, config: string): Release
  {
    Release("app", "default", version, "app-chart", config, "manifest " + config, [],
            100, 100 * version, code, "notes " + config, "")
  }

  /** v1 with config A, v2 with config A', in the given states. */
  function AppHistory(v1: StatusCode, v2: StatusCode): (records: Records)
    ensures WellKeyed(records)
  {
    map[("app", 1) := App(1, v1, "A"), ("app", 2) := App(2, v2, "A'")]
  }

  function AppEnv(moduleOutcome: Outcome): Env
  {
    Env((n: string) => true, 300,
        (hs: seq<Hook>, n: string, ns: string, e: HookEvent, t: int) => Succeeded,
        (c: Release, t: Release, r: Request) => moduleOutcome,
        Succeeded)
  }

  function OneBack(): Request { Request("app", 0, false, false, 300) }

  lemma AppPrepared(v1: StatusCode, v2: StatusCode, moduleOutcome: Outcome)
    ensures Prepare(AppHistory(v1, v2), OneBack(), AppEnv(moduleOutcome)) ==
      Ok(Prepared(App(2, v2, "A'"),
                  Release("app", "default", 3, "app-chart", "A", "manifest A", [],
                          100, 300, UNKNOWN, "notes A", "Rollback to 1")))
  {
    var records := AppHistory(v1, v2);
    assert Versions(records, "app") == {1, 2};
    assert MaxOf({1, 2}) == 2;
    assert LastOf(records, "app") == Ok(App(2, v2, "A'"));
    assert GetOf(records, "app", 1) == Ok(App(1, v1, "A"));
    assert DigitChar(1) == '1';
    assert Decimal(1) == "1";
    assert RollbackDescription(1) == "Rollback to 1";
    var env := AppEnv(moduleOutcome);
    assert env.validName("app");
    assert "manifest " + "A" == "manifest A";
    assert "notes " + "A" == "notes A";
  }

  /** Rolling v2 back one version succeeds: v3 is DEPLOYED with v1's configuration. */
  lemma {:induction false} AppRollbackSucceeds()
    ensures var run := Rollback(AppHistory(SUPERSEDED, DEPLOYED), {}, OneBack(), AppEnv(Succeeded));
      run.err == None && run.records.Keys == {("app", 1), ("app", 2), ("app", 3)} &&
      run.records[("app", 1)].code == SUPERSEDED && run.records[("app", 2)].code == SUPERSEDED &&
      run.records[("app", 3)].code == DEPLOYED && run.records[("app", 3)].config == "A" &&
      run.response == Some(run.records[("app", 3)])
  {
    var env := AppEnv(Succeeded);
    AppPrepared(SUPERSEDED, DEPLOYED, Succeeded);
    var p := Prepare(AppHistory(SUPERSEDED, DEPLOYED), OneBack(), env).value;
    Success(AppHistory(SUPERSEDED, DEPLOYED), {}, OneBack(), env, p);
  }

  /** The same rollback with the release module failing records v3 as FAILED and returns it with the error. */
  lemma {:induction false} AppRollbackModuleFails()
    ensures var run := Rollback(AppHistory(SUPERSEDED, DEPLOYED), {}, OneBack(), AppEnv(Failed("connection refused")));
      run.err == Some(ModuleFailed("connection refused")) &&
      run.records.Keys == {("app", 1), ("app", 2), ("app", 3)} &&
      run.records[("app", 2)].code == SUPERSEDED && run.records[("app", 3)].code == FAILED &&
      run.records[("app", 3)].description == "Rollback \"app\" failed: connection refused" &&
      run.response == Some(run.records[("app", 3)])
  {
    var records := AppHistory(SUPERSEDED, DEPLOYED);
    var env := AppEnv(Failed("connection refused"));
    AppPrepared(SUPERSEDED, DEPLOYED, Failed("connection refused"));
    var p := Prepare(records, OneBack(), env).value;
    assert HookOutcome(env, p.target, OneBack(), PreRollback) == Succeeded;
    ModuleFailure(records, {}, OneBack(), env, p, "connection refused");
    var failed := p.target.(code := FAILED, description := FailureMessage("app", "connection refused"));
    var run := Rollback(records, {}, OneBack(), env);
    assert run.records == records[("app", 2) := p.current.(code := SUPERSEDED)][("app", 3) := failed];
    assert run.response == Some(failed);
    AppFailureMessage();
  }

  lemma AppFailureMessage()
    ensures FailureMessage("app", "connection refused") == "Rollback \"app\" failed: connection refused"
  {
    QuotePlain("app");
  }

  /** A negative version is refused before any lookup and leaves the store as it was. */
  lemma AppNegativeVersion()
    ensures var records := AppHistory(SUPERSEDED, DEPLOYED);
      Rollback(records, {}, Request("app", -1, false, false, 300), AppEnv(Succeeded)) ==
      Run(None, Some(InvalidRevision), records, {}, [])
  {
  }

  /**
   * Only the latest record is superseded: when v1 is DEPLOYED and the latest,
   * v2, is FAILED, a successful rollback leaves v1 and v3 both DEPLOYED.
   */
  lemma {:induction false} OlderDeployedSurvives()
    ensures var run := Rollback(AppHistory(DEPLOYED, FAILED), {}, OneBack(), AppEnv(Succeeded));
      run.err == None &&
      ("app", 1) in run.records && run.records[("app", 1)].code == DEPLOYED &&
      ("app", 3) in run.records && run.records[("app", 3)].code == DEPLOYED &&
      !AtMostOneDeployed(run.records, "app")
  {
    var env := AppEnv(Succeeded);
    AppPrepared(DEPLOYED, FAILED, Succeeded);
    var p := Prepare(AppHistory(DEPLOYED, FAILED), OneBack(), env).value;
    Success(AppHistory(DEPLOYED, FAILED), {}, OneBack(), env, p);
  }
}
