/**
  Two runs of the machine that lose a wake-up: one in which the renderer finds its lock taken, after a start-up that
  could not store every body, and one in which a build fails. Every step of theirs is given.
*/
module LostWakeupRuns {
  import opened Common
  import opened ProbeStore
  import opened IndexRenderer
  import opened Wakeups

  // ---- The full start-up is needed

  const PAGE: seq<Locale> := ["en"]
  const DOWN := Sample(ProbeTarget("node", "n", "n", "Ping"), "down", "", 1)

  function Scene(committed: seq<Tables>, version: nat, token: bool, recorder: Recorder, renderer: Renderer,
                 handler: Handler, renderLock: LockHolder, bodies: map<Locale, Body>, outcome: PassOutcome): State {
    State(committed, version, token, [recorder], renderer, [handler], renderLock, bodies, outcome,
          outcome != NoPassYet, 1)
  }

  /** Start-up fails, and a request for the page begins to build it at version 0. */
  function FailedStartup(): seq<State> {
    var t := [EMPTY_TABLES];
    var stale := Building(Signature(0, 0), []);
    [ Scene(t, 0, false, Resting, Unconfigured, Ready, NoOne, map[], NoPassYet),
      Scene(t, 0, false, Resting, AwaitingStart, Ready, NoOne, map[], NoPassYet),
      Scene(t, 0, false, Resting, Rendering(1, true, 0, Starting), Ready, TheRenderer, map[], NoPassYet),
      Scene(t, 0, false, Resting, Rendering(1, true, 0, stale), Ready, TheRenderer, map[], NoPassYet),
      Scene(t, 0, false, Resting, Waiting, Ready, NoOne, map[], BuildFailed),
      Scene(t, 0, false, Resting, Waiting, Missed("en"), NoOne, map[], BuildFailed),
      Scene(t, 0, false, Resting, Waiting, Filling("en", Starting), AHandler(0), map[], BuildFailed),
      Scene(t, 0, false, Resting, Waiting, Filling("en", stale), AHandler(0), map[], BuildFailed) ]
  }

  /** A sample is recorded and announced; the renderer finds the lock busy; the handler stores its body. */
  function BusyLock(): seq<State> {
    var t := [EMPTY_TABLES, Recorded(EMPTY_TABLES, DOWN)];
    var stale := Building(Signature(0, 0), []);
    [ Scene(t, 0, false, Committed, Waiting, Filling("en", stale), AHandler(0), map[], BuildFailed),
      Scene(t, 1, false, Bumped, Waiting, Filling("en", stale), AHandler(0), map[], BuildFailed),
      Scene(t, 1, true, Resting, Waiting, Filling("en", stale), AHandler(0), map[], BuildFailed),
      Scene(t, 1, false, Resting, Draining, Filling("en", stale), AHandler(0), map[], BuildFailed),
      Scene(t, 1, false, Resting, Trying(1), Filling("en", stale), AHandler(0), map[], BuildFailed),
      Scene(t, 1, false, Resting, Waiting, Filling("en", stale), AHandler(0), map[], LockBusy),
      Scene(t, 1, false, Resting, Waiting, Ready, NoOne, map["en" := Body(Signature(0, 0), [], 1)], LockBusy) ]
  }

  function FailedStartupActions(): seq<Action> {
    [Configure, StartPass, ReadSignature(0), BuildFails, HandlerMisses(0, "en"), HandlerLocks(0),
     HandlerReadsSignature(0, 0)]
  }

  function BusyLockActions(): seq<Action> {
    [Commit(0, DOWN), Bump(0), Send(0), Receive, DrainDone, TryLockBusy, HandlerStores(0)]
  }

  lemma FailedStartupStep(i: nat)
    requires i < 7
    ensures Step(PAGE, FailedStartup()[i], FailedStartupActions()[i], FailedStartup()[i + 1])
  {
  }

  lemma BusyLockStep(i: nat)
    requires i < 7
    ensures Step(PAGE, if i == 0 then FailedStartup()[7] else BusyLock()[i - 1], BusyLockActions()[i], BusyLock()[i])
  {
  }

  /** Without a full start-up a request can be taken off the channel and dropped for a busy lock. */
  lemma BusyLockLosesAWakeup() returns (run: seq<State>)
    ensures IsRun(PAGE, run)
    ensures run[|run| - 1].outcome == LockBusy && LostWakeup(PAGE, run[|run| - 1], "en")
  {
    run := FailedStartup() + BusyLock();
    forall i | 0 <= i < |run| - 1
      ensures StepsAt(PAGE, run, i)
    {
      if i < 7 {
        FailedStartupStep(i);
        assert run[i] == FailedStartup()[i] && run[i + 1] == FailedStartup()[i + 1];
      } else {
        BusyLockStep(i - 7);
        assert run[i] == if i == 7 then FailedStartup()[7] else BusyLock()[i - 8];
        assert run[i + 1] == BusyLock()[i - 7];
      }
    }
    assert run[0] == FailedStartup()[0];
    assert run[|run| - 1] == BusyLock()[6];
    BusyLockEndsStale();
  }

  lemma BusyLockEndsStale()
    ensures BusyLock()[6].outcome == LockBusy && LostWakeup(PAGE, BusyLock()[6], "en")
  {
  }

  // ---- A failed build loses a wake-up, too

  function Moment(committed: seq<Tables>, version: nat, token: bool, recorder: Recorder, renderer: Renderer,
                  lock: LockHolder, bodies: map<Locale, Body>, outcome: PassOutcome): State {
    State(committed, version, token, [recorder], renderer, [Ready], lock, bodies, outcome, false, 1)
  }

  /** A full start-up; a sample is recorded and announced; the pass that takes the request fails to build. */
  function FailedBuild(): seq<State> {
    var t0, t1 := [EMPTY_TABLES], [EMPTY_TABLES, Recorded(EMPTY_TABLES, DOWN)];
    var old0, none := map["en" := Body(Signature(0, 0), [], 1)], map[];
    [ Moment(t0, 0, false, Resting, Unconfigured, NoOne, none, NoPassYet),
      Moment(t0, 0, false, Resting, AwaitingStart, NoOne, none, NoPassYet),
      Moment(t0, 0, false, Resting, Rendering(1, true, 0, Starting), TheRenderer, none, NoPassYet),
      Moment(t0, 0, false, Resting, Rendering(1, true, 0, Building(Signature(0, 0), [])), TheRenderer, none, NoPassYet),
      Moment(t0, 0, false, Resting, Rendering(1, true, 1, Starting), TheRenderer, old0, NoPassYet),
      Moment(t0, 0, false, Resting, Waiting, NoOne, old0, Completed),
      Moment(t1, 0, false, Committed, Waiting, NoOne, old0, Completed),
      Moment(t1, 1, false, Bumped, Waiting, NoOne, old0, Completed),
      Moment(t1, 1, true, Resting, Waiting, NoOne, old0, Completed),
      Moment(t1, 1, false, Resting, Draining, NoOne, old0, Completed),
      Moment(t1, 1, false, Resting, Trying(1), NoOne, old0, Completed),
      Moment(t1, 1, false, Resting, Rendering(1, false, 0, Starting), TheRenderer, old0, Completed),
      Moment(t1, 1, false, Resting, Rendering(1, false, 0, Building(Signature(1, 0), [])), TheRenderer, old0,
             Completed),
      Moment(t1, 1, false, Resting, Waiting, NoOne, old0, BuildFailed) ]
  }

  function FailedBuildActions(): seq<Action> {
    [ Configure, StartPass, ReadSignature(0), StoreBody, EndPass, Commit(0, DOWN), Bump(0), Send(0),
      Receive, DrainDone, TryLockTaken, ReadSignature(0), BuildFails ]
  }

  lemma StartupStep(i: nat)
    requires i < 5
    ensures Step(PAGE, FailedBuild()[i], FailedBuildActions()[i], FailedBuild()[i + 1])
  {
    assert PAGE[0] == "en";
  }

  lemma LaterStep(i: nat)
    requires 5 <= i < 13
    ensures Step(PAGE, FailedBuild()[i], FailedBuildActions()[i], FailedBuild()[i + 1])
  {
    assert PAGE[0] == "en";
    assert |Recorded(EMPTY_TABLES, DOWN).events| == 1;
  }

  /** After a full start-up, which stored every body, a build that fails drops the request it was made for. */
  lemma FailedBuildLosesAWakeup() returns (run: seq<State>)
    ensures IsRun(PAGE, run)
    ensures !run[|run| - 1].startupFailed && run[|run| - 1].outcome == BuildFailed
    ensures LostWakeup(PAGE, run[|run| - 1], "en")
  {
    run := FailedBuild();
    forall i | 0 <= i < |run| - 1
      ensures StepsAt(PAGE, run, i)
    {
      if i < 5 {
        StartupStep(i);
      } else {
        LaterStep(i);
      }
    }
    assert PAGE[0] == "en";
  }
}
