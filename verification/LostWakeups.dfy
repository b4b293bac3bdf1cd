/**
  When the renderer of the index page loses a wake-up: exactly which steps lose one, and exactly when it can
  still find the render lock taken.
*/
module LostWakeups {
  import opened IndexRenderer
  import opened Wakeups

  // ---- The steps that lose a wake-up

  /** The renderer has taken a request, or has yet to be started, and its pass is still to come. */
  ghost predicate PassToCome(s: State) {
    s.renderer.Unconfigured? || s.renderer.AwaitingStart? || s.renderer.Draining? || s.renderer.Trying?
  }

  /** Of the first n locales, none has a stored body of another version. */
  ghost predicate StoredAreCurrent(s: State, locales: seq<Locale>, n: nat) {
    forall i :: 0 <= i < n && i < |locales| && locales[i] in s.bodies ==> IsCurrent(s, locales[i])
  }

  ghost predicate HandlersAreCurrent(s: State) {
    forall h :: 0 <= h < |s.handlers| && s.handlers[h].Filling? ==> IsCurrentWork(s, s.handlers[h].work)
  }

  /** A request is on its way, or a pass is to come, or all that is stored or in the making is current. */
  ghost predicate Attended(locales: seq<Locale>, s: State) {
    || Pending(s)
    || PassToCome(s)
    || (s.renderer.Waiting? && StoredAreCurrent(s, locales, |locales|) && HandlersAreCurrent(s))
    || (s.renderer.Rendering? && StoredAreCurrent(s, locales, s.renderer.next)
        && IsCurrentWork(s, s.renderer.work) && HandlersAreCurrent(s))
  }

  /** A stored body, or a body that a handler is building, carries another version. */
  ghost predicate SomethingStale(locales: seq<Locale>, s: State) {
    !StoredAreCurrent(s, locales, |locales|) || !HandlersAreCurrent(s)
  }

  /** The renderer gives up its pass with nothing on its way, while something is stale. */
  ghost predicate LosesWakeup(locales: seq<Locale>, s: State, a: Action) {
    (a.TryLockBusy? || a.BuildFails?) && !Pending(s) && SomethingStale(locales, s)
  }

  lemma PendingStepKeepsAttended(locales: seq<Locale>, s: State, a: Action)
    requires LockInvariant(s) && Enabled(locales, s, a) && Pending(s)
    ensures Attended(locales, Apply(locales, s, a))
  {
    var s' := Apply(locales, s, a);
    if !s.token {
      var r :| 0 <= r < |s.recorders| && s.recorders[r] == Bumped;
      assert a != Send(r) ==> s'.recorders[r] == Bumped;
    }
  }

  lemma WaitingKeepsAttended(locales: seq<Locale>, s: State, a: Action)
    requires LockInvariant(s) && Enabled(locales, s, a) && !Pending(s) && s.renderer.Waiting?
    requires StoredAreCurrent(s, locales, |locales|) && HandlersAreCurrent(s)
    ensures Attended(locales, Apply(locales, s, a))
  {
    if a.Bump? {
      assert Apply(locales, s, a).recorders[a.r] == Bumped;
    }
  }

  lemma RenderingKeepsAttended(locales: seq<Locale>, s: State, a: Action)
    requires LockInvariant(s) && Enabled(locales, s, a) && !Pending(s) && s.renderer.Rendering? && !a.BuildFails?
    requires StoredAreCurrent(s, locales, s.renderer.next) && IsCurrentWork(s, s.renderer.work)
    ensures Attended(locales, Apply(locales, s, a))
  {
    if a.Bump? {
      assert Apply(locales, s, a).recorders[a.r] == Bumped;
    }
  }

  /**
    From an attended state a step loses the wake-up exactly if the renderer finds the lock taken or its build
    fails, nothing is on its way, and some stored body or some handler's work is stale.
  */
  lemma StepLosesWakeupExactly(locales: seq<Locale>, s: State, a: Action)
    requires LockInvariant(s) && Enabled(locales, s, a) && Attended(locales, s)
    ensures Attended(locales, Apply(locales, s, a)) <==> !LosesWakeup(locales, s, a)
  {
    if Pending(s) {
      PendingStepKeepsAttended(locales, s, a);
    } else if a.TryLockBusy? || a.BuildFails? {
    } else if PassToCome(s) {
    } else if s.renderer.Waiting? {
      WaitingKeepsAttended(locales, s, a);
    } else {
      RenderingKeepsAttended(locales, s, a);
    }
  }

  ghost predicate AttendedThroughout(locales: seq<Locale>, run: seq<State>) {
    forall i :: 0 <= i < |run| ==> Attended(locales, run[i])
  }

  /** Step i of the run loses a wake-up. */
  ghost predicate LosesAt(locales: seq<Locale>, run: seq<State>, i: nat) {
    i + 1 < |run| && exists a :: Step(locales, run[i], a, run[i + 1]) && LosesWakeup(locales, run[i], a)
  }

  lemma NextIsAttendedUnlessLost(locales: seq<Locale>, run: seq<State>, i: nat)
    requires IsRun(locales, run) && i + 1 < |run| && Attended(locales, run[i])
    ensures Attended(locales, run[i + 1]) <==> !LosesAt(locales, run, i)
  {
    LockInvariantOfRun(locales, run, i);
    StepOfRun(locales, run, i + 1);
    var a :| Step(locales, run[i], a, run[i + 1]);
    StepLosesWakeupExactly(locales, run[i], a);
    if b :| Step(locales, run[i], b, run[i + 1]) && LosesWakeup(locales, run[i], b) {
      StepLosesWakeupExactly(locales, run[i], b);
    }
  }

  lemma {:induction false} AttendedUpTo(locales: seq<Locale>, run: seq<State>, n: nat)
    requires IsRun(locales, run) && n < |run|
    requires forall i: nat :: !LosesAt(locales, run, i)
    ensures Attended(locales, run[n])
  {
    if n > 0 {
      AttendedUpTo(locales, run, n - 1);
      NextIsAttendedUnlessLost(locales, run, n - 1);
    }
  }

  /** Over a whole run nothing stale is ever left unattended exactly if no step loses a wake-up. */
  lemma AttendedExactlyWithoutLoss(locales: seq<Locale>, run: seq<State>)
    requires IsRun(locales, run)
    ensures AttendedThroughout(locales, run) <==> forall i: nat :: !LosesAt(locales, run, i)
  {
    if AttendedThroughout(locales, run) {
      forall i: nat
        ensures !LosesAt(locales, run, i)
      {
        if LosesAt(locales, run, i) {
          assert Attended(locales, run[i]) && Attended(locales, run[i + 1]);
          NextIsAttendedUnlessLost(locales, run, i);
        }
      }
    }
    if forall i: nat :: !LosesAt(locales, run, i) {
      forall n | 0 <= n < |run|
        ensures Attended(locales, run[n])
      {
        AttendedUpTo(locales, run, n);
      }
    }
  }

  /** In an attended state with the renderer waiting and nothing on its way, no stored body is stale. */
  lemma AttendedAtRestIsCurrent(locales: seq<Locale>, s: State, l: Locale)
    requires Attended(locales, s) && s.renderer.Waiting? && !Pending(s)
    requires l in locales && l in s.bodies
    ensures IsCurrent(s, l)
  {
    var i :| 0 <= i < |locales| && locales[i] == l;
  }

  // ---- When the lock can still be found taken

  ghost predicate SomeBodyMissing(locales: seq<Locale>, s: State) {
    exists l :: l in locales && l !in s.bodies
  }

  ghost predicate SomeHandlerBusy(s: State) {
    exists h :: 0 <= h < |s.handlers| && !s.handlers[h].Ready?
  }

  /** A handler wants the lock, or there is one that a missing body can make want it. */
  ghost predicate LockIsWanted(locales: seq<Locale>, s: State) {
    SomeHandlerBusy(s) || (s.handlers != [] && SomeBodyMissing(locales, s))
  }

  /** Some continuation of the run reaches the point where the renderer finds the lock taken. */
  ghost predicate CanFindLockTaken(locales: seq<Locale>, run: seq<State>) {
    exists longer :: FindsLockTaken(locales, run, longer)
  }

  ghost predicate FindsLockTaken(locales: seq<Locale>, run: seq<State>, longer: seq<State>) {
    IsRun(locales, longer) && run <= longer && Enabled(locales, longer[|longer| - 1], TryLockBusy)
  }

  /** The holder of the lock exists, and the renderer is at one of the locales or past the last. */
  ghost predicate InRange(locales: seq<Locale>, s: State) {
    && (s.renderLock.AHandler? ==> s.renderLock.h < |s.handlers|)
    && (s.renderer.Rendering? ==> s.renderer.next <= |locales|)
  }

  lemma ActionKeepsRange(locales: seq<Locale>, s: State, a: Action)
    requires InRange(locales, s) && Enabled(locales, s, a)
    ensures InRange(locales, Apply(locales, s, a))
  {
  }

  lemma StepKeepsRange(locales: seq<Locale>, s: State, s': State)
    requires InRange(locales, s) && CanStep(locales, s, s')
    ensures InRange(locales, s')
  {
    var a :| Step(locales, s, a, s');
    ActionKeepsRange(locales, s, a);
  }

  lemma {:induction false} RunInRange(locales: seq<Locale>, run: seq<State>, n: nat)
    requires IsRun(locales, run) && n < |run|
    ensures InRange(locales, run[n])
  {
    if n > 0 {
      RunInRange(locales, run, n - 1);
      StepOfRun(locales, run, n);
      StepKeepsRange(locales, run[n - 1], run[n]);
    }
  }

  /** Once nobody wants the lock, nobody ever will, and the renderer does not find it taken. */
  lemma StillUnwanted(locales: seq<Locale>, s: State, a: Action)
    requires LockInvariant(s) && InRange(locales, s) && Enabled(locales, s, a)
    requires s.Serving() && !LockIsWanted(locales, s)
    ensures Apply(locales, s, a).Serving() && !LockIsWanted(locales, Apply(locales, s, a))
    ensures !a.TryLockBusy?
  {
  }

  lemma StepKeepsUnwanted(locales: seq<Locale>, s: State, s': State)
    requires LockInvariant(s) && InRange(locales, s) && CanStep(locales, s, s')
    requires s.Serving() && !LockIsWanted(locales, s)
    ensures s'.Serving() && !LockIsWanted(locales, s')
  {
    var a :| Step(locales, s, a, s');
    StillUnwanted(locales, s, a);
  }

  lemma {:induction false} UnwantedFrom(locales: seq<Locale>, run: seq<State>, m: nat, n: nat)
    requires IsRun(locales, run) && m <= n < |run|
    requires run[m].Serving() && !LockIsWanted(locales, run[m])
    ensures run[n].Serving() && !LockIsWanted(locales, run[n])
  {
    if n > m {
      UnwantedFrom(locales, run, m, n - 1);
      LockInvariantOfRun(locales, run, n - 1);
      RunInRange(locales, run, n - 1);
      StepOfRun(locales, run, n);
      StepKeepsUnwanted(locales, run[n - 1], run[n]);
    }
  }

  // ---- A continuation that finds the lock taken

  /** While a handler holds the lock: how far the renderer is from trying it. */
  function StepsToTry(s: State): nat {
    match s.renderer
    case Trying(_) => 0
    case Draining => if s.token then 2 else 1
    case _ => if s.token then 3 else 4
  }

  /** A handler holds the lock, and the renderer comes to try it. */
  lemma {:induction false} HeldLockIsFound(locales: seq<Locale>, run: seq<State>) returns (longer: seq<State>)
    requires IsRun(locales, run) && run[|run| - 1].Serving() && run[|run| - 1].renderLock.AHandler?
    ensures FindsLockTaken(locales, run, longer)
    decreases StepsToTry(run[|run| - 1])
  {
    var s := run[|run| - 1];
    LockInvariantOfRun(locales, run, |run| - 1);
    if s.renderer.Trying? {
      longer := run;
    } else {
      var a := if s.renderer.Waiting? then (if s.token then Receive else OtherRequest)
               else if s.token then DrainOne else DrainDone;
      var next := RunExtends(locales, run, a);
      longer := HeldLockIsFound(locales, next);
    }
  }

  /** The renderer can leave its pass without storing another body: it finishes, or its build fails. */
  lemma RendererLeaves(locales: seq<Locale>, run: seq<State>) returns (longer: seq<State>)
    requires IsRun(locales, run) && run[|run| - 1].Serving() && run[|run| - 1].renderer.Rendering?
    ensures IsRun(locales, longer) && run <= longer
    ensures var s, s' := run[|run| - 1], longer[|longer| - 1];
            s'.renderer.Waiting? && s'.renderLock == NoOne && s'.bodies == s.bodies && s'.handlers == s.handlers
  {
    var s := run[|run| - 1];
    LockInvariantOfRun(locales, run, |run| - 1);
    RunInRange(locales, run, |run| - 1);
    if s.renderer.work.Building? {
      longer := RunExtends(locales, run, BuildFails);
    } else if s.renderer.next == |locales| {
      longer := RunExtends(locales, run, EndPass);
    } else {
      var l := locales[s.renderer.next];
      var other := if l in s.bodies then s.bodies[l].signature.other + 1 else 0;
      var next := RunExtends(locales, run, ReadSignature(other));
      longer := RunExtends(locales, next, BuildFails);
    }
  }

  lemma WantedCanBeFound(locales: seq<Locale>, run: seq<State>) returns (longer: seq<State>)
    requires IsRun(locales, run) && run[|run| - 1].Serving() && LockIsWanted(locales, run[|run| - 1])
    ensures FindsLockTaken(locales, run, longer)
  {
    var free := run;
    if run[|run| - 1].renderer.Rendering? {
      free := RendererLeaves(locales, run);
    }
    LockInvariantOfRun(locales, free, |free| - 1);
    var s := free[|free| - 1];
    if s.renderLock.AHandler? {
      longer := HeldLockIsFound(locales, free);
    } else if SomeHandlerBusy(s) {
      var h: nat :| h < |s.handlers| && !s.handlers[h].Ready?;
      longer := RunExtends(locales, free, HandlerLocks(h));
      longer := HeldLockIsFound(locales, longer);
    } else {
      var l :| l in locales && l !in s.bodies;
      longer := RunExtends(locales, free, HandlerMisses(0, l));
      longer := RunExtends(locales, longer, HandlerLocks(0));
      longer := HeldLockIsFound(locales, longer);
    }
  }

  /**
    From a reachable state in which the server listens, the renderer can come to find the lock taken exactly if
    a handler is not at rest, or there is a handler and some locale has no body.
  */
  lemma LockIsFoundTakenExactly(locales: seq<Locale>, run: seq<State>)
    requires IsRun(locales, run) && run[|run| - 1].Serving()
    ensures CanFindLockTaken(locales, run) <==> LockIsWanted(locales, run[|run| - 1])
  {
    if LockIsWanted(locales, run[|run| - 1]) {
      var longer := WantedCanBeFound(locales, run);
      assert FindsLockTaken(locales, run, longer);
    }
    if longer :| FindsLockTaken(locales, run, longer) {
      if !LockIsWanted(locales, run[|run| - 1]) {
        UnwantedFrom(locales, longer, |run| - 1, |longer| - 1);
        LockInvariantOfRun(locales, longer, |longer| - 1);
        RunInRange(locales, longer, |longer| - 1);
        StillUnwanted(locales, longer[|longer| - 1], TryLockBusy);
      }
    }
  }
}
