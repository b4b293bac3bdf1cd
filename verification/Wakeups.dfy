/** No request to render is lost, in every run that is not cut short, and the render lock after a full start-up. */
module Wakeups {
  import opened IndexRenderer

  // ---- No lost wake-up

  /** A request is in the channel, or a recorder that bumped the version is about to send one. */
  ghost predicate Pending(s: State) {
    s.token || !NoneAt(s, Bumped)
  }

  ghost predicate IsCurrent(s: State, l: Locale) {
    l in s.bodies && s.bodies[l].signature.version == s.version
  }

  ghost predicate AreCurrent(s: State, locales: seq<Locale>, n: nat) {
    forall i :: 0 <= i < n && i < |locales| ==> IsCurrent(s, locales[i])
  }

  ghost predicate IsCurrentWork(s: State, work: Work) {
    work.Building? ==> work.signature.version == s.version
  }

  ghost predicate LockInvariant(s: State) {
    && (s.renderLock == TheRenderer <==> s.renderer.Rendering?)
    && (forall h :: 0 <= h < |s.handlers| ==> (s.handlers[h].Filling? <==> s.renderLock == AHandler(h)))
  }

  ghost predicate NothingBeforeServing(s: State) {
    && (!s.Serving() ==> forall h :: 0 <= h < |s.handlers| ==> s.handlers[h].Ready?)
    && (s.outcome == NoPassYet ==> !s.renderer.Waiting?)
  }

  /** The renderer has taken a request and has not begun its pass, or its latest pass was cut short. */
  ghost predicate PassAhead(s: State) {
    || s.renderer.Unconfigured? || s.renderer.AwaitingStart? || s.renderer.Draining? || s.renderer.Trying?
    || (s.renderer.Waiting? && s.outcome != Completed)
  }

  ghost predicate WakeupInvariant(locales: seq<Locale>, s: State) {
    && LockInvariant(s)
    && NothingBeforeServing(s)
    && (Pending(s) || PassAhead(s) ||
        match s.renderer
        case Waiting => AreCurrent(s, locales, |locales|)
        case Rendering(_, _, next, work) => AreCurrent(s, locales, next) && IsCurrentWork(s, work)
        case _ => true)
    && (Pending(s) || PassAhead(s) ||
        forall h :: 0 <= h < |s.handlers| && s.handlers[h].Filling? ==> IsCurrentWork(s, s.handlers[h].work))
  }

  lemma ActionKeepsLock(locales: seq<Locale>, s: State, a: Action)
    requires LockInvariant(s) && Enabled(locales, s, a)
    ensures LockInvariant(Apply(locales, s, a))
  {
  }

  lemma ActionKeepsServing(locales: seq<Locale>, s: State, a: Action)
    requires LockInvariant(s) && NothingBeforeServing(s) && Enabled(locales, s, a)
    ensures NothingBeforeServing(Apply(locales, s, a))
  {
  }

  lemma ActionKeepsPending(locales: seq<Locale>, s: State, a: Action)
    requires Enabled(locales, s, a) && Pending(s) && !PassAhead(s)
    ensures Pending(Apply(locales, s, a)) || PassAhead(Apply(locales, s, a))
  {
    var s' := Apply(locales, s, a);
    if !s.token {
      var r :| 0 <= r < |s.recorders| && s.recorders[r] == Bumped;
      if a == Send(r) {
        assert s'.token;
      } else {
        assert s'.recorders[r] == Bumped;
      }
    }
  }

  lemma ActionKeepsWakeup(locales: seq<Locale>, s: State, a: Action)
    requires WakeupInvariant(locales, s) && Enabled(locales, s, a)
    ensures WakeupInvariant(locales, Apply(locales, s, a))
  {
    var s' := Apply(locales, s, a);
    ActionKeepsLock(locales, s, a);
    ActionKeepsServing(locales, s, a);
    if a.Bump? {
      assert s'.recorders[a.r] == Bumped;
    }
    if Pending(s) && !PassAhead(s) {
      ActionKeepsPending(locales, s, a);
    }
  }

  lemma StepKeepsWakeup(locales: seq<Locale>, s: State, s': State)
    requires WakeupInvariant(locales, s) && CanStep(locales, s, s')
    ensures WakeupInvariant(locales, s')
  {
    var a :| Step(locales, s, a, s');
    ActionKeepsWakeup(locales, s, a);
  }

  lemma {:induction false} WakeupInvariantOfRun(locales: seq<Locale>, run: seq<State>, n: nat)
    requires IsRun(locales, run) && n < |run|
    ensures WakeupInvariant(locales, run[n])
  {
    if n > 0 {
      WakeupInvariantOfRun(locales, run, n - 1);
      StepOfRun(locales, run, n);
      StepKeepsWakeup(locales, run[n - 1], run[n]);
    }
  }

  lemma LockInvariantOfRun(locales: seq<Locale>, run: seq<State>, n: nat)
    requires IsRun(locales, run) && n < |run|
    ensures LockInvariant(run[n])
  {
    WakeupInvariantOfRun(locales, run, n);
  }

  /**
    In every reachable state in which the renderer waits on an empty channel, no recorder is between its
    bump and its send, and the latest pass was not cut short, every locale has a body carrying the
    current version.
  */
  lemma NoLostWakeup(locales: seq<Locale>, run: seq<State>, n: nat)
    requires IsRun(locales, run) && n < |run|
    requires run[n].renderer.Waiting? && !run[n].token && NoneAt(run[n], Bumped)
    requires run[n].outcome == Completed
    ensures forall l :: l in locales ==> IsCurrent(run[n], l)
  {
    WakeupInvariantOfRun(locales, run, n);
  }

  // ---- When the renderer can find the lock taken

  ghost predicate HaveBodies(s: State, locales: seq<Locale>, n: nat) {
    forall i :: 0 <= i < n && i < |locales| ==> locales[i] in s.bodies
  }

  ghost predicate BodiesStored(locales: seq<Locale>, s: State) {
    && (s.renderer.Rendering? ==> HaveBodies(s, locales, s.renderer.next))
    && (s.Serving() ==> HaveBodies(s, locales, |locales|))
  }

  ghost predicate HandlersRest(s: State) {
    && (forall h :: 0 <= h < |s.handlers| ==> s.handlers[h].Ready?)
    && (s.renderLock == NoOne || s.renderLock == TheRenderer)
    && s.outcome != LockBusy
  }

  /** After a start-up that stored every body, no handler ever wants the render lock. */
  ghost predicate StartupInvariant(locales: seq<Locale>, s: State) {
    !s.startupFailed ==> HandlersRest(s) && BodiesStored(locales, s)
  }

  lemma ActionKeepsHandlersResting(locales: seq<Locale>, s: State, a: Action)
    requires LockInvariant(s) && HandlersRest(s) && BodiesStored(locales, s) && Enabled(locales, s, a)
    ensures HandlersRest(Apply(locales, s, a))
  {
    if a.HandlerMisses? {
      assert false;
    }
  }

  lemma ActionKeepsBodiesStored(locales: seq<Locale>, s: State, a: Action)
    requires HandlersRest(s) && BodiesStored(locales, s) && Enabled(locales, s, a)
    ensures !Apply(locales, s, a).startupFailed ==> BodiesStored(locales, Apply(locales, s, a))
  {
  }

  lemma StepKeepsStartup(locales: seq<Locale>, s: State, s': State)
    requires LockInvariant(s) && StartupInvariant(locales, s) && CanStep(locales, s, s')
    ensures StartupInvariant(locales, s')
  {
    var a :| Step(locales, s, a, s');
    if !s.startupFailed {
      ActionKeepsHandlersResting(locales, s, a);
      ActionKeepsBodiesStored(locales, s, a);
    }
  }

  lemma {:induction false} StartupInvariantOfRun(locales: seq<Locale>, run: seq<State>, n: nat)
    requires IsRun(locales, run) && n < |run|
    ensures StartupInvariant(locales, run[n])
  {
    if n > 0 {
      StartupInvariantOfRun(locales, run, n - 1);
      LockInvariantOfRun(locales, run, n - 1);
      StepOfRun(locales, run, n);
      StepKeepsStartup(locales, run[n - 1], run[n]);
    }
  }

  /** Once start-up stored a body for every locale, the renderer never finds the render lock taken. */
  lemma TryLockNeverFails(locales: seq<Locale>, run: seq<State>, n: nat)
    requires IsRun(locales, run) && n < |run|
    requires !run[n].startupFailed
    ensures !Enabled(locales, run[n], TryLockBusy)
    ensures run[n].outcome != LockBusy
  {
    StartupInvariantOfRun(locales, run, n);
    WakeupInvariantOfRun(locales, run, n);
  }

  /** So after a full start-up a wake-up is lost only if the latest pass failed to build a body. */
  lemma NoLostWakeupAfterFullStartup(locales: seq<Locale>, run: seq<State>, n: nat)
    requires IsRun(locales, run) && n < |run|
    requires run[n].renderer.Waiting? && !run[n].token && NoneAt(run[n], Bumped)
    requires !run[n].startupFailed && run[n].outcome != BuildFailed
    ensures forall l :: l in locales ==> IsCurrent(run[n], l)
  {
    TryLockNeverFails(locales, run, n);
    WakeupInvariantOfRun(locales, run, n);
    NoLostWakeup(locales, run, n);
  }

  /** Everyone rests and the channel is empty, yet the body of l is stale. */
  ghost predicate LostWakeup(locales: seq<Locale>, s: State, l: Locale) {
    && s.renderer.Waiting? && s.renderLock == NoOne && !s.token && NoneAt(s, Bumped) && NoneAt(s, Committed)
    && l in locales && l in s.bodies && !IsCurrent(s, l)
  }
}
