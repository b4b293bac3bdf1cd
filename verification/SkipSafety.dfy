/** A body that the renderer skips is as good as a new one: what bodies are built from, in every run. */
module SkipSafety {
  import opened IndexRenderer

  // ---- Counting recorders

  function Count(recorders: seq<Recorder>, at: Recorder): nat {
    if recorders == [] then 0 else (if recorders[0] == at then 1 else 0) + Count(recorders[1..], at)
  }

  lemma {:induction false} CountAfterMove(recorders: seq<Recorder>, r: nat, to: Recorder, at: Recorder)
    requires r < |recorders|
    ensures Count(recorders[r := to], at)
         == Count(recorders, at) - (if recorders[r] == at then 1 else 0) + (if to == at then 1 else 0)
  {
    if r == 0 {
      assert recorders[0 := to][1..] == recorders[1..];
    } else {
      assert recorders[r := to][1..] == recorders[1..][r - 1 := to];
      CountAfterMove(recorders[1..], r - 1, to, at);
    }
  }

  lemma {:induction false} CountOfAllResting(recorders: seq<Recorder>, at: Recorder)
    requires at != Resting && forall r :: 0 <= r < |recorders| ==> recorders[r] == Resting
    ensures Count(recorders, at) == 0
  {
    if recorders != [] {
      CountOfAllResting(recorders[1..], at);
    }
  }

  lemma {:induction false} CountIsZeroIffNone(recorders: seq<Recorder>, at: Recorder)
    ensures Count(recorders, at) == 0 <==> forall r :: 0 <= r < |recorders| ==> recorders[r] != at
  {
    if recorders != [] {
      CountIsZeroIffNone(recorders[1..], at);
      assert forall r :: 0 < r < |recorders| ==> recorders[r] == recorders[1..][r - 1];
    }
  }

  // ---- Skip safety: what a body was built from

  /** No reading is older than the version in the signature says, and each is of the tables as they then were. */
  ghost predicate GoodReadings(s: State, signature: Signature, readings: seq<Reading>) {
    && signature.version <= s.version
    && forall i :: 0 <= i < |readings| ==> GoodReading(s, signature, readings[i])
  }

  ghost predicate GoodReading(s: State, signature: Signature, reading: Reading) {
    && signature.version <= reading.commits < |s.committed|
    && reading.tables == s.committed[reading.commits]
  }

  ghost predicate GoodWork(s: State, work: Work) {
    work.Building? ==> GoodReadings(s, work.signature, work.readings)
  }

  ghost predicate GoodHandlers(s: State) {
    forall h :: 0 <= h < |s.handlers| && s.handlers[h].Filling? ==> GoodWork(s, s.handlers[h].work)
  }

  ghost predicate GoodBodies(s: State) {
    forall l :: l in s.bodies ==> GoodReadings(s, s.bodies[l].signature, s.bodies[l].readings)
  }

  /** Every commit has been bumped, or its recorder is about to. */
  ghost predicate CommitsAreAccounted(s: State) {
    s.committed != [] && s.Commits() == s.version + Count(s.recorders, Committed)
  }

  ghost predicate ReadingsInvariant(s: State) {
    && CommitsAreAccounted(s)
    && (s.renderer.Rendering? ==> GoodWork(s, s.renderer.work))
    && GoodHandlers(s)
    && GoodBodies(s)
  }

  lemma ActionKeepsAccounts(locales: seq<Locale>, s: State, a: Action)
    requires CommitsAreAccounted(s) && Enabled(locales, s, a)
    ensures CommitsAreAccounted(Apply(locales, s, a))
    ensures s.committed <= Apply(locales, s, a).committed && s.version <= Apply(locales, s, a).version
  {
    match a {
      case Commit(r, _) => CountAfterMove(s.recorders, r, Committed, Committed);
      case Bump(r) => CountAfterMove(s.recorders, r, Bumped, Committed);
      case Send(r) => CountAfterMove(s.recorders, r, Resting, Committed);
      case _ =>
    }
  }

  lemma ReadingsStayGood(s: State, s': State, signature: Signature, readings: seq<Reading>)
    requires s.committed <= s'.committed && s.version <= s'.version
    requires GoodReadings(s, signature, readings)
    ensures GoodReadings(s', signature, readings)
  {
  }

  /** Reading the tables now is a good reading for any signature taken before. */
  lemma NewReadingIsGood(s: State, work: Work)
    requires CommitsAreAccounted(s) && work.Building? && GoodWork(s, work)
    ensures GoodWork(s, WithReading(s, work))
  {
  }

  lemma ActionKeepsRendererWork(locales: seq<Locale>, s: State, a: Action)
    requires ReadingsInvariant(s) && Enabled(locales, s, a)
    ensures var s' := Apply(locales, s, a); s'.renderer.Rendering? ==> GoodWork(s', s'.renderer.work)
  {
    var s' := Apply(locales, s, a);
    ActionKeepsAccounts(locales, s, a);
    if s.renderer.Rendering? && s.renderer.work.Building? {
      ReadingsStayGood(s, s', s.renderer.work.signature, s.renderer.work.readings);
      if a.ReadTables? {
        NewReadingIsGood(s, s.renderer.work);
      }
    }
  }

  lemma ActionKeepsHandlers(locales: seq<Locale>, s: State, a: Action)
    requires ReadingsInvariant(s) && Enabled(locales, s, a)
    ensures GoodHandlers(Apply(locales, s, a))
  {
    var s' := Apply(locales, s, a);
    ActionKeepsAccounts(locales, s, a);
    forall h | 0 <= h < |s'.handlers| && s'.handlers[h].Filling?
      ensures GoodWork(s', s'.handlers[h].work)
    {
      if s.handlers[h].Filling? && s.handlers[h].work.Building? {
        ReadingsStayGood(s, s', s.handlers[h].work.signature, s.handlers[h].work.readings);
        if a == HandlerReadsTables(h) {
          NewReadingIsGood(s, s.handlers[h].work);
        }
      }
    }
  }

  lemma ActionKeepsBodies(locales: seq<Locale>, s: State, a: Action)
    requires ReadingsInvariant(s) && Enabled(locales, s, a)
    ensures GoodBodies(Apply(locales, s, a))
  {
    var s' := Apply(locales, s, a);
    ActionKeepsAccounts(locales, s, a);
    forall l | l in s'.bodies
      ensures GoodReadings(s', s'.bodies[l].signature, s'.bodies[l].readings)
    {
      if l in s.bodies && s'.bodies[l] == s.bodies[l] {
        ReadingsStayGood(s, s', s.bodies[l].signature, s.bodies[l].readings);
      } else if a.StoreBody? {
        ReadingsStayGood(s, s', s.renderer.work.signature, s.renderer.work.readings);
      } else {
        ReadingsStayGood(s, s', s.handlers[a.h].work.signature, s.handlers[a.h].work.readings);
      }
    }
  }

  lemma StepKeepsReadings(locales: seq<Locale>, s: State, s': State)
    requires ReadingsInvariant(s) && CanStep(locales, s, s')
    ensures ReadingsInvariant(s')
  {
    var a :| Step(locales, s, a, s');
    ActionKeepsAccounts(locales, s, a);
    ActionKeepsRendererWork(locales, s, a);
    ActionKeepsHandlers(locales, s, a);
    ActionKeepsBodies(locales, s, a);
  }

  lemma {:induction false} ReadingsInvariantOfRun(locales: seq<Locale>, run: seq<State>, n: nat)
    requires IsRun(locales, run) && n < |run|
    ensures ReadingsInvariant(run[n])
  {
    if n == 0 {
      CountOfAllResting(run[0].recorders, Committed);
    } else {
      ReadingsInvariantOfRun(locales, run, n - 1);
      StepOfRun(locales, run, n);
      StepKeepsReadings(locales, run[n - 1], run[n]);
    }
  }

  /** A body whose signature carries the current version misses at most the commits whose bump is still due. */
  lemma CurrentBodyMissesOnlyPendingCommits(locales: seq<Locale>, run: seq<State>, n: nat, l: Locale, i: nat)
    requires IsRun(locales, run) && n < |run|
    requires l in run[n].bodies && run[n].bodies[l].signature.version == run[n].version
    requires i < |run[n].bodies[l].readings|
    ensures var s, reading := run[n], run[n].bodies[l].readings[i];
            && reading.commits < |s.committed|
            && reading.tables == s.committed[reading.commits]
            && s.Commits() - reading.commits <= Count(s.recorders, Committed)
  {
    ReadingsInvariantOfRun(locales, run, n);
    assert GoodReading(run[n], run[n].bodies[l].signature, run[n].bodies[l].readings[i]);
  }

  /**
    In every reachable state in which no recorder stands between its commit and its bump, a body whose
    signature carries the current version was built from the current tables alone, however many times and
    however far apart the build read them. So a pass that skips it skips nothing.
  */
  lemma SkipIsSafe(locales: seq<Locale>, run: seq<State>, n: nat, l: Locale)
    requires IsRun(locales, run) && n < |run|
    requires NoneAt(run[n], Committed)
    requires l in run[n].bodies && run[n].bodies[l].signature.version == run[n].version
    ensures run[n].committed != []
    ensures forall i :: 0 <= i < |run[n].bodies[l].readings| ==>
              run[n].bodies[l].readings[i].tables == run[n].Tables()
  {
    ReadingsInvariantOfRun(locales, run, n);
    CountIsZeroIffNone(run[n].recorders, Committed);
    forall i | 0 <= i < |run[n].bodies[l].readings|
      ensures run[n].bodies[l].readings[i].tables == run[n].Tables()
    {
      CurrentBodyMissesOnlyPendingCommits(locales, run, n, l, i);
    }
  }
}
