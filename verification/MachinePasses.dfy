/** Every pass of the machine, whatever happens meanwhile, does to the bodies what the loop over the locales does. */
module MachinePasses {
  import opened Common
  import opened IndexRenderer
  import opened SkipSafety
  import opened Wakeups
  import opened IndexPasses

  // ---- What a run has to offer only grows

  ghost predicate GrowsTo(s: State, s': State) {
    s.committed <= s'.committed && s.version <= s'.version && s.clock <= s'.clock
  }

  lemma ActionGrows(locales: seq<Locale>, s: State, a: Action)
    requires Enabled(locales, s, a)
    ensures GrowsTo(s, Apply(locales, s, a))
  {
  }

  lemma {:induction false} RunGrows(locales: seq<Locale>, run: seq<State>, m: nat, n: nat)
    requires IsRun(locales, run) && m <= n < |run|
    ensures GrowsTo(run[m], run[n])
    decreases n
  {
    if m < n {
      RunGrows(locales, run, m, n - 1);
      StepOfRun(locales, run, n);
      var a :| Step(locales, run[n - 1], a, run[n]);
      ActionGrows(locales, run[n - 1], a);
    }
  }

  // ---- The turns of a pass, tied to the run

  /** From step i to step n the renderer is in one and the same pass, which began at step i. */
  ghost predicate IsPass(run: seq<State>, i: nat, n: nat) {
    && i <= n < |run|
    && run[i].renderer.Rendering? && run[i].renderer.next == 0 && run[i].renderer.work.Starting?
    && forall m :: i <= m <= n ==> run[m].renderer.Rendering?
  }

  /** The reading was made between steps m and n. */
  ghost predicate IsReadBetween(run: seq<State>, m: nat, n: nat, reading: Reading)
    requires m <= n < |run|
  {
    run[m].Commits() <= reading.commits < |run[n].committed| && reading.tables == run[n].committed[reading.commits]
  }

  /** At step m the renderer read this signature for locale k, and it made all these readings from then to step n. */
  ghost predicate IsMet(locales: seq<Locale>, run: seq<State>, k: nat, m: nat, n: nat, signature: Signature,
                        readings: seq<Reading>) {
    && m < n < |run|
    && run[m].renderer.Rendering? && run[m].renderer.next == k
    && signature.version == run[m].version
    && Step(locales, run[m], ReadSignature(signature.other), run[m + 1])
    && forall x :: 0 <= x < |readings| ==> IsReadBetween(run, m, n, readings[x])
  }

  ghost predicate TurnIsMet(locales: seq<Locale>, run: seq<State>, k: nat, m: nat, n: nat, turn: Turn) {
    && IsMet(locales, run, k, m, n, turn.signature, turn.readings)
    && run[m].clock <= turn.at <= run[n].clock
  }

  /** The turns of a pass that began at step i, each as the run met it, at steps that follow one another. */
  ghost predicate TurnsAreMet(locales: seq<Locale>, run: seq<State>, i: nat, n: nat, turns: seq<Turn>,
                              marks: seq<nat>) {
    && |turns| <= |marks|
    && (forall k :: 0 <= k < |marks| ==> i <= marks[k] < n)
    && (forall j, k :: 0 <= j < k < |marks| ==> marks[j] < marks[k])
    && (forall k :: 0 <= k < |turns| ==> TurnIsMet(locales, run, k, marks[k], n, turns[k]))
  }

  /** The work in hand at step n is that of the last mark, which no turn has yet. */
  ghost predicate WorkIsMet(locales: seq<Locale>, run: seq<State>, n: nat, turns: seq<Turn>, marks: seq<nat>)
    requires n < |run|
  {
    var p := run[n].renderer;
    && p.Rendering? && p.next == |turns|
    && (if p.work.Building? then
          && |marks| == |turns| + 1
          && IsMet(locales, run, |turns|, marks[|turns|], n, p.work.signature, p.work.readings)
        else |marks| == |turns|)
  }

  lemma MetStaysMet(locales: seq<Locale>, run: seq<State>, k: nat, m: nat, n: nat, signature: Signature,
                    readings: seq<Reading>)
    requires IsMet(locales, run, k, m, n, signature, readings)
    requires n + 1 < |run| && GrowsTo(run[n], run[n + 1])
    ensures IsMet(locales, run, k, m, n + 1, signature, readings)
  {
    forall x | 0 <= x < |readings|
      ensures IsReadBetween(run, m, n + 1, readings[x])
    {
      assert IsReadBetween(run, m, n, readings[x]);
    }
  }

  lemma TurnsStayMet(locales: seq<Locale>, run: seq<State>, i: nat, n: nat, turns: seq<Turn>, marks: seq<nat>)
    requires TurnsAreMet(locales, run, i, n, turns, marks)
    requires n + 1 < |run| && GrowsTo(run[n], run[n + 1])
    ensures TurnsAreMet(locales, run, i, n + 1, turns, marks)
  {
    forall k | 0 <= k < |turns|
      ensures TurnIsMet(locales, run, k, marks[k], n + 1, turns[k])
    {
      MetStaysMet(locales, run, k, marks[k], n, turns[k].signature, turns[k].readings);
    }
  }

  /** Reading the tables at step n is a reading made since the work in hand began. */
  lemma ReadingIsMet(locales: seq<Locale>, run: seq<State>, k: nat, m: nat, n: nat, work: Work)
    requires IsRun(locales, run) && work.Building? && IsMet(locales, run, k, m, n, work.signature, work.readings)
    requires run[n].committed != []
    ensures IsMet(locales, run, k, m, n, work.signature, WithReading(run[n], work).readings)
  {
    RunGrows(locales, run, m, n);
    var readings := WithReading(run[n], work).readings;
    forall x | 0 <= x < |readings|
      ensures IsReadBetween(run, m, n, readings[x])
    {
      if x < |work.readings| {
        assert IsReadBetween(run, m, n, work.readings[x]);
      }
    }
  }

  // ---- One step of a pass

  /** The step from s is the last of a locale's turn. */
  predicate EndsTurn(locales: seq<Locale>, s: State, a: Action)
    requires s.renderer.Rendering? && Enabled(locales, s, a)
  {
    a.StoreBody? || a.BuildFails? || (a.ReadSignature? && Apply(locales, s, a).renderer.next != s.renderer.next)
  }

  /** The turn that such a step completes. */
  function TurnOf(s: State, a: Action): Turn
    requires s.renderer.Rendering? && (a.ReadSignature? || s.renderer.work.Building?)
  {
    if a.ReadSignature? then Turn(Signature(s.version, a.other), [], true, s.clock)
    else Turn(s.renderer.work.signature, s.renderer.work.readings, !a.BuildFails?, s.clock)
  }

  function TurnsAfter(locales: seq<Locale>, s: State, turns: seq<Turn>, a: Action): seq<Turn>
    requires s.renderer.Rendering? && Enabled(locales, s, a)
  {
    if EndsTurn(locales, s, a) then turns + [TurnOf(s, a)] else turns
  }

  /** A turn begins with the reading of a signature. */
  function MarksAfter(marks: seq<nat>, n: nat, a: Action): seq<nat> {
    if a.ReadSignature? then marks + [n] else marks
  }

  /** A step that reads a signature begins a turn, and ends it too if the locale is skipped. */
  lemma NewTurnIsMet(locales: seq<Locale>, run: seq<State>, i: nat, n: nat, turns: seq<Turn>, marks: seq<nat>,
                     a: Action)
    requires IsRun(locales, run) && i <= n && n + 1 < |run|
    requires a.ReadSignature? && Step(locales, run[n], a, run[n + 1])
    requires TurnsAreMet(locales, run, i, n, turns, marks) && WorkIsMet(locales, run, n, turns, marks)
    ensures var turns', marks' := TurnsAfter(locales, run[n], turns, a), MarksAfter(marks, n, a);
            TurnsAreMet(locales, run, i, n + 1, turns', marks') && WorkIsMet(locales, run, n + 1, turns', marks')
  {
    ActionGrows(locales, run[n], a);
    TurnsStayMet(locales, run, i, n, turns, marks);
    assert IsMet(locales, run, |turns|, n, n + 1, Signature(run[n].version, a.other), []);
  }

  /** What the work in hand has read, it has read since its mark, after any other step too. */
  lemma WorkGoesOn(locales: seq<Locale>, run: seq<State>, k: nat, m: nat, n: nat, work: Work, isRead: bool)
    requires IsRun(locales, run) && n + 1 < |run| && GrowsTo(run[n], run[n + 1])
    requires work.Building? && IsMet(locales, run, k, m, n, work.signature, work.readings)
    requires run[n].committed != []
    ensures run[m].clock <= run[n].clock
    ensures IsMet(locales, run, k, m, n + 1, work.signature,
                  if isRead then WithReading(run[n], work).readings else work.readings)
  {
    RunGrows(locales, run, m, n);
    if isRead {
      ReadingIsMet(locales, run, k, m, n, work);
      MetStaysMet(locales, run, k, m, n, work.signature, WithReading(run[n], work).readings);
    } else {
      MetStaysMet(locales, run, k, m, n, work.signature, work.readings);
    }
  }

  lemma OneTurnMore(locales: seq<Locale>, run: seq<State>, i: nat, n: nat, turns: seq<Turn>, marks: seq<nat>,
                    turn: Turn)
    requires TurnsAreMet(locales, run, i, n, turns, marks) && |turns| < |marks|
    requires TurnIsMet(locales, run, |turns|, marks[|turns|], n, turn)
    ensures TurnsAreMet(locales, run, i, n, turns + [turn], marks)
  {
  }

  /** The work in hand stays, with one more reading if `isRead`, or is handed over if the turn ends. */
  ghost predicate WorkGoesTo(s: State, s': State, ends: bool, isRead: bool)
    requires s.renderer.Rendering?
  {
    var p, p' := s.renderer, s'.renderer;
    && (ends || isRead ==> p.work.Building? && s.committed != [])
    && (p'.Rendering? ==>
          if ends then p'.next == p.next + 1 && p'.work.Starting?
          else p'.next == p.next && p'.work == if isRead then WithReading(s, p.work) else p.work)
  }

  lemma WorkAfterStep(locales: seq<Locale>, s: State, a: Action)
    requires s.renderer.Rendering? && s.committed != [] && Enabled(locales, s, a) && !a.ReadSignature?
    ensures WorkGoesTo(s, Apply(locales, s, a), EndsTurn(locales, s, a), a.ReadTables?)
  {
  }

  /** A step that reads no signature leaves the marks as they are, and may end the turn of the last one. */
  lemma TurnGoesOn(locales: seq<Locale>, run: seq<State>, i: nat, n: nat, turns: seq<Turn>, marks: seq<nat>,
                   ends: bool, isRead: bool, turn: Turn)
    requires IsRun(locales, run) && i <= n && n + 1 < |run| && GrowsTo(run[n], run[n + 1])
    requires TurnsAreMet(locales, run, i, n, turns, marks) && WorkIsMet(locales, run, n, turns, marks)
    requires WorkGoesTo(run[n], run[n + 1], ends, isRead) && !(ends && isRead)
    requires ends ==> run[n].renderer.work == Building(turn.signature, turn.readings) && turn.at == run[n].clock
    ensures var turns' := if ends then turns + [turn] else turns;
            && TurnsAreMet(locales, run, i, n + 1, turns', marks)
            && (run[n + 1].renderer.Rendering? ==> WorkIsMet(locales, run, n + 1, turns', marks))
  {
    TurnsStayMet(locales, run, i, n, turns, marks);
    var work := run[n].renderer.work;
    if work.Building? {
      ReadingsInvariantOfRun(locales, run, n);
      WorkGoesOn(locales, run, |turns|, marks[|turns|], n, work, isRead);
      if ends {
        OneTurnMore(locales, run, i, n + 1, turns, marks, turn);
      }
    }
  }

  // ---- What one step does to the bodies

  /** The renderer is not about to rebuild what it should have skipped. */
  ghost predicate BuildsWhatItMust(locales: seq<Locale>, s: State) {
    s.renderer.Rendering? && s.renderer.work.Building? ==>
      var p := s.renderer;
      p.next < |locales| && (p.force || !CanSkip(s.bodies, locales[p.next], p.work.signature, p.now))
  }

  /** In state s the pass that began with `bodies` has rendered its first locales as in `turns`. */
  ghost predicate HasRendered(locales: seq<Locale>, bodies: map<Locale, Body>, now: Instant, force: bool, s: State,
                              turns: seq<Turn>) {
    && s.renderer.Rendering? && s.renderer.now == now && s.renderer.force == force
    && s.renderer.next == |turns| <= |locales|
    && PassRendered(bodies, locales[..|turns|], now, force, turns) == Rendered(s.bodies, true)
    && BuildsWhatItMust(locales, s)
  }

  /** One step leaves the bodies alone, or does to them what the turn that it ends does. */
  lemma StepTurns(locales: seq<Locale>, s: State, a: Action)
    requires LockInvariant(s) && s.renderer.Rendering? && BuildsWhatItMust(locales, s) && Enabled(locales, s, a)
    ensures var s', p, p' := Apply(locales, s, a), s.renderer, Apply(locales, s, a).renderer;
            && BuildsWhatItMust(locales, s')
            && (p'.Rendering? ==> p'.now == p.now && p'.force == p.force)
            && (if EndsTurn(locales, s, a) then
                  && p.next < |locales|
                  && TurnRendered(s.bodies, locales[p.next], p.now, p.force, TurnOf(s, a))
                     == Rendered(s'.bodies, p'.Rendering?)
                  && (if p'.Rendering? then p'.next == p.next + 1 else s'.outcome == BuildFailed)
                else
                  && s'.bodies == s.bodies
                  && (if p'.Rendering? then p'.next == p.next else p.next == |locales| && s'.outcome == Completed))
  {
  }

  lemma StepRenders(locales: seq<Locale>, bodies: map<Locale, Body>, now: Instant, force: bool, s: State,
                    turns: seq<Turn>, a: Action)
    requires LockInvariant(s) && HasRendered(locales, bodies, now, force, s, turns) && Enabled(locales, s, a)
    ensures var s', all := Apply(locales, s, a), TurnsAfter(locales, s, turns, a);
            if s'.renderer.Rendering? then HasRendered(locales, bodies, now, force, s', all)
            else
              && |all| <= |locales| && (s'.outcome == Completed ==> |all| == |locales|)
              && ShowsPass(s', PassRendered(bodies, locales[..|all|], now, force, all))
  {
    StepTurns(locales, s, a);
    if EndsTurn(locales, s, a) {
      assert locales[..|turns| + 1] == locales[..|turns|] + [locales[|turns|]];
      PassWithOneMore(bodies, locales[..|turns|], now, force, turns, locales[|turns|], TurnOf(s, a));
    }
  }

  // ---- Whole passes

  /** By step n the pass has rendered its first locales as in `turns`, which began at the marks. */
  ghost predicate IsUnderWay(locales: seq<Locale>, run: seq<State>, i: nat, n: nat, turns: seq<Turn>, marks: seq<nat>)
    requires IsPass(run, i, n)
  {
    && HasRendered(locales, run[i].bodies, run[i].renderer.now, run[i].renderer.force, run[n], turns)
    && TurnsAreMet(locales, run, i, n, turns, marks)
    && WorkIsMet(locales, run, n, turns, marks)
  }

  /** The pass from step i, which ends with the step from n, has done what the object's loop does with these turns. */
  ghost predicate IsRendered(locales: seq<Locale>, run: seq<State>, i: nat, n: nat, turns: seq<Turn>)
    requires IsPass(run, i, n) && n + 1 < |run|
  {
    && |turns| <= |locales| && (run[n + 1].outcome == Completed ==> |turns| == |locales|)
    && ShowsPass(run[n + 1],
         PassRendered(run[i].bodies, locales[..|turns|], run[i].renderer.now, run[i].renderer.force, turns))
  }

  lemma TurnsAfterStep(locales: seq<Locale>, run: seq<State>, i: nat, n: nat, turns: seq<Turn>, marks: seq<nat>,
                       a: Action)
    requires IsRun(locales, run) && i <= n && n + 1 < |run| && Step(locales, run[n], a, run[n + 1])
    requires TurnsAreMet(locales, run, i, n, turns, marks) && WorkIsMet(locales, run, n, turns, marks)
    ensures var turns', marks' := TurnsAfter(locales, run[n], turns, a), MarksAfter(marks, n, a);
            && TurnsAreMet(locales, run, i, n + 1, turns', marks')
            && (run[n + 1].renderer.Rendering? ==> WorkIsMet(locales, run, n + 1, turns', marks'))
  {
    if a.ReadSignature? {
      NewTurnIsMet(locales, run, i, n, turns, marks, a);
    } else {
      ActionGrows(locales, run[n], a);
      ReadingsInvariantOfRun(locales, run, n);
      WorkAfterStep(locales, run[n], a);
      var ends := EndsTurn(locales, run[n], a);
      var turn := if ends then TurnOf(run[n], a) else Turn(Signature(0, 0), [], true, 0);
      TurnGoesOn(locales, run, i, n, turns, marks, ends, a.ReadTables?, turn);
    }
  }

  /** One step more, by whatever process. */
  lemma PassGoesOn(locales: seq<Locale>, run: seq<State>, i: nat, n: nat, turns: seq<Turn>, marks: seq<nat>)
    returns (turns': seq<Turn>, marks': seq<nat>)
    requires IsRun(locales, run) && IsPass(run, i, n + 1) && i <= n
    requires IsUnderWay(locales, run, i, n, turns, marks)
    ensures IsUnderWay(locales, run, i, n + 1, turns', marks')
  {
    var p := run[i].renderer;
    LockInvariantOfRun(locales, run, n);
    StepOfRun(locales, run, n + 1);
    var a :| Step(locales, run[n], a, run[n + 1]);
    TurnsAfterStep(locales, run, i, n, turns, marks, a);
    StepRenders(locales, run[i].bodies, p.now, p.force, run[n], turns, a);
    turns', marks' := TurnsAfter(locales, run[n], turns, a), MarksAfter(marks, n, a);
  }

  /** The step that ends the pass. */
  lemma PassEnds(locales: seq<Locale>, run: seq<State>, i: nat, n: nat, turns: seq<Turn>, marks: seq<nat>)
    returns (turns': seq<Turn>, marks': seq<nat>)
    requires IsRun(locales, run) && IsPass(run, i, n) && n + 1 < |run| && run[n + 1].renderer.Waiting?
    requires IsUnderWay(locales, run, i, n, turns, marks)
    ensures IsRendered(locales, run, i, n, turns') && TurnsAreMet(locales, run, i, n + 1, turns', marks')
  {
    var p := run[i].renderer;
    LockInvariantOfRun(locales, run, n);
    StepOfRun(locales, run, n + 1);
    var a :| Step(locales, run[n], a, run[n + 1]);
    TurnsAfterStep(locales, run, i, n, turns, marks, a);
    StepRenders(locales, run[i].bodies, p.now, p.force, run[n], turns, a);
    turns', marks' := TurnsAfter(locales, run[n], turns, a), MarksAfter(marks, n, a);
  }

  lemma {:induction false} PassIsUnderWay(locales: seq<Locale>, run: seq<State>, i: nat, n: nat)
    returns (turns: seq<Turn>, marks: seq<nat>)
    requires IsRun(locales, run) && IsPass(run, i, n)
    ensures IsUnderWay(locales, run, i, n, turns, marks)
  {
    turns, marks := [], [];
    if n > i {
      turns, marks := PassIsUnderWay(locales, run, i, n - 1);
      turns, marks := PassGoesOn(locales, run, i, n - 1, turns, marks);
    }
  }

  /**
    Whatever recorders, requests and handlers do meanwhile, a pass that ends has done to the bodies what the
    object's loop does. Each turn has the signature that the renderer read at its mark, a step of this pass, and
    readings and a time from between there and the pass's end; later turns have later marks and no older versions.
  */
  lemma EveryPassIsRendered(locales: seq<Locale>, run: seq<State>, i: nat, n: nat)
    returns (turns: seq<Turn>, marks: seq<nat>)
    requires IsRun(locales, run) && IsPass(run, i, n) && n + 1 < |run| && run[n + 1].renderer.Waiting?
    ensures IsRendered(locales, run, i, n, turns)
    ensures TurnsAreMet(locales, run, i, n + 1, turns, marks)
    ensures forall j, k :: 0 <= j <= k < |turns| ==>
              run[i].version <= turns[j].signature.version <= turns[k].signature.version <= run[n + 1].version
    ensures forall k :: 0 <= k < |turns| ==> GoodReadings(run[n + 1], turns[k].signature, turns[k].readings)
  {
    turns, marks := PassIsUnderWay(locales, run, i, n);
    turns, marks := PassEnds(locales, run, i, n, turns, marks);
    forall j, k | 0 <= j <= k < |turns|
      ensures run[i].version <= turns[j].signature.version <= turns[k].signature.version <= run[n + 1].version
    {
      assert TurnIsMet(locales, run, j, marks[j], n + 1, turns[j]);
      assert TurnIsMet(locales, run, k, marks[k], n + 1, turns[k]);
      RunGrows(locales, run, i, marks[j]);
      RunGrows(locales, run, marks[j], marks[k]);
      RunGrows(locales, run, marks[k], n + 1);
    }
    forall k | 0 <= k < |turns|
      ensures GoodReadings(run[n + 1], turns[k].signature, turns[k].readings)
    {
      assert TurnIsMet(locales, run, k, marks[k], n + 1, turns[k]);
      MetReadingsAreGood(locales, run, k, marks[k], n + 1, turns[k].signature, turns[k].readings);
    }
  }

  /** No reading made since is older than the signature. */
  lemma MetReadingsAreGood(locales: seq<Locale>, run: seq<State>, k: nat, m: nat, n: nat, signature: Signature,
                           readings: seq<Reading>)
    requires IsRun(locales, run) && IsMet(locales, run, k, m, n, signature, readings)
    ensures GoodReadings(run[n], signature, readings)
  {
    RunGrows(locales, run, m, n);
    ReadingsInvariantOfRun(locales, run, m);
    forall x | 0 <= x < |readings|
      ensures GoodReading(run[n], signature, readings[x])
    {
      assert IsReadBetween(run, m, n, readings[x]);
    }
  }

  /** All readings are of tables that hold at least the first `version` commits. */
  ghost predicate HoldsCommits(s: State, version: nat, readings: seq<Reading>) {
    forall x :: 0 <= x < |readings| ==>
      version <= readings[x].commits < |s.committed| && readings[x].tables == s.committed[readings[x].commits]
  }

  /**
    A pass removes no body, whatever happens meanwhile; and if it completes, every locale has a body, skipped or
    rebuilt, whose version is none older than when the pass began and which was built from tables that hold at
    least the commits announced by then.
  */
  lemma CompletedPassRefreshes(locales: seq<Locale>, run: seq<State>, i: nat, n: nat, l: Locale)
    requires IsRun(locales, run) && IsPass(run, i, n) && n + 1 < |run| && run[n + 1].renderer.Waiting?
    ensures l in run[i].bodies ==> l in run[n + 1].bodies
    ensures l in locales && run[n + 1].outcome == Completed ==>
              && l in run[n + 1].bodies
              && run[n + 1].bodies[l].signature.version >= run[i].version
              && HoldsCommits(run[n + 1], run[i].version, run[n + 1].bodies[l].readings)
  {
    var turns, marks := EveryPassIsRendered(locales, run, i, n);
    var p := run[i].renderer;
    PassKeepsAndRefreshes(run[i].bodies, locales[..|turns|], p.now, p.force, run[i].version, turns);
    if l in locales && run[n + 1].outcome == Completed {
      assert locales[..|turns|] == locales;
      ReadingsInvariantOfRun(locales, run, n + 1);
      var body := run[n + 1].bodies[l];
      assert forall x :: 0 <= x < |body.readings| ==> GoodReading(run[n + 1], body.signature, body.readings[x]);
    }
  }
}
