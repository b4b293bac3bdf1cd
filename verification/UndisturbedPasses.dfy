/** A pass that nobody disturbs is the end of some run of the machine, and its bodies show the current tables. */
module UndisturbedPasses {
  import opened IndexRenderer
  import opened SkipSafety
  import opened IndexPasses

  // ---- An undisturbed pass of the object, in the machine's own steps

  ghost predicate AtTurn(locales: seq<Locale>, s: State) {
    s.renderer.Rendering? && s.renderer.work.Starting? && s.renderer.next <= |locales| && s.committed != []
  }

  /** No recorder moved. */
  ghost predicate Undisturbed(s: State, s': State) {
    s'.committed == s.committed && s'.version == s.version && s'.recorders == s.recorders
  }

  /** The turn meets the current version and reads the current tables, once, now or later. */
  ghost predicate MeetsCurrent(s: State, turn: Turn)
    requires s.committed != []
  {
    && turn.signature.version == s.version
    && turn.readings == [Reading(|s.committed| - 1, s.Tables())]
    && turn.at >= s.clock
  }

  ghost predicate MeetCurrent(s: State, turns: seq<Turn>)
    requires s.committed != []
  {
    && (forall i :: 0 <= i < |turns| ==> MeetsCurrent(s, turns[i]))
    && (forall i, j :: 0 <= i < j < |turns| ==> turns[i].at <= turns[j].at)
  }

  /** A turn that is not skipped, up to the point where the build ends. */
  lemma BuildExtendsRun(locales: seq<Locale>, run: seq<State>, turn: Turn) returns (longer: seq<State>)
    requires IsRun(locales, run) && AtTurn(locales, run[|run| - 1]) && run[|run| - 1].renderer.next < |locales|
    requires MeetsCurrent(run[|run| - 1], turn)
    requires var s := run[|run| - 1];
             s.renderer.force || !CanSkip(s.bodies, locales[s.renderer.next], turn.signature, s.renderer.now)
    ensures IsRun(locales, longer) && run <= longer
    ensures var s := run[|run| - 1];
            longer[|longer| - 1]
              == s.(renderer := s.renderer.(work := Building(turn.signature, turn.readings)), clock := turn.at)
  {
    var s := run[|run| - 1];
    longer := RunExtends(locales, run, ReadSignature(turn.signature.other));
    longer := RunExtends(locales, longer, ReadTables);
    assert [] + turn.readings == turn.readings;
    longer := RunExtends(locales, longer, Tick(turn.at - s.clock));
  }

  /** One turn: the run goes on to a state that shows what the object does. */
  lemma TurnExtendsRun(locales: seq<Locale>, run: seq<State>, turn: Turn) returns (longer: seq<State>)
    requires IsRun(locales, run) && AtTurn(locales, run[|run| - 1]) && run[|run| - 1].renderer.next < |locales|
    requires MeetsCurrent(run[|run| - 1], turn)
    ensures IsRun(locales, longer) && run <= longer
    ensures var s, s' := run[|run| - 1], longer[|longer| - 1];
            var r := TurnRendered(s.bodies, locales[s.renderer.next], s.renderer.now, s.renderer.force, turn);
            && Undisturbed(s, s') && s.clock <= s'.clock <= turn.at && s'.bodies == r.bodies
            && (if r.ok then s'.renderer == s.renderer.(next := s.renderer.next + 1)
                else s'.renderer.Waiting? && s'.outcome == BuildFailed)
  {
    var s := run[|run| - 1];
    if !s.renderer.force && CanSkip(s.bodies, locales[s.renderer.next], turn.signature, s.renderer.now) {
      longer := RunExtends(locales, run, ReadSignature(turn.signature.other));
    } else {
      longer := BuildExtendsRun(locales, run, turn);
      longer := RunExtends(locales, longer, if turn.builds then StoreBody else BuildFails);
    }
  }

  /** Every undisturbed pass of the object that begins in a reachable state is the end of some run of the machine. */
  lemma {:induction false} PassExtendsRun(locales: seq<Locale>, run: seq<State>, turns: seq<Turn>)
    returns (longer: seq<State>)
    requires IsRun(locales, run) && AtTurn(locales, run[|run| - 1]) && MeetCurrent(run[|run| - 1], turns)
    requires run[|run| - 1].renderer.next + |turns| == |locales|
    ensures IsRun(locales, longer) && run <= longer
    ensures var s, s', p := run[|run| - 1], longer[|longer| - 1], run[|run| - 1].renderer;
            && Undisturbed(s, s') && s'.renderer.Waiting?
            && ShowsPass(s', PassRendered(s.bodies, locales[p.next..], p.now, p.force, turns))
    decreases |turns|
  {
    var s := run[|run| - 1];
    var rest := locales[s.renderer.next..];
    if turns == [] {
      longer := RunExtends(locales, run, EndPass);
    } else {
      longer := TurnExtendsRun(locales, run, turns[0]);
      assert rest[0] == locales[s.renderer.next] && rest[1..] == locales[s.renderer.next + 1..];
      if longer[|longer| - 1].renderer.Rendering? {
        longer := PassExtendsRun(locales, longer, turns[1..]);
      }
    }
  }

  /**
    In a reachable state with no recorder between its commit and its bump, an undisturbed pass without an error
    leaves bodies that were all built from the current tables alone, those it skipped included.
  */
  lemma RefreshedBodiesShowCurrentTables(locales: seq<Locale>, run: seq<State>, turns: seq<Turn>, l: Locale, i: nat)
    requires IsRun(locales, run) && AtTurn(locales, run[|run| - 1]) && NoneAt(run[|run| - 1], Committed)
    requires run[|run| - 1].renderer.next == 0 && |turns| == |locales| && MeetCurrent(run[|run| - 1], turns)
    ensures var s, p := run[|run| - 1], run[|run| - 1].renderer;
            var r := PassRendered(s.bodies, locales, p.now, p.force, turns);
            r.ok && l in locales ==>
              l in r.bodies && (i < |r.bodies[l].readings| ==> r.bodies[l].readings[i].tables == s.Tables())
  {
    var s, p := run[|run| - 1], run[|run| - 1].renderer;
    assert locales[0..] == locales;
    PassKeepsAndRefreshes(s.bodies, locales, p.now, p.force, s.version, turns);
    var longer := PassExtendsRun(locales, run, turns);
    if PassRendered(s.bodies, locales, p.now, p.force, turns).ok && l in locales {
      ReadingsInvariantOfRun(locales, longer, |longer| - 1);
      SkipIsSafe(locales, longer, |longer| - 1, l);
    }
  }
}
