/** What a pass over the locales does to the stored bodies. */
module IndexPasses {
  import opened Common
  import opened IndexRenderer

  /** What one locale's turn meets: the signature, what the build reads, whether it succeeds, and when it is done. */
  datatype Turn = Turn(signature: Signature, readings: seq<Reading>, builds: bool, at: Instant)

  // ---- What a pass does to the bodies

  datatype Rendered = Rendered(bodies: map<Locale, Body>, ok: bool)

  /** One locale's turn: its body is kept, or replaced, or kept for want of a better one. */
  function TurnRendered(bodies: map<Locale, Body>, locale: Locale, now: Instant, force: bool, turn: Turn): Rendered {
    if !force && CanSkip(bodies, locale, turn.signature, now) then Rendered(bodies, true)
    else if !turn.builds then Rendered(bodies, false)
    else Rendered(bodies[locale := Body(turn.signature, turn.readings, turn.at)], true)
  }

  function PassRendered(bodies: map<Locale, Body>, locales: seq<Locale>, now: Instant, force: bool, turns: seq<Turn>)
    : Rendered
    requires |turns| == |locales|
    decreases |turns|
  {
    if locales == [] then Rendered(bodies, true)
    else
      var r := TurnRendered(bodies, locales[0], now, force, turns[0]);
      if !r.ok then r else PassRendered(r.bodies, locales[1..], now, force, turns[1..])
  }

  /**
    Bodies are replaced, never removed, and after a pass without an error every locale has the version it was
    given.
  */
  lemma {:induction false} PassKeepsAndRefreshes(bodies: map<Locale, Body>, locales: seq<Locale>, now: Instant,
                                                 force: bool, version: nat, turns: seq<Turn>)
    requires |turns| == |locales|
    requires forall i :: 0 <= i < |turns| ==> turns[i].signature.version >= version
    ensures var r := PassRendered(bodies, locales, now, force, turns);
            && bodies.Keys <= r.bodies.Keys
            && (forall l :: l in bodies && bodies[l].signature.version >= version ==>
              r.bodies[l].signature.version >= version)
            && (forall l :: l in bodies && l !in locales ==> r.bodies[l] == bodies[l])
            && (r.ok ==> forall l :: l in locales ==> l in r.bodies && r.bodies[l].signature.version >= version)
    decreases |turns|
  {
    if locales != [] {
      var r := TurnRendered(bodies, locales[0], now, force, turns[0]);
      assert locales == [locales[0]] + locales[1..];
      PassKeepsAndRefreshes(r.bodies, locales[1..], now, force, version, turns[1..]);
    }
  }

  lemma {:induction false} PassWithOneMore(bodies: map<Locale, Body>, locales: seq<Locale>, now: Instant, force: bool,
                                           turns: seq<Turn>, locale: Locale, turn: Turn)
    requires |turns| == |locales|
    ensures var r := PassRendered(bodies, locales, now, force, turns);
            PassRendered(bodies, locales + [locale], now, force, turns + [turn])
            == if r.ok then TurnRendered(r.bodies, locale, now, force, turn) else r
    decreases |turns|
  {
    if locales == [] {
      assert ([] + [locale])[1..] == [] && ([] + [turn])[1..] == [];
    } else {
      var r := TurnRendered(bodies, locales[0], now, force, turns[0]);
      assert (locales + [locale])[1..] == locales[1..] + [locale] && (turns + [turn])[1..] == turns[1..] + [turn];
      PassWithOneMore(r.bodies, locales[1..], now, force, turns[1..], locale, turn);
    }
  }

  /** The bodies and the outcome that a state shows after a pass. */
  ghost predicate ShowsPass(s: State, r: Rendered) {
    s.bodies == r.bodies && s.outcome == if r.ok then Completed else BuildFailed
  }
}
