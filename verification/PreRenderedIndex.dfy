/**
  The pre-rendered index as an object: its bodies and the time of the last attempt, updated in place. Its loop
  over the locales is proved against the pass as a function on the bodies.
*/
module PreRenderedIndex {
  import opened Common
  import opened IndexRenderer
  import opened IndexPasses

  const INDEX_RENDER_MIN_INTERVAL := 1

  /** The locale has a body of this signature that was rendered less than four minutes ago. */
  ghost predicate IsYoungAndSame(bodies: map<Locale, Body>, locale: Locale, signature: Signature, now: Instant) {
    && locale in bodies && bodies[locale].signature == signature
    && bodies[locale].renderedAt != 0 && now < bodies[locale].renderedAt + 240
  }

  class PreRenderedIndex {
    var bodies: map<Locale, Body>
    var lastAttempt: Instant

    constructor ()
      ensures bodies == map[] && lastAttempt == 0
    {
      bodies, lastAttempt := map[], 0;
    }

    /** Waiting it out puts attempts at least the minimal interval apart, and no longer than that. */
    method NextRenderDelay(now: Instant) returns (delay: nat)
      ensures lastAttempt != 0 ==> now + delay >= lastAttempt + INDEX_RENDER_MIN_INTERVAL
      ensures delay > 0 ==> lastAttempt != 0 && now + delay == lastAttempt + INDEX_RENDER_MIN_INTERVAL
    {
      var next := lastAttempt + INDEX_RENDER_MIN_INTERVAL;
      if lastAttempt == 0 || now >= next {
        return 0;
      }
      return next - now;
    }

    /**
      Afterwards the locale has a body of the given signature, young enough if clocks do not run back, or the build
      failed and nothing changed; a body is built from what the turn reads unless an equal and young one could stay.
    */
    method RenderIndexBodyLocked(now: Instant, force: bool, locale: Locale, turn: Turn) returns (ok: bool)
      modifies this
      ensures lastAttempt == now
      ensures Rendered(bodies, ok) == TurnRendered(old(bodies), locale, now, force, turn)
      ensures old(bodies).Keys <= bodies.Keys && forall l :: l in old(bodies) && l != locale ==>
                bodies[l] == old(bodies)[l]
      ensures ok ==> locale in bodies && bodies[locale].signature == turn.signature
      ensures ok && now <= turn.at ==> now < bodies[locale].renderedAt + INDEX_RENDER_KEEPALIVE
      ensures ok && (locale in old(bodies) ==> bodies[locale] != old(bodies)[locale]) ==>
                bodies[locale].readings == turn.readings
      ensures IsYoungAndSame(old(bodies), locale, turn.signature, now) && !force ==> ok && bodies == old(bodies)
      ensures force || !IsYoungAndSame(old(bodies), locale, turn.signature, now) ==>
                && ok == turn.builds
                && (ok ==> bodies[locale] == Body(turn.signature, turn.readings, turn.at))
      ensures !ok ==> bodies == old(bodies)
    {
      lastAttempt := now;
      var signature := turn.signature;
      if !force {
        if CanSkip(bodies, locale, signature, now) {
          return true;
        }
      }
      if !turn.builds {
        return false;
      }
      bodies := bodies[locale := Body(signature, turn.readings, turn.at)];
      return true;
    }

    /** The loop under the render lock. */
    method RefreshIndexBodies(locales: seq<Locale>, now: Instant, force: bool, turns: seq<Turn>, ghost version: nat)
      returns (ok: bool)
      requires |turns| == |locales|
      requires forall i :: 0 <= i < |turns| ==> turns[i].signature.version >= version
      modifies this
      ensures Rendered(bodies, ok) == PassRendered(old(bodies), locales, now, force, turns)
      ensures old(bodies).Keys <= bodies.Keys
      ensures ok ==> forall l :: l in locales ==> l in bodies && bodies[l].signature.version >= version
      ensures lastAttempt == if locales == [] then old(lastAttempt) else now
    {
      PassKeepsAndRefreshes(bodies, locales, now, force, version, turns);
      for i := 0 to |locales|
        invariant PassRendered(bodies, locales[i..], now, force, turns[i..])
               == PassRendered(old(bodies), locales, now, force, turns)
        invariant lastAttempt == if i == 0 then old(lastAttempt) else now
      {
        assert locales[i..][1..] == locales[i + 1..] && turns[i..][1..] == turns[i + 1..];
        ok := RenderIndexBodyLocked(now, force, locales[i], turns[i]);
        if !ok {
          return;
        }
      }
      ok := true;
    }

    /** A request is served from the stored body; only a missing one is rendered, whatever its signature. */
    method HandleIndex(locale: Locale, now: Instant, turn: Turn) returns (body: Option<Body>)
      modifies this
      ensures locale in old(bodies) ==>
                body == Some(old(bodies)[locale]) && bodies == old(bodies) && lastAttempt == old(lastAttempt)
      ensures locale !in old(bodies) ==>
                if body.None? then bodies == old(bodies)
                else body.value.signature == turn.signature && bodies == old(bodies)[locale := body.value]
    {
      if locale in bodies {
        return Some(bodies[locale]);
      }
      var ok := RenderIndexBodyLocked(now, true, locale, turn);
      return if ok then Some(bodies[locale]) else None;
    }
  }
}
