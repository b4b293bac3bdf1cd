/**
  The probe half of the history database: the tables `probe_states`, `probe_events` and `probe_incidents`, each
  with what the SQL statements on it mean, and the transaction that records one probe sample in them.
*/
module ProbeStore {
  import opened Common

  /** One call of RecordProbeStatusChanged. */
  datatype Sample = Sample(target: ProbeTarget, status: string, message: string, at: Instant) {
    predicate Recordable() {
      target.kind != "" && target.id != "" && target.probeMethod != ""
    }

    function Normalized(): Sample {
      if status == "" then this.(status := STATUS_OPERATIONAL) else this
    }

    predicate Concerns(k: ProbeKey) {
      Recordable() && target.Key() == k
    }
  }

  datatype ProbeState = ProbeState(
    target: ProbeTarget, status: string, message: string,
    since: Instant, lastSeen: Instant, promoted: bool)

  datatype ProbeEvent = ProbeEvent(target: ProbeTarget, status: string, message: string, changedAt: Instant)

  /** `endsAt` is None where the column is NULL, that is, while the incident is open. */
  datatype ProbeIncident = ProbeIncident(
    target: ProbeTarget, status: string, message: string,
    startsAt: Instant, endsAt: Option<Instant>)

  /** Rows of `events` and `incidents` are in the order of their AUTOINCREMENT ids. */
  datatype Tables = Tables(
    states: map<ProbeKey, ProbeState>, events: seq<ProbeEvent>, incidents: seq<ProbeIncident>)

  const EMPTY_TABLES := Tables(map[], [], [])

  // ---- What the SQL statements mean

  /** The WHERE clause that finds the open row of a target's current incident. */
  predicate IsOpenRowOf(row: ProbeIncident, k: ProbeKey, startsAt: Instant) {
    row.target.Key() == k && row.startsAt == startsAt && row.endsAt.None?
  }

  predicate HasOpenRow(rows: seq<ProbeIncident>, k: ProbeKey, startsAt: Instant) {
    exists i :: 0 <= i < |rows| && IsOpenRowOf(rows[i], k, startsAt)
  }

  /** UPDATE probe_incidents SET ends_at, on every open row of the incident. */
  function WithRowsClosed(rows: seq<ProbeIncident>, k: ProbeKey, startsAt: Instant,
                          end: Instant): (r: seq<ProbeIncident>)
    ensures |r| == |rows|
  {
    seq(|rows|, i requires 0 <= i < |rows| =>
      if IsOpenRowOf(rows[i], k, startsAt) then rows[i].(endsAt := Some(end)) else rows[i])
  }

  /** A zero instant is stored as NULL. */
  function NullableTime(t: Instant): Option<Instant> {
    if t == 0 then None else Some(t)
  }

  function IncidentOf(state: ProbeState, endsAt: Option<Instant>): ProbeIncident {
    ProbeIncident(state.target, state.status, state.message, state.since, endsAt)
  }

  predicate Lasted(since: Instant, now: Instant) {
    since + PROBE_INCIDENT_THRESHOLD <= now
  }

  // ---- The transaction as a function on the tables

  function ClosedIncidents(rows: seq<ProbeIncident>, state: ProbeState, now: Instant): seq<ProbeIncident> {
    if !Lasted(state.since, now) then rows
    else if state.promoted && HasOpenRow(rows, state.target.Key(), state.since) then
      WithRowsClosed(rows, state.target.Key(), state.since, now)
    else
      rows + [IncidentOf(state, NullableTime(now))]
  }

  function OpenedIncidents(rows: seq<ProbeIncident>, state: ProbeState): seq<ProbeIncident> {
    if HasOpenRow(rows, state.target.Key(), state.since) then rows
    else rows + [IncidentOf(state, None)]
  }

  function FirstState(x: Sample): ProbeState {
    ProbeState(x.target, x.status, x.message, x.at, x.at, false)
  }

  function EventOf(x: Sample): ProbeEvent {
    ProbeEvent(x.target, x.status, x.message, x.at)
  }

  predicate Promotes(state: ProbeState, x: Sample) {
    && state.status == x.status
    && !IsOperational(x.status)
    && !state.promoted
    && Lasted(state.since, x.at)
  }

  function PromotionState(state: ProbeState, x: Sample): ProbeState {
    state.(target := x.target, message := x.message, lastSeen := x.at)
  }

  /** The tables after one call of RecordProbeStatusChanged. */
  function Recorded(t: Tables, s: Sample): Tables {
    if !s.Recordable() then t
    else
      var x := s.Normalized();
      var k := x.target.Key();
      if k !in t.states then
        Tables(t.states[k := FirstState(x)], t.events + [EventOf(x)], t.incidents)
      else
        var state := t.states[k];
        if state.status != x.status then
          Tables(
            t.states[k := FirstState(x)],
            t.events + [EventOf(x)],
            if IsOperational(state.status) then t.incidents else ClosedIncidents(t.incidents, state, x.at))
        else if Promotes(state, x) then
          Tables(
            t.states[k := PromotionState(state, x).(promoted := true)],
            t.events,
            OpenedIncidents(t.incidents, PromotionState(state, x)))
        else t
  }

  /** The tables after a run of calls on an empty database. */
  function Run(samples: seq<Sample>): Tables {
    if samples == [] then EMPTY_TABLES
    else Recorded(Run(samples[..|samples| - 1]), samples[|samples| - 1])
  }

  lemma RunExtended(samples: seq<Sample>, s: Sample)
    ensures Run(samples + [s]) == Recorded(Run(samples), s)
  {
  }

  ghost predicate KeyedByTarget(t: Tables) {
    forall k :: k in t.states ==> t.states[k].target.Key() == k
  }

  lemma {:induction false} RunIsKeyedByTarget(samples: seq<Sample>)
    ensures KeyedByTarget(Run(samples))
  {
    if samples != [] {
      RunIsKeyedByTarget(samples[..|samples| - 1]);
    }
  }

  // ---- A closing sample that comes too early

  /** The guard of the early return in closeProbeStateIncidentTx, met by a promoted state. */
  predicate StrandsOpenRow(t: Tables, s: Sample, k: ProbeKey) {
    && s.Concerns(k)
    && k in t.states
    && t.states[k].promoted
    && t.states[k].status != s.Normalized().status
    && !Lasted(t.states[k].since, s.at)
  }

  /** No sample of the run takes the stranding transition. */
  ghost predicate NeverStrands(samples: seq<Sample>, k: ProbeKey) {
    samples != [] ==>
      var p, s := samples[..|samples| - 1], samples[|samples| - 1];
      NeverStrands(p, k) && !StrandsOpenRow(Run(p), s, k)
  }
}
