/** Vocabulary shared by every module: instants, probe targets and probe statuses. */
module Common {

  /** Whole seconds since Go's zero time, so that 0 is the instant for which `IsZero` holds. */
  type Instant = nat

  const PROBE_INCIDENT_THRESHOLD: nat := 300

  const STATUS_OPERATIONAL := "ok"
  const STATUS_DEGRADED := "degraded"

  datatype Option<+T> = None | Some(value: T)

  /** The columns by which the history tables identify a probed target. */
  datatype ProbeKey = ProbeKey(kind: string, id: string, probeMethod: string)

  datatype ProbeTarget = ProbeTarget(kind: string, id: string, entityLabel: string, probeMethod: string) {
    function Key(): ProbeKey {
      ProbeKey(kind, id, probeMethod)
    }
  }

  predicate IsOperational(status: string) {
    status == "" || status == STATUS_OPERATIONAL
  }

  /** A probe that gives this status saw some trouble. */
  ghost predicate IsBad(status: string) {
    status != "" && status != "ok"
  }

  function Min(a: int, b: int): (r: int)
    ensures r <= a && r <= b && (r == a || r == b)
  {
    if a < b then a else b
  }

  function Max(a: int, b: int): (r: int)
    ensures a <= r && b <= r && (r == a || r == b)
  {
    if a > b then a else b
  }
}
