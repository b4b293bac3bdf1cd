/** Outage reports, the stretch of time each of them speaks for, and interval overlap. */
module Outages {
  import opened Common

  /** A report; the duration is in seconds. A zero `finishedAt` means the report gives none. */
  datatype OutageReport = OutageReport(
    id: int, beginsAt: Instant, finishedAt: Instant, duration: int, state: string, planned: bool)

  /** An entity. The source joins kind and id with a tab; the kinds below contain none. */
  datatype HistoryKey = HistoryKey(kind: string, id: string)

  const ENTITY_NODE := "node"
  const ENTITY_VPSADMIN := "vpsadmin"
  const ENTITY_DNS_RESOLVER := "dns_resolver"
  const ENTITY_WEB_SERVICE := "web_service"
  const ENTITY_NAME_SERVER := "nameserver"

  function NodeKey(name: string): HistoryKey {
    HistoryKey(ENTITY_NODE, name)
  }

  /** The entities a report affects, as outageHistoryKeys resolves them. */
  type KeysOf = OutageReport -> set<HistoryKey>

  const STATE_ANNOUNCED := "announced"
  const REPORTED_INCIDENT_GRACE := 1800

  function OutageEndsAt(report: OutageReport): (end: Instant)
    ensures report.finishedAt == 0 ==> end >= report.beginsAt
  {
    if report.finishedAt != 0 then report.finishedAt
    else if report.beginsAt == 0 then 0
    else if report.beginsAt + report.duration < report.beginsAt then report.beginsAt
    else report.beginsAt + report.duration
  }

  /**
    The last instant a report speaks for: where it says it finished, if that comes after its beginning; else, if it
    does not say, where its duration ends, if it has one; else its beginning.
  */
  ghost function LastInstant(report: OutageReport): Instant {
    if report.finishedAt > report.beginsAt then report.finishedAt
    else if report.finishedAt == 0 && report.beginsAt != 0 && report.duration > 0 then report.beginsAt + report.duration
    else report.beginsAt
  }

  /** The closed interval that a report covers. */
  function OutageReportInterval(report: OutageReport): (r: (Instant, Instant))
    ensures r == (report.beginsAt, LastInstant(report))
  {
    var end := OutageEndsAt(report);
    if end == 0 || end < report.beginsAt then (report.beginsAt, report.beginsAt) else (report.beginsAt, end)
  }

  predicate IntervalsOverlap(aStart: int, aEnd: int, bStart: int, bEnd: int) {
    !(aEnd < bStart) && !(bEnd < aStart)
  }

  ghost predicate Within(t: int, start: int, end: int) {
    start <= t <= end
  }

  /** Two closed intervals overlap by that test exactly if some instant lies in both. */
  lemma OverlapIsACommonInstant(aStart: int, aEnd: int, bStart: int, bEnd: int)
    requires aStart <= aEnd && bStart <= bEnd
    ensures IntervalsOverlap(aStart, aEnd, bStart, bEnd)
            <==> exists t :: Within(t, aStart, aEnd) && Within(t, bStart, bEnd)
  {
    if IntervalsOverlap(aStart, aEnd, bStart, bEnd) {
      var t := Max(aStart, bStart);
      assert Within(t, aStart, aEnd) && Within(t, bStart, bEnd);
    }
  }
}
