/**
  Paging through the probe log, and the row of page links under it. Pages are counted from one, a requested page is
  clamped to one that exists, and the links leave out what is far from both ends and from the page shown.
*/
module Pagination {
  import opened Common

  const PROBE_LOG_PAGE_SIZE := 50

  /** The source's integers are 64 bits wide and wrap around. */
  const MAX_INT64 := 0x7fff_ffff_ffff_ffff
  const TWO_TO_64 := 0x1_0000_0000_0000_0000

  function Wrapped(x: int): (r: int)
    ensures -MAX_INT64 - 1 <= r <= MAX_INT64
    ensures -MAX_INT64 - 1 <= x <= MAX_INT64 ==> r == x
  {
    (x + MAX_INT64 + 1) % TWO_TO_64 - MAX_INT64 - 1
  }

  function NormalizeProbeLogPage(page: int): int {
    if page < 1 then 1 else page
  }

  function ProbeLogOffset(page: int): int {
    Wrapped((NormalizeProbeLogPage(page) - 1) * PROBE_LOG_PAGE_SIZE)
  }

  function ProbeLogTotalPages(total: int): int {
    if total <= 0 then 0 else (total + PROBE_LOG_PAGE_SIZE - 1) / PROBE_LOG_PAGE_SIZE
  }

  /** LIMIT and OFFSET on the ordered log; negative values count as zero. */
  function QueryRows<T>(rows: seq<T>, limit: int, offset: int): seq<T> {
    var limit, offset := Max(limit, 0), Max(offset, 0);
    if offset >= |rows| then [] else rows[offset..Min(offset + limit, |rows|)]
  }

  /** Rows of page p, counting pages from 1. */
  function PageRows<T>(rows: seq<T>, p: int): seq<T>
    requires 1 <= p <= ProbeLogTotalPages(|rows|)
  {
    rows[(p - 1) * PROBE_LOG_PAGE_SIZE..Min(p * PROBE_LOG_PAGE_SIZE, |rows|)]
  }

  datatype ProbeLogPage<T> = ProbeLogPage(events: seq<T>, total: int)

  /** `query` runs LIMIT and OFFSET on the rows of a log that does not change meanwhile. */
  ghost predicate Queries<T(!new)>(query: (int, int) -> ProbeLogPage<T>, rows: seq<T>) {
    forall limit, offset :: limit > 0 ==> query(limit, offset) == ProbeLogPage(QueryRows(rows, limit, offset), |rows|)
  }

  lemma QueryReadsOnePage<T>(rows: seq<T>, page: int)
    requires 1 <= page <= ProbeLogTotalPages(|rows|) && |rows| + PROBE_LOG_PAGE_SIZE - 1 <= MAX_INT64
    ensures QueryRows(rows, PROBE_LOG_PAGE_SIZE, ProbeLogOffset(page)) == PageRows(rows, page)
    ensures 0 < |PageRows(rows, page)| <= PROBE_LOG_PAGE_SIZE
  {
  }

  method PaginatedProbeLog<T(!new)>(requestedPage: int, query: (int, int) -> ProbeLogPage<T>, ghost rows: seq<T>)
    returns (ret: ProbeLogPage<T>, page: int)
    requires requestedPage <= MAX_INT64 && |rows| + PROBE_LOG_PAGE_SIZE - 1 <= MAX_INT64
    requires Queries(query, rows)
    ensures ret.total == |rows|
    ensures rows == [] ==> ret.events == [] && page == NormalizeProbeLogPage(requestedPage)
    ensures rows != [] ==>
              && page == Min(NormalizeProbeLogPage(requestedPage), ProbeLogTotalPages(|rows|))
              && 1 <= page <= ProbeLogTotalPages(|rows|)
              && ret.events == PageRows(rows, page)
              && 0 < |ret.events| <= PROBE_LOG_PAGE_SIZE
              && (requestedPage < 1 ==> page == 1)
              && (1 <= requestedPage <= ProbeLogTotalPages(|rows|) ==> page == requestedPage)
              && (requestedPage > ProbeLogTotalPages(|rows|) ==> page == ProbeLogTotalPages(|rows|))
  {
    page := NormalizeProbeLogPage(requestedPage);
    ret := query(PROBE_LOG_PAGE_SIZE, ProbeLogOffset(page));
    var totalPages := ProbeLogTotalPages(ret.total);
    if totalPages > 0 && page > totalPages {
      page := totalPages;
      ret := query(PROBE_LOG_PAGE_SIZE, ProbeLogOffset(page));
    }
    if totalPages > 0 {
      QueryReadsOnePage(rows, page);
    }
  }

  /** Pages 1 to n, one after the other. */
  function FirstPages<T>(rows: seq<T>, n: int): seq<T>
    requires 0 <= n <= ProbeLogTotalPages(|rows|)
    decreases n
  {
    if n == 0 then [] else FirstPages(rows, n - 1) + PageRows(rows, n)
  }

  lemma {:induction false} FirstPagesArePrefix<T>(rows: seq<T>, n: int)
    requires 0 <= n <= ProbeLogTotalPages(|rows|)
    ensures FirstPages(rows, n) == rows[..Min(n * PROBE_LOG_PAGE_SIZE, |rows|)]
    decreases n
  {
    if n > 0 {
      FirstPagesArePrefix(rows, n - 1);
      assert (n - 1) * PROBE_LOG_PAGE_SIZE < |rows|;
    }
  }

  /** The pages together are the whole log, in order, each row once; all are full, but the last may be shorter. */
  lemma PagesAreTheWholeLog<T>(rows: seq<T>)
    ensures FirstPages(rows, ProbeLogTotalPages(|rows|)) == rows
    ensures forall p :: 1 <= p < ProbeLogTotalPages(|rows|) ==> |PageRows(rows, p)| == PROBE_LOG_PAGE_SIZE
    ensures rows != [] ==> 0 < |PageRows(rows, ProbeLogTotalPages(|rows|))| <= PROBE_LOG_PAGE_SIZE
  {
    FirstPagesArePrefix(rows, ProbeLogTotalPages(|rows|));
    assert ProbeLogTotalPages(|rows|) * PROBE_LOG_PAGE_SIZE >= |rows|;
  }

  // ---- Page links

  datatype PageLink = Number(n: int, current: bool) | Ellipsis

  ghost predicate Links(links: seq<PageLink>, n: int) {
    exists i :: 0 <= i < |links| && links[i].Number? && links[i].n == n
  }

  /** Numbers side by side are adjacent, and dots stand exactly where numbers are left out. */
  ghost predicate WellSpaced(links: seq<PageLink>) {
    && (forall i :: 0 <= i < |links| && links[i].Ellipsis? ==>
          0 < i < |links| - 1 && links[i - 1].Number? && links[i + 1].Number? && links[i + 1].n > links[i - 1].n + 1)
    && (forall i :: 0 <= i < |links| - 1 && links[i].Number? && links[i + 1].Number? ==>
      links[i + 1].n == links[i].n + 1)
  }

  ghost predicate StrictlyIncreasing(links: seq<PageLink>) {
    forall i, j :: 0 <= i < j < |links| && links[i].Number? && links[j].Number? ==> links[i].n < links[j].n
  }

  ghost predicate MarksCurrent(links: seq<PageLink>, page: int) {
    forall i :: 0 <= i < |links| && links[i].Number? ==> (links[i].current <==> links[i].n == page)
  }

  /** The links so far end with page `last`. */
  ghost predicate EndsWith(links: seq<PageLink>, last: int, page: int) {
    && WellSpaced(links) && StrictlyIncreasing(links) && MarksCurrent(links, page)
    && links != [] && links[|links| - 1].Number? && links[|links| - 1].n == last
    && forall i :: 0 <= i < |links| && links[i].Number? ==> 1 <= links[i].n <= last
  }

  function AddedPage(links: seq<PageLink>, lastAdded: int, n: int, page: int): seq<PageLink> {
    (if lastAdded != 0 && n > lastAdded + 1 then links + [Ellipsis] else links) + [Number(n, n == page)]
  }

  lemma AddedPageIsWellSpaced(links: seq<PageLink>, last: int, n: int, page: int)
    requires EndsWith(links, last, page) && 0 < last < n
    ensures WellSpaced(AddedPage(links, last, n, page))
  {
  }

  lemma AddedPageLinks(links: seq<PageLink>, last: int, n: int, page: int)
    requires links != [] && 0 < last < n
    ensures forall m :: Links(AddedPage(links, last, n, page), m) <==> Links(links, m) || m == n
  {
    var added := AddedPage(links, last, n, page);
    assert added[|added| - 1] == Number(n, n == page);
    forall m
      ensures Links(added, m) <==> Links(links, m) || m == n
    {
      if Links(links, m) {
        var i :| 0 <= i < |links| && links[i].Number? && links[i].n == m;
        assert added[i].Number? && added[i].n == m;
      }
      if m == n {
        assert added[|added| - 1].n == m;
      }
    }
  }

  lemma AddedPageEndsWith(links: seq<PageLink>, last: int, n: int, page: int)
    requires EndsWith(links, last, page) && 0 < last < n
    ensures EndsWith(AddedPage(links, last, n, page), n, page)
    ensures forall m :: Links(AddedPage(links, last, n, page), m) <==> Links(links, m) || m == n
    ensures |AddedPage(links, last, n, page)| == |links| + (if n > last + 1 then 2 else 1)
    ensures AddedPage(links, last, n, page)[0] == links[0]
  {
    var added := AddedPage(links, last, n, page);
    assert forall i :: 0 <= i < |links| ==> added[i] == links[i];
    AddedPageIsWellSpaced(links, last, n, page);
    AddedPageLinks(links, last, n, page);
  }

  /** A page that is out of range or already passed is not added. */
  method AddPage(links: seq<PageLink>, lastAdded: int, n: int, page: int, totalPages: int)
    returns (added: seq<PageLink>, last: int)
    requires if lastAdded == 0 then links == [] else lastAdded > 0 && EndsWith(links, lastAdded, page)
    ensures !(1 <= n <= totalPages && n > lastAdded) ==> added == links && last == lastAdded
    ensures 1 <= n <= totalPages && n > lastAdded ==>
              && last == n && EndsWith(added, n, page)
              && (forall m :: Links(added, m) <==> Links(links, m) || m == n)
              && |added| == |links| + (if lastAdded != 0 && n > lastAdded + 1 then 2 else 1)
              && (if links == [] then added[0] == Number(n, n == page) else added[0] == links[0])
  {
    if n < 1 || n > totalPages || n <= lastAdded {
      return links, lastAdded;
    }
    added, last := AddedPage(links, lastAdded, n, page), n;
    if lastAdded == 0 {
      assert added[0].n == n;
    } else {
      AddedPageEndsWith(links, lastAdded, n, page);
    }
  }

  method ProbeLogPageLinks(page: int, totalPages: int) returns (links: seq<PageLink>)
    ensures totalPages <= 1 ==> links == []
    ensures totalPages > 1 ==>
              && EndsWith(links, totalPages, page)
              && links[0].Number? && links[0].n == 1
              && (forall n :: Links(links, n) <==>
                1 <= n <= totalPages && (n == 1 || n == totalPages || page - 2 <= n <= page + 2))
              && |links| <= 9
  {
    if totalPages <= 1 {
      return [];
    }
    links := [];
    var lastAdded := 0;
    links, lastAdded := AddPage(links, lastAdded, 1, page, totalPages);
    for n := page - 2 to page + 3
      invariant EndsWith(links, lastAdded, page) && links[0].Number? && links[0].n == 1
      invariant 0 < lastAdded < totalPages && (lastAdded == 1 || lastAdded < n)
      invariant forall m :: Links(links, m) <==> m == 1 || (1 < m < totalPages && page - 2 <= m < n)
      invariant lastAdded == 1 ==> |links| == 1
      invariant lastAdded > 1 ==> |links| <= 2 + (n - (page - 2)) && (lastAdded == n - 1 || lastAdded == totalPages - 1)
    {
      if n > 1 && n < totalPages {
        links, lastAdded := AddPage(links, lastAdded, n, page, totalPages);
      }
    }
    links, lastAdded := AddPage(links, lastAdded, totalPages, page, totalPages);
  }

  ghost predicate IsCurrent(links: seq<PageLink>, i: int) {
    0 <= i < |links| && links[i].Number? && links[i].current
  }

  /** Exactly one link is current, if the page exists. */
  lemma ExactlyOneCurrent(links: seq<PageLink>, page: int, totalPages: int)
    requires EndsWith(links, totalPages, page) && Links(links, page)
    ensures exists i :: IsCurrent(links, i)
    ensures forall i, j :: IsCurrent(links, i) && IsCurrent(links, j) ==> i == j
  {
    var i :| 0 <= i < |links| && links[i].Number? && links[i].n == page;
    assert IsCurrent(links, i);
  }
}
