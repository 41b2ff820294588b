/**
 * Right-aligned record pages of the main panel (media/main.js). Page numbers run
 * from 1 to `MaxPage(n) = ceil(n / 50)`; the last page ends with the last record and
 * every page holds 50 records except page 1, which takes the remainder. Also the
 * termination analysis of `findTargetRecords`' search loop.
 */
module Windowing {
  import opened Frames
  import Pagination

  /** `pageSize` (media/main.js:156). */
  const PageSize: nat := 50

  /** `maxPage = Math.ceil(curRecords.length / pageSize)` (media/main.js:208). */
  function MaxPage(n: nat): (pages: nat)
    ensures pages == 0 <==> n == 0
  {
    Pagination.CeilDiv(n, PageSize)
  }

  /** `end` of `rerender` (media/main.js:334): pages are counted back from the list's end. */
  function PageEnd(n: nat, page: int): int
  {
    n - (MaxPage(n) - page) * PageSize
  }

  /** `start` of `rerender` (media/main.js:335-338), clamped at 0. */
  function PageStart(n: nat, page: int): int
  {
    if PageEnd(n, page) - PageSize < 0 then 0 else PageEnd(n, page) - PageSize
  }

  /** A valid page is a non-empty slice of at most 50 records; the last one ends the list, the first one starts it. */
  lemma PageBounds(n: nat, page: int)
    requires 1 <= page <= MaxPage(n)
    ensures 0 <= PageStart(n, page) < PageEnd(n, page) <= n
    ensures PageEnd(n, page) - PageStart(n, page) <= PageSize
    ensures page == MaxPage(n) ==> PageEnd(n, page) == n
    ensures page == 1 ==> PageStart(n, page) == 0
    ensures page > 1 ==> PageEnd(n, page) - PageStart(n, page) == PageSize
  {
    Pagination.CeilDivBounds(n, PageSize);
  }

  /** Page k ends exactly where page k + 1 starts: the pages tile the list. */
  lemma PagesAdjacent(n: nat, page: int)
    requires 1 <= page < MaxPage(n)
    ensures PageEnd(n, page) == PageStart(n, page + 1)
  {
    PageBounds(n, page);
  }

  /** The records `rerender` shows for a page: `curRecords.slice(start, end)`. */
  function PageWindow(records: seq<Record>, page: int): (w: seq<Record>)
    requires 1 <= page <= MaxPage(|records|)
    ensures 0 < |w| <= PageSize
  {
    PageBounds(|records|, page);
    records[PageStart(|records|, page)..PageEnd(|records|, page)]
  }

  /** Pages 1 to `page`, concatenated in order. */
  function PagesUpTo(records: seq<Record>, page: int): seq<Record>
    requires 0 <= page <= MaxPage(|records|)
  {
    if page == 0 then [] else PagesUpTo(records, page - 1) + PageWindow(records, page)
  }

  /** Pages 1 to `page` are exactly the records before that page's end; all pages give the whole list. */
  lemma {:induction false} PagesPartition(records: seq<Record>, page: int)
    requires 1 <= page <= MaxPage(|records|)
    ensures PagesUpTo(records, page) == records[..PageEnd(|records|, page)]
    ensures page == MaxPage(|records|) ==> PagesUpTo(records, page) == records
  {
    var n := |records|;
    PageBounds(n, page);
    if page > 1 {
      PagesPartition(records, page - 1);
      PagesAdjacent(n, page - 1);
      assert records[..PageEnd(n, page - 1)] + records[PageStart(n, page)..PageEnd(n, page)]
          == records[..PageEnd(n, page)];
    }
  }

  /** `s.slice(-k)`: the last k elements, or all of them. */
  function TakeLast<T>(s: seq<T>, k: nat): (r: seq<T>)
    ensures |r| == if |s| < k then |s| else k
  {
    if |s| < k then s else s[|s| - k..]
  }

  /** `s.slice(0, -k)`: everything but the last k elements. */
  function DropLast<T>(s: seq<T>, k: nat): (r: seq<T>)
    ensures |r| == if |s| < k then 0 else |s| - k
  {
    if |s| < k then [] else s[..|s| - k]
  }

  /** The test of media/main.js:224-228: the window's cursor range, end included, holds `target`. */
  predicate Covers(window: seq<Record>, target: int)
  {
    |window| > 0 && window[0].beginCursor <= target <= EndCursor(window[|window| - 1])
  }

  /** The records before the end of `page`, as the search holds them (`remainRec`). */
  function Remaining(records: seq<Record>, page: int): seq<Record>
  {
    var e := PageEnd(|records|, page);
    if e <= 0 then [] else if e >= |records| then records else records[..e]
  }

  /**
   * Trimming 50 records off the remaining prefix leaves the prefix of the previous
   * page, and the last 50 of the prefix are the page's own window.
   */
  lemma RemainingStep(records: seq<Record>, page: int)
    requires 1 <= page <= MaxPage(|records|)
    ensures TakeLast(Remaining(records, page), PageSize) == PageWindow(records, page)
    ensures DropLast(Remaining(records, page), PageSize) == Remaining(records, page - 1)
  {
    PageBounds(|records|, page);
  }

  /** While at least one record remains, the page number is a valid one. */
  lemma RemainingNonEmpty(records: seq<Record>, page: int)
    requires |records| > 0 && page <= MaxPage(|records|)
    ensures |Remaining(records, page)| > 0 <==> page >= 1
    ensures page == MaxPage(|records|) ==> Remaining(records, page) == records
  {
    var m := MaxPage(|records|);
    Pagination.CeilDivBounds(|records|, PageSize);
    if page < 1 {
      assert (m - page) * PageSize >= m * PageSize;
    }
  }

  /**
   * One round of the page-by-page search: while a page remains, records remain, and
   * trimming the last 50 of them leaves the records remaining for the previous page,
   * none once page 1 is passed.
   */
  lemma SearchStep(records: seq<Record>, page: int)
    requires |records| > 0 && 1 <= page <= MaxPage(|records|)
    ensures |Remaining(records, page)| > 0
    ensures DropLast(Remaining(records, page), PageSize) == Remaining(records, page - 1)
    ensures |Remaining(records, page - 1)| > 0 <==> page >= 2
  {
    RemainingNonEmpty(records, page);
    RemainingNonEmpty(records, page - 1);
    RemainingStep(records, page);
  }

  /**
   * In a contiguous list, when the window of `page` is rejected while the target is
   * not past the remaining records, the target is not past the records remaining for
   * the previous page either, or, with none left, lies before the first record.
   */
  lemma SearchRejects(records: seq<Record>, page: int, target: int)
    requires Contiguous(records) && 1 <= page <= MaxPage(|records|)
    requires |Remaining(records, page)| > 0
    requires target <= EndCursor(Remaining(records, page)[|Remaining(records, page)| - 1])
    requires !Covers(TakeLast(Remaining(records, page), PageSize), target)
    ensures var prev := Remaining(records, page - 1);
      && (|prev| > 0 ==> target <= EndCursor(prev[|prev| - 1]))
      && (prev == [] ==> target < records[0].beginCursor)
  {
    var n := |records|;
    RemainingNonEmpty(records, page);
    RemainingNonEmpty(records, page - 1);
    RemainingStep(records, page);
    PageBounds(n, page);
    var rem := Remaining(records, page);
    var w := PageWindow(records, page);
    var s := PageStart(n, page);
    assert w[0] == records[s];
    assert rem[|rem| - 1] == w[|w| - 1];
    if page >= 2 {
      var prev := Remaining(records, page - 1);
      assert prev == records[..s];
      assert prev[|prev| - 1] == records[s - 1];
    }
  }

  /**
   * The condition under which `findTargetRecords` as written returns at all
   * (media/main.js:215-236): the target lies beyond the last record, or the list is
   * too short to loop, or the first window covers it, or after the one trim the
   * remainder is too short to loop, or its last window covers it. Otherwise the
   * loop reassigns the same `curRecords.slice(0, -pageSize)` forever.
   */
  predicate SearchEnds(records: seq<Record>, target: int): (ends: bool)
    requires |records| > 0
    ensures |records| <= PageSize + 1 ==> ends
  {
    var rest := DropLast(records, PageSize);
    || target > EndCursor(records[|records| - 1])
    || |records| <= 1
    || Covers(TakeLast(records, PageSize), target)
    || |rest| <= 1
    || Covers(TakeLast(rest, PageSize), target)
  }

  /** A target in the last two pages (or beyond the end) lets the search end. */
  lemma SearchEndsInLastTwoPages(records: seq<Record>, target: int)
    requires |records| > 0 && Contiguous(records)
    requires MaxPage(|records|) >= 2
    requires records[PageStart(|records|, MaxPage(|records|) - 1)].beginCursor <= target
    ensures SearchEnds(records, target)
  {
    var n, m := |records|, MaxPage(|records|);
    PageBounds(n, m);
    PageBounds(n, m - 1);
    RemainingStep(records, m);
    RemainingNonEmpty(records, m);
    RemainingStep(records, m - 1);
    var w1, w2 := PageWindow(records, m), PageWindow(records, m - 1);
    if target <= EndCursor(records[n - 1]) && !Covers(w1, target) && |DropLast(records, PageSize)| > 1 {
      var s := PageStart(n, m);
      assert w1[0] == records[s];
      assert target < records[s].beginCursor;
      assert w2[|w2| - 1] == records[s - 1];
      assert EndCursor(records[s - 1]) == records[s].beginCursor;
      assert Covers(w2, target);
    }
  }

  /** The records of a snapshot with one location per record, cursors 0 to n - 1. */
  function OneStepRecords(n: nat): (records: seq<Record>)
    ensures |records| == n && Contiguous(records) && Indexed(records)
    ensures forall i :: 0 <= i < n ==> records[i].beginCursor == i && EndCursor(records[i]) == i + 1
  {
    seq(n, i => Record(i, "f", 0, i, [Location("l", false)], Wrappers.None))
  }

  /**
   * The hang of `findTargetRecords` as written: in a well-formed snapshot of 102
   * one-location records with the live cursor at 0, the first window is rejected, and
   * from then on the loop guard holds, the window of `curRecords.slice(0, -50)` is
   * rejected, and the trim assigns that same slice again. Page 1, which the corrected
   * search reaches, covers the cursor.
   */
  lemma AsWrittenSearchHangs()
    ensures var records := OneStepRecords(102);
      var rest := DropLast(records, PageSize);
      && !SearchEnds(records, 0)
      && |rest| > 1 && !Covers(TakeLast(rest, PageSize), 0)
      && DropLast(records, PageSize) == rest
      && Covers(PageWindow(records, 1), 0)
  {
    var records := OneStepRecords(102);
    var rest := DropLast(records, PageSize);
    assert TakeLast(records, PageSize)[0] == records[52];
    assert TakeLast(rest, PageSize)[0] == records[2];
    assert MaxPage(102) == 3;
    PageBounds(102, 1);
    assert PageWindow(records, 1) == records[0..2];
  }
}
