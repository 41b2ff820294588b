/**
 * The execution-history webview of media/main.js. Its module-level variables
 * (`curRecords`, `logIndex`, `curPage`, `maxPage`, `eventTriggered`,
 * `currentStoppedCursor`) and the enabled/disabled state of its buttons are the
 * fields of `Panel`; the records currently rendered by `activate` and their
 * indentation are `shown` and `indents`. Messages posted to the host are returned.
 */
module MainPanel {
  import opened Wrappers
  import opened Frames
  import opened CursorMath
  import opened Windowing
  import LocationNames

  /** A rendered location row: its `data-cursor`, its shown name, and whether it is marked `stopped`. */
  datatype LocationView = LocationView(cursor: int, name: string, stopped: bool)

  /** What the host guarantees of an `update` snapshot. */
  predicate Snapshot(records: seq<Record>, logIdx: int)
  {
    |records| > 0 && Contiguous(records) && Indexed(records) && records[0].beginCursor <= logIdx
  }

  /** The offset of the last location flagged current, if any. */
  function LastCurrent(locs: seq<Location>): (r: Option<nat>)
    ensures r.Some? ==> r.value < |locs| && locs[r.value].current
    ensures r.Some? ==> forall j :: r.value < j < |locs| ==> !locs[j].current
    ensures r.None? ==> forall j :: 0 <= j < |locs| ==> !locs[j].current
  {
    if locs == [] then None
    else if locs[|locs| - 1].current then Some(|locs| - 1)
    else LastCurrent(locs[..|locs| - 1])
  }

  predicate HasCurrent(locs: seq<Location>)
  {
    LastCurrent(locs).Some?
  }

  /** How many locations are flagged current: each one clicks the record's row once. */
  function CountCurrent(locs: seq<Location>): (count: nat)
    ensures count == 0 <==> !HasCurrent(locs)
  {
    if locs == [] then 0
    else CountCurrent(locs[..|locs| - 1]) + (if locs[|locs| - 1].current then 1 else 0)
  }

  /**
   * Whether a closed row ends up open after being clicked once per current location:
   * each click toggles it.
   */
  function Toggled(locs: seq<Location>): (open: bool)
    ensures open ==> HasCurrent(locs)
  {
    if locs == [] then false else Toggled(locs[..|locs| - 1]) != locs[|locs| - 1].current
  }

  /** A row clicked once per current location ends up open exactly when there is an odd number of them. */
  lemma {:induction false} ToggledIsOddCount(locs: seq<Location>)
    ensures Toggled(locs) <==> CountCurrent(locs) % 2 == 1
  {
    if locs != [] {
      ToggledIsOddCount(locs[..|locs| - 1]);
    }
  }

  /**
   * One more location seen: the toggled state and the presence of current locations
   * step as expected, and listing a record a second time leaves the stopped cursor as
   * the first listing set it.
   */
  lemma CurrentStep(locs: seq<Location>, j: nat, begin: int, listed: seq<Location>, prev: Option<int>)
    requires j < |locs|
    ensures Toggled(locs[..j + 1]) == (Toggled(locs[..j]) != locs[j].current)
    ensures HasCurrent(locs[..j + 1]) == (locs[j].current || HasCurrent(locs[..j]))
    ensures StoppedIn(begin, listed, StoppedIn(begin, listed, prev)) == StoppedIn(begin, listed, prev)
  {
    assert locs[..j + 1][..j] == locs[..j];
  }

  /** `currentStoppedCursor` after the locations starting at `begin` were listed. */
  function StoppedIn(begin: int, locs: seq<Location>, prev: Option<int>): Option<int>
  {
    match LastCurrent(locs)
    case None => prev
    case Some(j) => Some(begin + j)
  }

  /**
   * `currentStoppedCursor` after `activate` rendered `window`: each record with a
   * current location is clicked open, which lists `all[record.index]`.
   */
  function StoppedAfter(all: seq<Record>, window: seq<Record>, prev: Option<int>): Option<int>
    requires forall i :: 0 <= i < |window| ==> 0 <= window[i].index < |all|
  {
    if window == [] then prev
    else
      var before := StoppedAfter(all, window[..|window| - 1], prev);
      var r := window[|window| - 1];
      if HasCurrent(r.locations) then StoppedIn(all[r.index].beginCursor, all[r.index].locations, before)
      else before
  }

  /** Listing one more location: a current one becomes the stopped cursor. */
  lemma StoppedStep(begin: int, locs: seq<Location>, i: nat, prev: Option<int>)
    requires i < |locs|
    ensures StoppedIn(begin, locs[..i + 1], prev)
            == if locs[i].current then Some(begin + i) else StoppedIn(begin, locs[..i], prev)
  {
    assert locs[..i + 1][..i] == locs[..i];
  }

  /**
   * The listing loop of `showLocations` (media/main.js:383-400): the i-th location is
   * shown at cursor `begin_cursor + i` with its name stripped of the rbenv prefix, and
   * each current one overwrites the stopped cursor `prev`.
   */
  method ListLocations(record: Record, prev: Option<int>) returns (views: seq<LocationView>, stopped: Option<int>)
    ensures |views| == |record.locations|
    ensures forall i :: 0 <= i < |views| ==>
              views[i] == LocationView(record.beginCursor + i,
                                       LocationNames.StripRbenvPrefix(record.locations[i].name),
                                       record.locations[i].current)
    ensures stopped == StoppedIn(record.beginCursor, record.locations, prev)
  {
    var cursor := record.beginCursor;
    views, stopped := [], prev;
    for i := 0 to |record.locations|
      invariant cursor == record.beginCursor + i && |views| == i
      invariant forall k :: 0 <= k < i ==>
                  views[k] == LocationView(record.beginCursor + k,
                                           LocationNames.StripRbenvPrefix(record.locations[k].name),
                                           record.locations[k].current)
      invariant stopped == StoppedIn(record.beginCursor, record.locations[..i], prev)
    {
      var loc := record.locations[i];
      var name := LocationNames.StripRbenvPrefix(loc.name);
      views := views + [LocationView(cursor, name, loc.current)];
      StoppedStep(record.beginCursor, record.locations, i, prev);
      if loc.current {
        stopped := Some(cursor);
      }
      cursor := cursor + 1;
    }
    assert record.locations[..|record.locations|] == record.locations;
  }

  /**
   * When exactly one location of the rendered window is current, rendering records
   * its cursor as the stopped cursor, whatever was stored before.
   */
  lemma {:induction false} StoppedAfterFindsLive(all: seq<Record>, window: seq<Record>, prev: Option<int>, i: nat, j: nat)
    requires forall k :: 0 <= k < |window| ==> 0 <= window[k].index < |all| && all[window[k].index] == window[k]
    requires i < |window| && j < |window[i].locations| && window[i].locations[j].current
    requires forall k, l :: 0 <= k < |window| && 0 <= l < |window[k].locations| && window[k].locations[l].current ==> k == i && l == j
    ensures StoppedAfter(all, window, prev) == Some(window[i].beginCursor + j)
  {
    var last := |window| - 1;
    var r := window[last];
    if i == last {
      var lc := LastCurrent(r.locations);
      assert lc == Some(j);
    } else {
      StoppedAfterFindsLive(all, window[..last], prev, i, j);
      assert !HasCurrent(r.locations);
    }
  }

  /** When no location of the window is current, the stored stopped cursor is kept as it was. */
  lemma {:induction false} StoppedAfterKeepsStale(all: seq<Record>, window: seq<Record>, prev: Option<int>)
    requires forall k :: 0 <= k < |window| ==> 0 <= window[k].index < |all| && all[window[k].index] == window[k]
    requires forall k, l :: 0 <= k < |window| && 0 <= l < |window[k].locations| ==> !window[k].locations[l].current
    ensures StoppedAfter(all, window, prev) == prev
  {
    if window != [] {
      StoppedAfterKeepsStale(all, window[..|window| - 1], prev);
      assert !HasCurrent(window[|window| - 1].locations);
    }
  }

  /**
   * The reference cursor of `goHere` as written (media/main.js:441-442):
   * `currentStoppedCursor || lastEnd`, so a stopped cursor of 0 counts as none.
   */
  function ReferenceAsWritten(stopped: Option<int>, records: seq<Record>): (ref: int)
    requires |records| > 0
    ensures stopped.Some? && stopped.value != 0 ==> ref == stopped.value
    ensures stopped.None? || stopped == Some(0) ==> ref == EndCursor(records[|records| - 1])
  {
    if stopped.Some? && stopped.value != 0 then stopped.value else EndCursor(records[|records| - 1])
  }

  /**
   * The reference cursor `goHere` evidently means: the stopped cursor when there is
   * one, otherwise the live frontier just past the last record.
   */
  function Reference(stopped: Option<int>, records: seq<Record>): (ref: int)
    requires |records| > 0
    ensures stopped.Some? ==> ref == stopped.value
    ensures stopped.None? ==> ref == EndCursor(records[|records| - 1])
  {
    if stopped.Some? then stopped.value else EndCursor(records[|records| - 1])
  }

  /**
   * The rule as written and the corrected one agree on every stopped cursor but 0;
   * at 0 they differ unless the frontier itself is 0.
   */
  lemma ReferenceRulesAgree(stopped: Option<int>, records: seq<Record>)
    requires |records| > 0
    ensures stopped != Some(0) ==> ReferenceAsWritten(stopped, records) == Reference(stopped, records)
    ensures stopped == Some(0) ==>
              (ReferenceAsWritten(stopped, records) == Reference(stopped, records)
               <==> EndCursor(records[|records| - 1]) == 0)
  {
  }

  /**
   * Stopped at cursor 0 of a three-location record, a click on cursor 2 yields
   * `goBackTo 1` as written, which leads to cursor -1; the corrected reference yields
   * `goTo 2`, which reaches cursor 2.
   */
  lemma ZeroStoppedCursorIgnored()
    ensures var records := [Record(0, "main", 0, 0, [Location("a", true), Location("b", false), Location("c", false)], None)];
      && Snapshot(records, 0)
      && StoppedIn(records[0].beginCursor, records[0].locations, None) == Some(0)
      && ToCommand(2, ReferenceAsWritten(Some(0), records)) == GoBackTo(1)
      && Apply(ToCommand(2, ReferenceAsWritten(Some(0), records)), 0) != 2
      && ToCommand(2, Reference(Some(0), records)) == GoTo(2)
      && Apply(ToCommand(2, Reference(Some(0), records)), 0) == 2
  {
    var records := [Record(0, "main", 0, 0, [Location("a", true), Location("b", false), Location("c", false)], None)];
    assert LastCurrent(records[0].locations[..2]) == LastCurrent(records[0].locations[..1]);
  }

  /** `findMinDepth` (media/main.js:405-414): the smallest frame depth of a non-empty list. */
  method FindMinDepth(records: seq<Record>) returns (min: int)
    requires |records| > 0
    ensures exists i :: 0 <= i < |records| && records[i].frameDepth == min
    ensures forall i :: 0 <= i < |records| ==> min <= records[i].frameDepth
  {
    min := records[0].frameDepth;
    var at := 0;
    for i := 1 to |records|
      invariant 0 <= at < i && records[at].frameDepth == min
      invariant forall k :: 0 <= k < i ==> min <= records[k].frameDepth
    {
      var depth := records[i].frameDepth;
      if min > depth {
        min := depth;
        at := i;
      }
    }
  }

  /**
   * The `data-depth` of each row `activate` renders (media/main.js:345, 356): its frame
   * depth less the smallest depth of the list.
   */
  method Indentation(records: seq<Record>) returns (indents: seq<int>)
    requires |records| > 0
    ensures IndentedBy(indents, FrameDepths(records))
  {
    var minDepth := FindMinDepth(records);
    indents := [];
    for i := 0 to |records|
      invariant |indents| == i
      invariant forall k :: 0 <= k < i ==> indents[k] == records[k].frameDepth - minDepth
    {
      indents := indents + [records[i].frameDepth - minDepth];
    }
    ghost var shallowest :| 0 <= shallowest < |records| && records[shallowest].frameDepth == minDepth;
    assert indents[shallowest] == 0;
  }

  /** The frame depths of `records`, in order. */
  function FrameDepths(records: seq<Record>): (depths: seq<int>)
    ensures |depths| == |records| && forall i :: 0 <= i < |records| ==> depths[i] == records[i].frameDepth
  {
    seq(|records|, i requires 0 <= i < |records| => records[i].frameDepth)
  }

  /** A page of an indexed snapshot holds records whose `index` points back at themselves. */
  lemma WindowIndexed(records: seq<Record>, page: int)
    requires Indexed(records) && 1 <= page <= MaxPage(|records|)
    ensures var w := PageWindow(records, page);
      forall i :: 0 <= i < |w| ==> 0 <= w[i].index < |records|
  {
    PageBounds(|records|, page);
  }

  /** `curPage` after `goToNextPage`: a no-op on the last page. */
  function NextPage(page: int, maxPage: int): (next: int)
    ensures 1 <= page <= maxPage ==> page <= next <= maxPage && (next == page <==> page == maxPage)
  {
    if page == maxPage then page else page + 1
  }

  /** `curPage` after `goToPrevPage`: a no-op below page 2. */
  function PrevPage(page: int): (prev: int)
    ensures 1 <= page ==> 1 <= prev <= page && (prev == page <==> page == 1)
  {
    if page < 2 then page else page - 1
  }

  /** Away from the ends, a step forward is undone by a step back and vice versa. */
  lemma PagingRoundTrip(page: int, maxPage: int)
    requires 1 <= page <= maxPage
    ensures page < maxPage ==> PrevPage(NextPage(page, maxPage)) == page
    ensures page > 1 ==> NextPage(PrevPage(page), maxPage) == page
  {
  }

  /**
   * The search of `findTargetRecords` as written (media/main.js:216-235). After one
   * rejected window it trims `curRecords` rather than `remainRec`, so the loop only
   * ends under `SearchEnds`; within it the result is one of the last two pages, or
   * the remainder of at most one record.
   */
  method SearchPageAsWritten(all: seq<Record>, logIdx: int) returns (page: int, target: seq<Record>)
    requires |all| > 0 && SearchEnds(all, logIdx)
    ensures logIdx > EndCursor(all[|all| - 1]) ==> target == TakeLast(all, PageSize) && page == MaxPage(|all|)
    ensures page == MaxPage(|all|) || page == MaxPage(|all|) - 1
    ensures logIdx <= EndCursor(all[|all| - 1]) ==> Covers(target, logIdx) || |target| <= 1
    ensures 1 <= page ==> target == PageWindow(all, page)
    ensures page < 1 ==> target == []
    ensures Contiguous(all) && all[0].beginCursor <= logIdx ==>
              1 <= page && (logIdx <= EndCursor(all[|all| - 1]) ==> Covers(target, logIdx))
  {
    var maxPage := MaxPage(|all|);
    ghost var rest := DropLast(all, PageSize);
    AsWrittenWindows(all);
    var lastRec := all[|all| - 1];
    page := maxPage;
    if logIdx > EndCursor(lastRec) {
      return page, TakeLast(all, PageSize);
    }
    var remainRec := all;
    while |remainRec| > 1
      invariant || (remainRec == all && page == maxPage)
                || (&& remainRec == rest && page == maxPage - 1
                    && !Covers(TakeLast(all, PageSize), logIdx)
                    && (|remainRec| > 1 ==> Covers(TakeLast(remainRec, PageSize), logIdx)))
      decreases if remainRec == all then 1 else 0
    {
      var records := TakeLast(remainRec, PageSize);
      var firstRec := records[0];
      var lastRec := records[|records| - 1];
      var start := firstRec.beginCursor;
      var end := EndCursor(lastRec);
      if logIdx >= start && logIdx <= end {
        return page, records;
      }
      page := page - 1;
      remainRec := DropLast(all, PageSize);
    }
    target := remainRec;
    if remainRec != all && Contiguous(all) && all[0].beginCursor <= logIdx {
      AsWrittenRemainderCovers(all, logIdx);
    }
  }

  /**
   * The two windows the search as written can test: the last 50 records are the last
   * page, and the last 50 of `curRecords.slice(0, -50)`, when anything is left, are
   * the page before it.
   */
  lemma AsWrittenWindows(all: seq<Record>)
    requires |all| > 0
    ensures MaxPage(|all|) >= 1 && TakeLast(all, PageSize) == PageWindow(all, MaxPage(|all|))
    ensures DropLast(all, PageSize) == [] <==> MaxPage(|all|) == 1
    ensures DropLast(all, PageSize) != [] ==>
              TakeLast(DropLast(all, PageSize), PageSize) == PageWindow(all, MaxPage(|all|) - 1)
  {
    var m := MaxPage(|all|);
    RemainingNonEmpty(all, m);
    RemainingStep(all, m);
    RemainingNonEmpty(all, m - 1);
    if m >= 2 {
      RemainingStep(all, m - 1);
    }
  }

  /**
   * When the last window of a contiguous snapshot is rejected and the one trim leaves
   * at most one record, that record is there and holds the cursor.
   */
  lemma AsWrittenRemainderCovers(all: seq<Record>, logIdx: int)
    requires |all| > 0 && Contiguous(all) && all[0].beginCursor <= logIdx <= EndCursor(all[|all| - 1])
    requires !Covers(TakeLast(all, PageSize), logIdx) && |DropLast(all, PageSize)| <= 1
    ensures Covers(DropLast(all, PageSize), logIdx)
  {
    var rest := DropLast(all, PageSize);
    assert rest[0] == all[0] && TakeLast(all, PageSize)[0] == all[1];
  }

  /**
   * `findTargetRecords` with the trim applied to `remainRec`, as a search returning
   * the page number with its window: a cursor past the snapshot gives the last page,
   * anything else is searched for page by page from the end.
   */
  method SearchPage(all: seq<Record>, logIdx: int) returns (page: int, target: seq<Record>)
    requires |all| > 0
    ensures 0 <= page <= MaxPage(|all|)
    ensures 1 <= page ==> target == PageWindow(all, page)
    ensures page == 0 ==> target == []
    ensures logIdx > EndCursor(all[|all| - 1]) ==> page == MaxPage(|all|)
    ensures Contiguous(all) && all[0].beginCursor <= logIdx ==>
              1 <= page && (logIdx <= EndCursor(all[|all| - 1]) ==> Covers(target, logIdx))
  {
    var lastRec := all[|all| - 1];
    if logIdx > EndCursor(lastRec) {
      page := MaxPage(|all|);
      RemainingNonEmpty(all, page);
      RemainingStep(all, page);
      return page, TakeLast(all, PageSize);
    }
    page, target := WalkBack(all, logIdx);
    if 1 <= page {
      RemainingStep(all, page);
    }
  }

  /**
   * The loop of `findTargetRecords` (media/main.js:222-234) with `remainRec` trimmed
   * by 50 each round: it tests the last 50 remaining records, page by page from the
   * last, and stops at the first window covering the cursor or when at most one
   * record remains. In a contiguous snapshot starting at or before the cursor, the
   * window found covers it.
   */
  method WalkBack(all: seq<Record>, logIdx: int) returns (page: int, target: seq<Record>)
    requires |all| > 0 && logIdx <= EndCursor(all[|all| - 1])
    ensures 0 <= page <= MaxPage(|all|)
    ensures 1 <= page ==> target == TakeLast(Remaining(all, page), PageSize)
    ensures page == 0 ==> target == []
    ensures Contiguous(all) && all[0].beginCursor <= logIdx ==> 1 <= page && Covers(target, logIdx)
  {
    page := MaxPage(|all|);
    RemainingNonEmpty(all, page);
    var remainRec := all;
    while |remainRec| > 1
      invariant 0 <= page <= MaxPage(|all|)
      invariant remainRec == Remaining(all, page)
      invariant |remainRec| > 0 <==> 1 <= page
      invariant Contiguous(all) && |remainRec| > 0 ==> logIdx <= EndCursor(remainRec[|remainRec| - 1])
      invariant Contiguous(all) && remainRec == [] ==> logIdx < all[0].beginCursor
      decreases |remainRec|
    {
      SearchStep(all, page);
      var records := TakeLast(remainRec, PageSize);
      var firstRec := records[0];
      var lastRec := records[|records| - 1];
      var start := firstRec.beginCursor;
      var end := EndCursor(lastRec);
      if logIdx >= start && logIdx <= end {
        return page, records;
      }
      if Contiguous(all) {
        SearchRejects(all, page, logIdx);
      }
      page := page - 1;
      remainRec := DropLast(remainRec, PageSize);
    }
    target := remainRec;
    if |remainRec| == 1 {
      SearchStep(all, page);
      assert remainRec[0] == all[0];
    }
  }

  /**
   * Page `page` of `records` is the one to show for the live cursor `logIdx`: it
   * covers the cursor, or it is the last page when the cursor is past the snapshot.
   */
  ghost predicate HoldsCursor(records: seq<Record>, page: int, logIdx: int)
  {
    && |records| > 0 && 1 <= page <= MaxPage(|records|)
    && (logIdx <= EndCursor(records[|records| - 1]) ==> Covers(PageWindow(records, page), logIdx))
    && (logIdx > EndCursor(records[|records| - 1]) ==> page == MaxPage(|records|))
  }

  /** What `SearchPage` finds in a snapshot is the page to show. */
  lemma SearchFindsHolder(all: seq<Record>, logIdx: int, page: int, target: seq<Record>)
    requires |all| > 0 && 1 <= page <= MaxPage(|all|) && target == PageWindow(all, page)
    requires logIdx <= EndCursor(all[|all| - 1]) ==> Covers(target, logIdx)
    requires logIdx > EndCursor(all[|all| - 1]) ==> page == MaxPage(|all|)
    ensures HoldsCursor(all, page, logIdx)
  {
  }

  class Panel {
    var curRecords: seq<Record>
    var logIndex: int
    var eventTriggered: bool
    var maxPage: int
    var curPage: int
    var currentStoppedCursor: Option<int>
    /** The records `activate` last rendered, and each one's indentation. */
    var shown: seq<Record>
    var indents: seq<int>
    /** Which rendered rows are expanded to show their locations. */
    var expanded: seq<bool>
    var prevDisabled: bool
    var nextDisabled: bool
    /** The `disabled` class of the record, step-back and step-forward buttons. */
    var recordDisabled: bool
    var goBackToDisabled: bool
    var goToDisabled: bool

    ghost predicate Loaded()
      reads this
    {
      curRecords != []
    }

    /** The stored snapshot is well formed and the current page is one of its pages. */
    ghost predicate Consistent()
      reads this
    {
      && (curRecords == [] ==> curPage == 1)
      && (curRecords != [] ==>
            && Contiguous(curRecords) && Indexed(curRecords)
            && maxPage == MaxPage(|curRecords|)
            && 1 <= curPage <= maxPage)
    }

    ghost predicate Valid()
      reads this
    {
      && Consistent()
      && (curRecords != [] ==> prevDisabled == (curPage == 1) && nextDisabled == (curPage == maxPage))
    }

    /**
     * The view shows page `curPage` of the snapshot: that page's records in order,
     * indented by depth, each pointing at a record of the snapshot, and the stopped
     * cursor is what clicking open their current records left, starting from `before`;
     * a row is expanded exactly when its record has an odd number of current locations.
     */
    ghost predicate ShowsPage(before: Option<int>)
      reads this
    {
      && curRecords != [] && 1 <= curPage <= MaxPage(|curRecords|)
      && shown == PageWindow(curRecords, curPage)
      && IndentedBy(indents, FrameDepths(shown))
      && |expanded| == |shown|
      && (forall i {:trigger expanded[i]} :: 0 <= i < |shown| ==> expanded[i] == Toggled(shown[i].locations))
      && (forall i :: 0 <= i < |shown| ==> 0 <= shown[i].index < |curRecords|)
      && currentStoppedCursor == StoppedAfter(curRecords, shown, before)
    }

    /**
     * What `update` leaves behind: page `curPage` shown (see `ShowsPage`), that page
     * covering the live cursor unless the cursor is past the snapshot, in which case it
     * is the last page; the page buttons reflect the page, the record button is enabled,
     * and a step button is re-enabled when it has somewhere to go (it stays as it was,
     * `backWas` / `toWas`, otherwise).
     */
    ghost predicate Rendered(before: Option<int>, backWas: bool, toWas: bool)
      reads this
    {
      && ShowsPage(before)
      && HoldsCursor(curRecords, curPage, logIndex)
      && prevDisabled == (curPage == 1) && nextDisabled == (curPage == maxPage)
      && !recordDisabled
      && goBackToDisabled == (backWas && logIndex == 0)
      && goToDisabled == (toWas && EndCursor(curRecords[|curRecords| - 1]) <= logIndex)
    }

    /** The script's start-up state: no records, page 1, step buttons disabled. */
    constructor ()
      ensures Valid() && !Loaded()
      ensures logIndex == 0 && curPage == 1 && !eventTriggered && currentStoppedCursor.None?
      ensures !recordDisabled && goBackToDisabled && goToDisabled
    {
      curRecords := [];
      logIndex := 0;
      eventTriggered := false;
      maxPage := 0;
      curPage := 1;
      currentStoppedCursor := None;
      shown := [];
      indents := [];
      expanded := [];
      prevDisabled := false;
      nextDisabled := false;
      recordDisabled := false;
      goBackToDisabled := true;
      goToDisabled := true;
    }

    /**
     * The `update` message (media/main.js:465-476): clears the in-flight guard, then
     * updates. Only snapshots on which `findTargetRecords` as written returns
     * (`SearchEnds`) are handled; on the others the script never returns.
     */
    method HandleUpdateMessage(records: seq<Record>, logIdx: int)
      requires Snapshot(records, logIdx) && SearchEnds(records, logIdx)
      modifies this
      ensures Valid() && Loaded() && !eventTriggered
      ensures curRecords == records && logIndex == logIdx
      ensures Rendered(old(currentStoppedCursor), old(goBackToDisabled), old(goToDisabled))
    {
      eventTriggered := false;
      curPage := 1;
      Update(records, logIdx);
    }

    /**
     * `update` (media/main.js:201-213): stores the snapshot, opens the page holding the
     * live cursor, renders it and re-enables the step buttons that can act. Its call to
     * `findTargetRecords` reads only the snapshot and the log index and writes only
     * `curPage`, so it is the search as written, `SearchPageAsWritten`, followed by
     * that write; it returns only under `SearchEnds`.
     */
    method Update(records: seq<Record>, logIdx: int)
      requires Snapshot(records, logIdx) && SearchEnds(records, logIdx)
      modifies this`curRecords, this`logIndex, this`maxPage, this`curPage
      modifies this`shown, this`indents, this`expanded, this`currentStoppedCursor, this`prevDisabled, this`nextDisabled
      modifies this`recordDisabled, this`goBackToDisabled, this`goToDisabled
      ensures Valid() && Loaded()
      ensures curRecords == records && logIndex == logIdx && maxPage == MaxPage(|records|)
      ensures Rendered(old(currentStoppedCursor), old(goBackToDisabled), old(goToDisabled))
    {
      var page, targetRec := SearchPageAsWritten(records, logIdx);
      SearchFindsHolder(records, logIdx, page, targetRec);
      WindowIndexed(records, page);
      curRecords, logIndex, maxPage, curPage := records, logIdx, MaxPage(|records|), page;
      RenderTarget(targetRec);
    }

    /** The rendering half of `update` (media/main.js:210-212): the page found is shown and the buttons are reset. */
    method RenderTarget(targetRec: seq<Record>)
      requires HoldsCursor(curRecords, curPage, logIndex) && targetRec == PageWindow(curRecords, curPage)
      requires forall i :: 0 <= i < |targetRec| ==> 0 <= targetRec[i].index < |curRecords|
      modifies this`shown, this`indents, this`expanded, this`currentStoppedCursor, this`prevDisabled, this`nextDisabled
      modifies this`recordDisabled, this`goBackToDisabled, this`goToDisabled
      ensures Rendered(old(currentStoppedCursor), old(goBackToDisabled), old(goToDisabled))
    {
      Activate(targetRec);
      DisablePageButtons();
      EnableAvailCmdButtons();
    }

    /** `goToNextPage` (media/main.js:238-244). */
    method GoToNextPage()
      requires Valid() && Loaded()
      modifies this
      ensures Valid() && Loaded()
      ensures curPage == NextPage(old(curPage), maxPage)
      ensures old(curPage) == maxPage ==> unchanged(this)
      ensures old(curPage) < maxPage ==> ShowsPage(old(currentStoppedCursor))
      ensures curRecords == old(curRecords) && maxPage == old(maxPage) && logIndex == old(logIndex)
      ensures eventTriggered == old(eventTriggered) && recordDisabled == old(recordDisabled)
      ensures goBackToDisabled == old(goBackToDisabled) && goToDisabled == old(goToDisabled)
    {
      if curPage == maxPage {
        return;
      }
      curPage := curPage + 1;
      Rerender(old(currentStoppedCursor));
    }

    /**
     * `goToPrevPage` (media/main.js:246-252). Before the first update the page is 1,
     * so the click does nothing.
     */
    method GoToPrevPage()
      requires Valid()
      modifies this
      ensures Valid()
      ensures curPage == PrevPage(old(curPage))
      ensures old(curPage) < 2 ==> unchanged(this)
      ensures old(curPage) >= 2 ==> ShowsPage(old(currentStoppedCursor))
      ensures curRecords == old(curRecords) && maxPage == old(maxPage) && logIndex == old(logIndex)
      ensures eventTriggered == old(eventTriggered) && recordDisabled == old(recordDisabled)
      ensures goBackToDisabled == old(goBackToDisabled) && goToDisabled == old(goToDisabled)
    {
      if curPage < 2 {
        return;
      }
      curPage := curPage - 1;
      Rerender(old(currentStoppedCursor));
    }

    /** `rerender` (media/main.js:333-341): renders the current page and resets the page buttons. */
    method Rerender(ghost before: Option<int>)
      requires Consistent() && Loaded() && currentStoppedCursor == before
      modifies this`shown, this`indents, this`expanded, this`currentStoppedCursor, this`prevDisabled, this`nextDisabled
      ensures Valid() && ShowsPage(before)
    {
      var n := |curRecords|;
      var end := n - (maxPage - curPage) * PageSize;
      var start := end - PageSize;
      if start < 0 {
        start := 0;
      }
      PageBounds(n, curPage);
      Activate(curRecords[start..end]);
      DisablePageButtons();
    }

    /** `disablePageButtons` (media/main.js:255-264). */
    method DisablePageButtons()
      modifies this`prevDisabled, this`nextDisabled
      ensures prevDisabled == (curPage == 1) && nextDisabled == (curPage == maxPage)
    {
      prevDisabled := false;
      nextDisabled := false;
      if curPage == maxPage {
        nextDisabled := true;
      }
      if curPage == 1 {
        prevDisabled := true;
      }
    }

    /**
     * `activate` (media/main.js:343-370): renders `records` as closed rows indented by
     * depth relative to the shallowest one, then clicks a row once per current location
     * of its record. A click toggles the row, so a record with an odd number of current
     * locations ends up open; the stopped cursor is the one its first click recorded.
     */
    method Activate(records: seq<Record>)
      requires |records| > 0
      requires forall i :: 0 <= i < |records| ==> 0 <= records[i].index < |curRecords|
      modifies this`shown, this`indents, this`expanded, this`currentStoppedCursor
      ensures shown == records
      ensures |expanded| == |records|
      ensures IndentedBy(indents, FrameDepths(records))
      ensures forall i {:trigger expanded[i]} :: 0 <= i < |records| ==> expanded[i] == Toggled(records[i].locations)
      ensures currentStoppedCursor == StoppedAfter(curRecords, records, old(currentStoppedCursor))
    {
      shown := records;
      expanded := seq(|records|, _ => false);
      var depths := Indentation(records);
      indents := depths;
      for i := 0 to |records|
        invariant shown == records && indents == depths && |expanded| == |records|
        invariant forall k :: 0 <= k < i ==> expanded[k] == Toggled(records[k].locations)
        invariant forall k :: i <= k < |records| ==> !expanded[k]
        invariant currentStoppedCursor == StoppedAfter(curRecords, records[..i], old(currentStoppedCursor))
      {
        ClickCurrentLocations(i);
        assert records[..i + 1][..i] == records[..i];
      }
      assert records[..|records|] == records;
    }

    /**
     * The per-record part of `activate` (media/main.js:364-368): the closed row is
     * clicked once for each of its record's current locations.
     */
    method ClickCurrentLocations(row: nat)
      requires row < |shown| && |expanded| == |shown| && !expanded[row] && 0 <= shown[row].index < |curRecords|
      modifies this`expanded, this`currentStoppedCursor
      ensures expanded == old(expanded)[row := Toggled(shown[row].locations)]
      ensures var all := curRecords[shown[row].index];
        currentStoppedCursor ==
          if HasCurrent(shown[row].locations) then StoppedIn(all.beginCursor, all.locations, old(currentStoppedCursor))
          else old(currentStoppedCursor)
    {
      var record := shown[row];
      ghost var all := curRecords[record.index];
      ghost var locs := record.locations;
      for j := 0 to |record.locations|
        invariant |expanded| == |shown| && shown[row] == record
        invariant expanded == old(expanded)[row := Toggled(locs[..j])]
        invariant currentStoppedCursor ==
                    if HasCurrent(locs[..j]) then StoppedIn(all.beginCursor, all.locations, old(currentStoppedCursor))
                    else old(currentStoppedCursor)
      {
        CurrentStep(locs, j, all.beginCursor, all.locations, old(currentStoppedCursor));
        if record.locations[j].current {
          var _ := ShowLocations(row);
        }
      }
      assert record.locations[..|record.locations|] == record.locations;
    }

    /**
     * `showLocations` (media/main.js:372-403), a click on rendered row `row`. Opening
     * the row lists its record's locations, the i-th at cursor `begin_cursor + i`, and
     * the last one flagged current becomes the stopped cursor; closing it lists nothing.
     */
    method ShowLocations(row: nat) returns (views: seq<LocationView>)
      requires row < |shown| && |expanded| == |shown| && 0 <= shown[row].index < |curRecords|
      modifies this`expanded, this`currentStoppedCursor
      ensures expanded == old(expanded)[row := !old(expanded[row])]
      ensures var record := curRecords[shown[row].index];
        && (old(expanded[row]) ==> views == [] && currentStoppedCursor == old(currentStoppedCursor))
        && (!old(expanded[row]) ==>
              && |views| == |record.locations|
              && (forall i :: 0 <= i < |views| ==>
                    views[i] == LocationView(record.beginCursor + i,
                                             LocationNames.StripRbenvPrefix(record.locations[i].name),
                                             record.locations[i].current))
              && currentStoppedCursor == StoppedIn(record.beginCursor, record.locations, old(currentStoppedCursor)))
    {
      expanded := expanded[row := !expanded[row]];
      views := [];
      if !expanded[row] {
        return;
      }
      var record := curRecords[shown[row].index];
      views, currentStoppedCursor := ListLocations(record, currentStoppedCursor);
    }

    /**
     * `goHere` (media/main.js:435-456): a click on a location that is not stopped,
     * while no command is in flight, sends the command that moves from the reference
     * cursor as written (`ReferenceAsWritten`) to the clicked one, and blocks further
     * clicks until the next `update`. Unless the stopped cursor is 0 that is the
     * corrected reference, so the command reaches the clicked cursor.
     */
    method GoHere(loc: LocationView) returns (sent: Option<Command>)
      requires loc.stopped || eventTriggered || Loaded()
      modifies this`eventTriggered
      ensures sent.Some? <==> !loc.stopped && !old(eventTriggered)
      ensures sent.Some? ==> eventTriggered
      ensures sent.Some? ==> Apply(sent.value, ReferenceAsWritten(currentStoppedCursor, curRecords)) == loc.cursor
      ensures sent.Some? ==> sent.value == ToCommand(loc.cursor, ReferenceAsWritten(currentStoppedCursor, curRecords))
      ensures sent.Some? && currentStoppedCursor != Some(0) ==>
                Apply(sent.value, Reference(currentStoppedCursor, curRecords)) == loc.cursor
      ensures sent.None? ==> eventTriggered == old(eventTriggered)
    {
      if loc.stopped || eventTriggered {
        return None;
      }
      eventTriggered := true;
      var currentIndex := ReferenceAsWritten(currentStoppedCursor, curRecords);
      ReferenceRulesAgree(currentStoppedCursor, curRecords);
      var times := currentIndex - loc.cursor;
      if times > 0 {
        sent := Some(GoBackTo(times));
      } else {
        sent := Some(GoTo(Abs(times)));
      }
    }

    /** `goBackToOnce` (media/main.js:280-293): one step back unless disabled or at cursor 0. */
    method GoBackToOnce() returns (sent: Option<Command>)
      modifies this`recordDisabled, this`goBackToDisabled, this`goToDisabled
      ensures sent.Some? <==> !old(recordDisabled) && logIndex != 0
      ensures sent.Some? ==> sent.value == GoBackTo(1) && recordDisabled && goBackToDisabled && goToDisabled
      ensures sent.None? ==>
                recordDisabled == old(recordDisabled) && goBackToDisabled == old(goBackToDisabled)
                && goToDisabled == old(goToDisabled)
    {
      if recordDisabled {
        return None;
      }
      if logIndex == 0 {
        return None;
      }
      DisableControlButtons();
      recordDisabled := true;
      sent := Some(GoBackTo(1));
    }

    /**
     * `goToOnce` (media/main.js:295-309): one step forward unless disabled or at the
     * frontier. Before the first `update` there is no last record: the script throws
     * reading it, after changing nothing and posting nothing.
     */
    method GoToOnce() returns (sent: Option<Command>)
      modifies this`recordDisabled, this`goBackToDisabled, this`goToDisabled
      ensures sent.Some? <==>
                !old(recordDisabled) && Loaded() && EndCursor(curRecords[|curRecords| - 1]) > logIndex
      ensures sent.Some? ==> sent.value == GoTo(1) && recordDisabled && goBackToDisabled && goToDisabled
      ensures sent.None? ==>
                recordDisabled == old(recordDisabled) && goBackToDisabled == old(goBackToDisabled)
                && goToDisabled == old(goToDisabled)
    {
      if recordDisabled || curRecords == [] {
        return None;
      }
      var lastRec := curRecords[|curRecords| - 1];
      if EndCursor(lastRec) <= logIndex {
        return None;
      }
      DisableControlButtons();
      recordDisabled := true;
      sent := Some(GoTo(1));
    }

    /** `enableAvailCmdButtons` (media/main.js:311-323): only ever removes `disabled`. */
    method EnableAvailCmdButtons()
      requires Loaded()
      modifies this`recordDisabled, this`goBackToDisabled, this`goToDisabled
      ensures !recordDisabled
      ensures goBackToDisabled == (old(goBackToDisabled) && logIndex == 0)
      ensures goToDisabled == (old(goToDisabled) && EndCursor(curRecords[|curRecords| - 1]) <= logIndex)
    {
      recordDisabled := false;
      if logIndex != 0 {
        goBackToDisabled := false;
      }
      var lastRec := curRecords[|curRecords| - 1];
      if EndCursor(lastRec) > logIndex {
        goToDisabled := false;
      }
    }

    /** `disableControlButtons` (media/main.js:325-328). */
    method DisableControlButtons()
      modifies this`goBackToDisabled, this`goToDisabled
      ensures goBackToDisabled && goToDisabled
    {
      goBackToDisabled := true;
      goToDisabled := true;
    }
  }
}
