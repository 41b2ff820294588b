/**
 * The history panel of media/history.js: `HistoryInspector` renders one page of
 * execution logs sent by the host, indents each frame by its depth, opens the
 * frames holding the current log index, and turns clicks on locations and buttons
 * into commands for the host. Its buttons' state and the view it renders are the
 * fields of `HistoryInspector`; messages posted to the host are returned.
 */
module HistoryView {
  import opened Wrappers
  import opened Frames
  import opened CursorMath
  import LocationNames
  import Pagination

  /** `#pageSize` (media/history.js:53): logs requested per page. */
  const HistoryPageSize: nat := 30

  /** A rendered location row: its `data-index`, its shown name, and whether it is marked `stopped`. */
  datatype LocationRow = LocationRow(index: int, name: string, stopped: bool)

  /** What the record button posts. */
  datatype RecordCommand = StartRecord | StopRecord

  /** The `getExecLogs` request a numbered page button posts. */
  datatype PageRequest = GetExecLogs(offset: nat, pageSize: nat)

  /**
   * Whether a closed frame row ends up open after being clicked once for each of
   * its locations at the current log index (media/history.js:196-200): each click
   * toggles it.
   */
  function OpenedBy(locs: seq<ExecLocation>, currentLogIndex: int): (open: bool)
    ensures open ==> exists k :: 0 <= k < |locs| && locs[k].index == currentLogIndex
  {
    if locs == [] then false
    else OpenedBy(locs[..|locs| - 1], currentLogIndex) != (locs[|locs| - 1].index == currentLogIndex)
  }

  /** A frame holding the current log index exactly once is rendered open; one not holding it stays closed. */
  lemma {:induction false} OpenedByUnique(locs: seq<ExecLocation>, currentLogIndex: int, k: nat)
    requires k < |locs| && locs[k].index == currentLogIndex
    requires forall j :: 0 <= j < |locs| && j != k ==> locs[j].index != currentLogIndex
    ensures OpenedBy(locs, currentLogIndex)
  {
    var init := locs[..|locs| - 1];
    if k < |locs| - 1 {
      OpenedByUnique(init, currentLogIndex, k);
    } else {
      NotOpenedWithout(init, currentLogIndex);
    }
  }

  lemma {:induction false} NotOpenedWithout(locs: seq<ExecLocation>, currentLogIndex: int)
    requires forall j :: 0 <= j < |locs| ==> locs[j].index != currentLogIndex
    ensures !OpenedBy(locs, currentLogIndex)
  {
    if locs != [] {
      NotOpenedWithout(locs[..|locs| - 1], currentLogIndex);
    }
  }

  /** One more location seen by the click loop. */
  lemma OpenedStep(locs: seq<ExecLocation>, currentLogIndex: int, j: nat)
    requires j < |locs|
    ensures OpenedBy(locs[..j + 1], currentLogIndex) == (OpenedBy(locs[..j], currentLogIndex) != (locs[j].index == currentLogIndex))
  {
    assert locs[..j + 1][..j] == locs[..j];
  }

  /** The rendered row of one location: stripped name, `stopped` when it is the current log index. */
  function RowOf(loc: ExecLocation, currentLogIndex: int): LocationRow
  {
    LocationRow(loc.index, LocationNames.StripLocationName(loc.name), loc.index == currentLogIndex)
  }

  /**
   * The listing loop of `_addShowLocationsListener` (media/history.js:220-233): each
   * location becomes a row keeping its log index, with its name stripped of the rbenv
   * and then the gem prefix, marked `stopped` exactly when it is the current log index.
   */
  method ListLocations(log: ExecLog, currentLogIndex: int) returns (rows: seq<LocationRow>)
    ensures |rows| == |log.locations|
    ensures forall k :: 0 <= k < |rows| ==>
              && rows[k].index == log.locations[k].index
              && rows[k].name == LocationNames.StripLocationName(log.locations[k].name)
              && (rows[k].stopped <==> log.locations[k].index == currentLogIndex)
  {
    rows := [];
    for i := 0 to |log.locations|
      invariant |rows| == i
      invariant forall k :: 0 <= k < i ==> rows[k] == RowOf(log.locations[k], currentLogIndex)
    {
      var loc := log.locations[i];
      var name := LocationNames.StripLocationName(loc.name);
      rows := rows + [LocationRow(loc.index, name, loc.index == currentLogIndex)];
    }
  }

  /** `_findMinDepth` (media/history.js:238-247): the smallest depth of a non-empty log list. */
  method FindMinDepth(logs: seq<ExecLog>) returns (min: int)
    requires |logs| > 0
    ensures exists i :: 0 <= i < |logs| && logs[i].depth == min
    ensures forall i :: 0 <= i < |logs| ==> min <= logs[i].depth
  {
    min := logs[0].depth;
    var at := 0;
    for i := 1 to |logs|
      invariant 0 <= at < i && logs[at].depth == min
      invariant forall k :: 0 <= k < i ==> min <= logs[k].depth
    {
      var depth := logs[i].depth;
      if min > depth {
        min := depth;
        at := i;
      }
    }
  }

  /** The depths of `logs`, in order. */
  function Depths(logs: seq<ExecLog>): (depths: seq<int>)
    ensures |depths| == |logs| && forall i :: 0 <= i < |logs| ==> depths[i] == logs[i].depth
  {
    if logs == [] then [] else Depths(logs[..|logs| - 1]) + [logs[|logs| - 1].depth]
  }

  /** `_paginate`'s offsets for a total length of any sign: `Math.ceil(len / 30)` buttons, none for len <= 0. */
  function PageCount(totalLen: int): (pages: nat)
    ensures pages == 0 <==> totalLen <= 0
  {
    if totalLen <= 0 then 0 else Pagination.CeilDiv(totalLen, HistoryPageSize)
  }

  /**
   * The step command of `_addStepListener` (media/history.js:271-291) for a click
   * on a location row: nothing for the stopped row, otherwise the command that
   * moves from the current log index to the row's log index.
   */
  function StepCommand(row: LocationRow, currentLogIndex: int): (c: Option<Command>)
    ensures c.None? <==> row.stopped
    ensures c.Some? ==> Apply(c.value, currentLogIndex) == row.index
    ensures c.Some? ==> (c.value.GoBackTo? <==> row.index < currentLogIndex)
  {
    if row.stopped then None else Some(ToCommand(row.index, currentLogIndex))
  }

  class HistoryInspector {
    /** The record button shows the stop icon: a recording was started from it. */
    var recording: bool
    /** The `disabled` class of the record, step-back and step-forward buttons. */
    var recordDisabled: bool
    var goBackToDisabled: bool
    var goToDisabled: bool
    /** The logs and log index the last `printExecLogs` rendered (its click handlers read them). */
    var execLogs: seq<ExecLog>
    var currentLogIndex: int
    /** The rendered frame rows: each one's indentation and whether it shows its locations. */
    var indents: seq<int>
    var expanded: seq<bool>
    /** The offset each numbered page button requests, in button order. */
    var pageOffsets: seq<nat>

    /** The constructor (media/history.js:57-64): the record button idle and enabled, the step buttons disabled, nothing rendered. */
    constructor ()
      ensures !recording && !recordDisabled && goBackToDisabled && goToDisabled
      ensures execLogs == [] && indents == [] && expanded == [] && pageOffsets == []
    {
      recording := false;
      recordDisabled := false;
      goBackToDisabled := true;
      goToDisabled := true;
      execLogs := [];
      currentLogIndex := 0;
      indents := [];
      expanded := [];
      pageOffsets := [];
    }

    /** The record button (media/history.js:79-91): starts a recording, or stops the one it started. */
    method ClickRecord() returns (cmd: RecordCommand)
      modifies this`recording
      ensures recording == !old(recording)
      ensures cmd == if old(recording) then StopRecord else StartRecord
    {
      if !recording {
        recording := true;
        cmd := StartRecord;
      } else {
        recording := false;
        cmd := StopRecord;
      }
    }

    /** The step-forward button (media/history.js:101-109): one step forward unless disabled. */
    method ClickGoTo() returns (sent: Option<Command>)
      ensures sent.Some? <==> !goToDisabled
      ensures sent.Some? ==> sent.value == GoTo(1) && Apply(sent.value, currentLogIndex) == currentLogIndex + 1
    {
      if goToDisabled {
        return None;
      }
      sent := Some(GoTo(1));
    }

    /** The step-back button (media/history.js:119-127): one step back unless disabled. */
    method ClickGoBackTo() returns (sent: Option<Command>)
      ensures sent.Some? <==> !goBackToDisabled
      ensures sent.Some? ==> sent.value == GoBackTo(1) && Apply(sent.value, currentLogIndex) == currentLogIndex - 1
    {
      if goBackToDisabled {
        return None;
      }
      sent := Some(GoBackTo(1));
    }

    /**
     * `printExecLogs` (media/history.js:170-204): clears the view, enables the three
     * buttons, renders one closed row per log indented by its depth relative to the
     * shallowest, clicks a row once per location at the current log index, and adds a
     * numbered button per page of 30 logs. An empty list stops at `_findMinDepth`,
     * which reads the first log, leaving the view cleared and the buttons enabled.
     */
    method PrintExecLogs(logs: seq<ExecLog>, logIndex: int, totalLen: int)
      modifies this`recordDisabled, this`goBackToDisabled, this`goToDisabled, this`execLogs
      modifies this`currentLogIndex, this`indents, this`expanded, this`pageOffsets
      ensures !recordDisabled && !goBackToDisabled && !goToDisabled
      ensures execLogs == logs && currentLogIndex == logIndex
      ensures logs == [] ==> indents == [] && expanded == [] && pageOffsets == []
      ensures logs != [] ==> IndentedBy(indents, Depths(logs))
      ensures logs != [] ==>
                && |expanded| == |logs|
                && forall i :: 0 <= i < |logs| ==> expanded[i] == OpenedBy(logs[i].locations, logIndex)
      ensures logs != [] ==>
                && |pageOffsets| == PageCount(totalLen)
                && forall i :: 0 <= i < |pageOffsets| ==> pageOffsets[i] == i * HistoryPageSize
    {
      execLogs, currentLogIndex := logs, logIndex;
      indents, expanded, pageOffsets := [], [], [];
      EnableDebugCmdBtns();
      if logs == [] {
        return;
      }
      var minDepth := FindMinDepth(logs);
      for i := 0 to |logs|
        invariant execLogs == logs && currentLogIndex == logIndex
        invariant !recordDisabled && !goBackToDisabled && !goToDisabled
        invariant |indents| == i && |expanded| == i
        invariant forall k :: 0 <= k < i ==> indents[k] == logs[k].depth - minDepth
        invariant forall k :: 0 <= k < i ==> expanded[k] == OpenedBy(logs[k].locations, logIndex)
      {
        indents := indents + [logs[i].depth - minDepth];
        expanded := expanded + [false];
        ClickCurrentLocations(i);
      }
      ghost var shallowest :| 0 <= shallowest < |logs| && logs[shallowest].depth == minDepth;
      assert indents[shallowest] == 0;
      var len := if totalLen <= 0 then 0 else totalLen;
      pageOffsets := Pagination.Paginate(len, HistoryPageSize);
    }

    /**
     * The per-frame click loop of `printExecLogs` (media/history.js:196-200): the
     * closed last row is clicked once for each of its log's locations at the current
     * log index.
     */
    method ClickCurrentLocations(row: nat)
      requires row < |execLogs| && |expanded| == row + 1 && !expanded[row]
      modifies this`expanded
      ensures expanded == old(expanded)[row := OpenedBy(execLogs[row].locations, currentLogIndex)]
    {
      var locs := execLogs[row].locations;
      for j := 0 to |locs|
        invariant |expanded| == row + 1
        invariant expanded == old(expanded)[row := OpenedBy(locs[..j], currentLogIndex)]
      {
        OpenedStep(locs, currentLogIndex, j);
        if locs[j].index == currentLogIndex {
          var _ := ShowLocations(row);
        }
      }
      assert locs[..|locs|] == locs;
    }

    /**
     * The frame-row click handler `_addShowLocationsListener` (media/history.js:206-235):
     * toggles the row; opening it lists its log's locations, closing it lists nothing.
     */
    method ShowLocations(row: nat) returns (rows: seq<LocationRow>)
      requires row < |expanded| && row < |execLogs|
      modifies this`expanded
      ensures expanded == old(expanded)[row := !old(expanded[row])]
      ensures old(expanded[row]) ==> rows == []
      ensures !old(expanded[row]) ==>
                && |rows| == |execLogs[row].locations|
                && forall k :: 0 <= k < |rows| ==> rows[k] == RowOf(execLogs[row].locations[k], currentLogIndex)
    {
      expanded := expanded[row := !expanded[row]];
      rows := [];
      if !expanded[row] {
        return;
      }
      rows := ListLocations(execLogs[row], currentLogIndex);
    }

    /**
     * A click on a location row (media/history.js:271-291): nothing for the stopped
     * row; otherwise `times = currentLogIndex - index`, sent as `goBackTo` when
     * positive and as `goTo` with its absolute value otherwise.
     */
    method StepClick(row: LocationRow) returns (sent: Option<Command>)
      ensures sent == StepCommand(row, currentLogIndex)
    {
      if row.stopped {
        return None;
      }
      var times := currentLogIndex - row.index;
      if times > 0 {
        sent := Some(GoBackTo(times));
      } else {
        sent := Some(GoTo(Abs(times)));
      }
    }

    /** A numbered page button (media/history.js:303-310): requests its page of 30 logs. */
    method ClickPageButton(i: nat) returns (req: PageRequest)
      requires 1 <= i <= |pageOffsets|
      ensures req == GetExecLogs(pageOffsets[i - 1], HistoryPageSize)
    {
      req := GetExecLogs(pageOffsets[i - 1], HistoryPageSize);
    }

    /** `_enableDebugCmdBtns` (media/history.js:164-168). */
    method EnableDebugCmdBtns()
      modifies this`recordDisabled, this`goBackToDisabled, this`goToDisabled
      ensures !recordDisabled && !goBackToDisabled && !goToDisabled
    {
      recordDisabled := false;
      goBackToDisabled := false;
      goToDisabled := false;
    }
  }

  /**
   * Every log the host can hold is served by exactly one page button: the one at
   * `item / 30`, whose request `[offset, offset + 30)` covers it.
   */
  lemma LogOnOnePage(totalLen: int, item: nat, i: nat)
    requires item < totalLen
    ensures item / HistoryPageSize < PageCount(totalLen)
    ensures (item / HistoryPageSize) * HistoryPageSize <= item < (item / HistoryPageSize) * HistoryPageSize + HistoryPageSize
    ensures i * HistoryPageSize <= item < i * HistoryPageSize + HistoryPageSize ==> i == item / HistoryPageSize
  {
    Pagination.ItemOnPage(totalLen, HistoryPageSize, item);
    if i * HistoryPageSize <= item < i * HistoryPageSize + HistoryPageSize {
      Pagination.PageOfItemUnique(HistoryPageSize, item, i, item / HistoryPageSize);
    }
  }
}
