/**
 * The host side of the inspector (src/inspector.ts): `RdbgInspectorPanel` relays
 * debug-session events to the webview and webview messages to the debug session.
 * Requests to the session and messages to the webview are returned as values; an
 * asynchronous request is split into the handler that sends it and the handler
 * that receives its response (`None` when the request failed).
 */
module Inspector {
  import opened Wrappers
  import opened Frames
  import opened Text

  /** `pageSize` of the log requests the host makes on its own (src/inspector.ts:107, 125). */
  const HostPageSize: nat := 30

  /** A request to the debug session. */
  datatype Request =
    | CustomStepIn(times: int)
    | CustomStepBack(times: int)
    | GetExecLogs(threadId: int, offset: int, pageSize: int)
    | CustomEvaluate(expression: string, frameId: int, offset: int, pageSize: int)
    | CustomVariable(variablesReference: int, offset: int, pageSize: int)

  /** The response to `customEvaluate` or `customVariable`, relayed to the webview as it is. */
  datatype ObjectResponse = ObjectResponse(variablesReference: int, body: string)

  /** The response to `getExecLogs`. */
  datatype ExecLogsResponse = ExecLogsResponse(logs: seq<ExecLog>, currentLogIndex: int, totalLength: int)

  /** A message posted to the webview. */
  datatype WebviewMessage =
    | Update(records: seq<Record>, logIndex: int)
    | ExecLogsUpdated(logs: seq<ExecLog>, currentLogIndex: int, totalLength: int)
    | ObjectInspected(content: ObjectResponse)

  /** The body of a `recordsUpdated` event: a chunk of records, `fin` on the last chunk. */
  datatype RecordsChunk = RecordsChunk(records: seq<Record>, fin: bool, logIndex: int)

  /** The test of src/inspector.ts:210: the lower-cased name contains the lower-cased keyword. */
  predicate NameMatches(log: ExecLog, keyword: string)
  {
    Contains(Lower(log.name), Lower(keyword))
  }

  /** The logs whose name matches the keyword, in their original order. */
  function Filtered(logs: seq<ExecLog>, keyword: string): (kept: seq<ExecLog>)
    ensures |kept| <= |logs|
  {
    if logs == [] then []
    else
      var log := logs[|logs| - 1];
      Filtered(logs[..|logs| - 1], keyword) + (if NameMatches(log, keyword) then [log] else [])
  }

  /** What `searchExecLogs` posts: every stored log for the empty keyword, the matching ones otherwise. */
  function SearchResult(logs: seq<ExecLog>, keyword: string): (found: seq<ExecLog>)
    ensures |found| <= |logs|
    ensures keyword == "" ==> found == logs
  {
    if keyword == "" then logs else Filtered(logs, keyword)
  }

  /** A log is kept exactly when it is one of the logs and its name matches. */
  lemma {:induction false} FilteredMembership(logs: seq<ExecLog>, keyword: string, log: ExecLog)
    ensures log in Filtered(logs, keyword) <==> log in logs && NameMatches(log, keyword)
  {
    if logs != [] {
      var init := logs[..|logs| - 1];
      FilteredMembership(init, keyword, log);
      assert logs == init + [logs[|logs| - 1]];
    }
  }

  /** Filtering works piece by piece, so the kept logs keep their relative order. */
  lemma {:induction false} FilteredAppend(a: seq<ExecLog>, b: seq<ExecLog>, keyword: string)
    ensures Filtered(a + b, keyword) == Filtered(a, keyword) + Filtered(b, keyword)
  {
    if b == [] {
      assert a + b == a;
    } else {
      var init := b[..|b| - 1];
      assert (a + b)[..|a + b| - 1] == a + init;
      FilteredAppend(a, init, keyword);
    }
  }

  /** Searching again with the same keyword changes nothing. */
  lemma {:induction false} FilteredIdempotent(logs: seq<ExecLog>, keyword: string)
    ensures Filtered(Filtered(logs, keyword), keyword) == Filtered(logs, keyword)
  {
    if logs != [] {
      var init := logs[..|logs| - 1];
      var log := logs[|logs| - 1];
      FilteredIdempotent(init, keyword);
      var tail := if NameMatches(log, keyword) then [log] else [];
      FilteredAppend(Filtered(init, keyword), tail, keyword);
      if NameMatches(log, keyword) {
        assert [log][..0] == [];
      }
    }
  }

  /**
   * Every name contains the empty keyword, so the shortcut for `''`
   * (src/inspector.ts:206-207) posts what the loop would have kept.
   */
  lemma {:induction false} EmptyKeywordKeepsAll(logs: seq<ExecLog>)
    ensures Filtered(logs, "") == logs
    ensures SearchResult(logs, "") == logs
  {
    if logs != [] {
      var init := logs[..|logs| - 1];
      EmptyKeywordKeepsAll(init);
      ContainsEmpty(Lower(logs[|logs| - 1].name));
      assert Lower("") == "";
      assert logs == init + [logs[|logs| - 1]];
    }
  }

  /**
   * `updateWebview` (src/inspector.ts:289-298): an `update` message for a non-empty
   * record list, nothing for an empty one.
   */
  function UpdateWebview(records: seq<Record>, logIndex: int): (msg: Option<WebviewMessage>)
    ensures msg.None? <==> records == []
    ensures msg.Some? ==> msg.value.Update? && msg.value.records == records && msg.value.logIndex == logIndex
  {
    if records == [] then None else Some(Update(records, logIndex))
  }

  /**
   * The `recordsUpdated` case as written (src/inspector.ts:112-121): the accumulator
   * `records` is a local of the event handler, created empty for every event, so a
   * final chunk is posted on its own.
   */
  function RecordsUpdatedAsWritten(ev: RecordsChunk): (msg: Option<WebviewMessage>)
    ensures msg.Some? <==> ev.fin && ev.records != []
    ensures msg.Some? ==> msg.value == Update(ev.records, ev.logIndex)
  {
    if ev.fin then UpdateWebview(ev.records, ev.logIndex) else None
  }

  /**
   * One `recordsUpdated` event with the accumulator kept between events: the chunk
   * is appended to the records still pending, and on `fin` all of them are posted
   * and the accumulator is emptied (the `records = []` of src/inspector.ts:119).
   */
  function RecordsStep(pending: seq<Record>, ev: RecordsChunk): (seq<Record>, Option<WebviewMessage>)
  {
    var records := pending + ev.records;
    if ev.fin then ([], UpdateWebview(records, ev.logIndex)) else (records, None)
  }

  /** The pending records and the messages posted after a sequence of `recordsUpdated` events. */
  function Delivered(pending: seq<Record>, evs: seq<RecordsChunk>): (seq<Record>, seq<WebviewMessage>)
  {
    if evs == [] then (pending, [])
    else
      var before := Delivered(pending, evs[..|evs| - 1]);
      var step := RecordsStep(before.0, evs[|evs| - 1]);
      (step.0, before.1 + (if step.1.Some? then [step.1.value] else []))
  }

  /** The records of a sequence of chunks, in arrival order. */
  function Flatten(evs: seq<RecordsChunk>): seq<Record>
  {
    if evs == [] then [] else Flatten(evs[..|evs| - 1]) + evs[|evs| - 1].records
  }

  /** Chunks without `fin` only accumulate: nothing is posted and every record stays pending, in order. */
  lemma {:induction false} ChunksAccumulate(pending: seq<Record>, evs: seq<RecordsChunk>)
    requires forall i :: 0 <= i < |evs| ==> !evs[i].fin
    ensures Delivered(pending, evs) == (pending + Flatten(evs), [])
  {
    if evs != [] {
      var init := evs[..|evs| - 1];
      var last := evs[|evs| - 1];
      ChunksAccumulate(pending, init);
      assert !last.fin;
      assert RecordsStep(pending + Flatten(init), last) == (pending + Flatten(init) + last.records, None);
      assert pending + Flatten(init) + last.records == pending + Flatten(evs);
      assert Delivered(pending, init).1 + [] == [];
    } else {
      assert pending + [] == pending;
    }
  }

  /**
   * With the accumulator kept between events, a batch of chunks ending with `fin`
   * posts exactly one `update`, carrying every record of the batch in arrival order
   * (none when the batch is empty), and leaves nothing pending.
   */
  lemma BatchDelivered(evs: seq<RecordsChunk>)
    requires |evs| > 0 && evs[|evs| - 1].fin
    requires forall i :: 0 <= i < |evs| - 1 ==> !evs[i].fin
    ensures Delivered([], evs) == ([], if Flatten(evs) == [] then [] else [Update(Flatten(evs), evs[|evs| - 1].logIndex)])
  {
    var init := evs[..|evs| - 1];
    ChunksAccumulate([], init);
    assert [] + Flatten(init) == Flatten(init);
    assert Flatten(init) + evs[|evs| - 1].records == Flatten(evs);
  }

  /**
   * Two chunks of one batch: as written only the second chunk's record reaches the
   * webview; with the accumulator kept, both do, in order.
   */
  lemma EarlierChunksDropped(r1: Record, r2: Record)
    requires r1 != r2
    ensures var evs := [RecordsChunk([r1], false, 0), RecordsChunk([r2], true, 7)];
      && RecordsUpdatedAsWritten(evs[0]) == None
      && RecordsUpdatedAsWritten(evs[1]) == Some(Update([r2], 7))
      && r1 !in RecordsUpdatedAsWritten(evs[1]).value.records
      && Delivered([], evs).1 == [Update([r1, r2], 7)]
  {
    var evs := [RecordsChunk([r1], false, 0), RecordsChunk([r2], true, 7)];
    BatchDelivered(evs);
    assert evs[..1] == [evs[0]];
    assert evs[..1][..0] == [];
    assert Flatten(evs[..1]) == [r1];
    assert Flatten(evs) == [r1, r2];
  }

  class InspectorPanel {
    var variablesReference: int
    var threadId: int
    var execLogs: seq<ExecLog>
    var currentLogIndex: int
    /** Set while a step request is out and its `execLogsUpdated` event has not arrived. */
    var waitingExecLogs: bool
    var totalLength: int
    /** Records of the current `recordsUpdated` batch not yet posted (kept between events). */
    var pendingRecords: seq<Record>

    /**
     * The field initialisers and constructor (src/inspector.ts:86-108): no logs, log
     * index -1, not waiting, and the given variables reference (0 when none is given).
     * The request the constructor then sends for a given reference is `Open`'s.
     */
    constructor (reference: Option<int>)
      ensures execLogs == [] && currentLogIndex == -1 && !waitingExecLogs && totalLength == 0
      ensures threadId == 0 && pendingRecords == []
      ensures variablesReference == if reference.Some? then reference.value else 0
    {
      variablesReference := if reference.Some? then reference.value else 0;
      threadId := 0;
      execLogs := [];
      currentLogIndex := -1;
      waitingExecLogs := false;
      totalLength := 0;
      pendingRecords := [];
    }

    /**
     * The `customStepIn` message (src/inspector.ts:151-156): ignored while waiting for
     * logs; otherwise the step is requested and the panel waits.
     */
    method OnStepIn(times: int) returns (req: Option<Request>)
      modifies this`waitingExecLogs
      ensures req.Some? <==> !old(waitingExecLogs)
      ensures req.Some? ==> req.value == CustomStepIn(times)
      ensures waitingExecLogs
    {
      if waitingExecLogs {
        return None;
      }
      req := Some(CustomStepIn(times));
      waitingExecLogs := true;
    }

    /**
     * The `customStepBack` message (src/inspector.ts:157-165): ignored while waiting
     * for logs or at log index 0; otherwise the step is requested and the panel waits.
     */
    method OnStepBack(times: int) returns (req: Option<Request>)
      modifies this`waitingExecLogs
      ensures req.Some? <==> !old(waitingExecLogs) && currentLogIndex != 0
      ensures req.Some? ==> req.value == CustomStepBack(times) && waitingExecLogs
      ensures req.None? ==> waitingExecLogs == old(waitingExecLogs)
    {
      if waitingExecLogs {
        return None;
      }
      if currentLogIndex == 0 {
        return None;
      }
      req := Some(CustomStepBack(times));
      waitingExecLogs := true;
    }

    /**
     * The `execLogsUpdated` event (src/inspector.ts:122-125): clears the wait, records
     * the thread and requests the first page of logs.
     */
    method OnExecLogsUpdated(thread: int) returns (req: Request)
      modifies this`waitingExecLogs, this`threadId
      ensures !waitingExecLogs && threadId == thread
      ensures req == GetExecLogs(thread, 0, HostPageSize)
    {
      waitingExecLogs := false;
      threadId := thread;
      req := RequestExecLogs(0, HostPageSize);
    }

    /** `getExecLogs` (src/inspector.ts:223-230), the request half: the page asked for, on the stored thread. */
    method RequestExecLogs(offset: int, pageSize: int) returns (req: Request)
      ensures req == GetExecLogs(threadId, offset, pageSize)
    {
      req := GetExecLogs(threadId, offset, pageSize);
    }

    /**
     * `getExecLogs` (src/inspector.ts:231-245), the response half: a response
     * overwrites the stored logs, log index and total length and is posted on; a
     * failed request changes nothing and posts nothing.
     */
    method ReceiveExecLogs(resp: Option<ExecLogsResponse>) returns (msg: Option<WebviewMessage>)
      modifies this`execLogs, this`currentLogIndex, this`totalLength
      ensures resp.None? ==> && msg.None? && execLogs == old(execLogs)
                             && currentLogIndex == old(currentLogIndex) && totalLength == old(totalLength)
      ensures resp.Some? ==> && execLogs == resp.value.logs
                             && currentLogIndex == resp.value.currentLogIndex
                             && totalLength == resp.value.totalLength
                             && msg == Some(ExecLogsUpdated(execLogs, currentLogIndex, totalLength))
    {
      if resp.None? {
        return None;
      }
      var r := resp.value;
      execLogs := r.logs;
      currentLogIndex := r.currentLogIndex;
      totalLength := r.totalLength;
      msg := Some(ExecLogsUpdated(r.logs, r.currentLogIndex, r.totalLength));
    }

    /**
     * `searchExecLogs` (src/inspector.ts:204-221): posts the stored logs for the empty
     * keyword, otherwise the ones whose lower-cased name contains the lower-cased
     * keyword, in order, with the stored log index and total length.
     */
    method SearchExecLogs(keyword: string) returns (msg: WebviewMessage)
      ensures msg == ExecLogsUpdated(SearchResult(execLogs, keyword), currentLogIndex, totalLength)
    {
      var logs := [];
      if keyword == "" {
        logs := execLogs;
      } else {
        for i := 0 to |execLogs|
          invariant logs == Filtered(execLogs[..i], keyword)
        {
          assert execLogs[..i + 1][..i] == execLogs[..i];
          if !Contains(Lower(execLogs[i].name), Lower(keyword)) {
            continue;
          }
          logs := logs + [execLogs[i]];
        }
        assert execLogs[..|execLogs|] == execLogs;
      }
      msg := ExecLogsUpdated(logs, currentLogIndex, totalLength);
    }

    /**
     * `evalExpression` (src/inspector.ts:248-260), the request half: nothing for an
     * empty expression, otherwise the first page of its value in the current frame.
     */
    method EvalExpression(expression: string, pageSize: int, frameId: int) returns (req: Option<Request>)
      ensures req.None? <==> expression == ""
      ensures req.Some? ==> req.value == CustomEvaluate(expression, frameId, 0, pageSize)
    {
      if expression == "" {
        return None;
      }
      req := Some(CustomEvaluate(expression, frameId, 0, pageSize));
    }

    /**
     * `evalExpression` (src/inspector.ts:261-271), the response half: the result's
     * variables reference is stored and the result is posted; a failure changes nothing.
     */
    method ReceiveEvaluation(resp: Option<ObjectResponse>) returns (msg: Option<WebviewMessage>)
      modifies this`variablesReference
      ensures resp.None? ==> msg.None? && variablesReference == old(variablesReference)
      ensures resp.Some? ==> variablesReference == resp.value.variablesReference
                             && msg == Some(ObjectInspected(resp.value))
    {
      if resp.None? {
        return None;
      }
      variablesReference := resp.value.variablesReference;
      msg := Some(ObjectInspected(resp.value));
    }

    /** `visualizeObjects` (src/inspector.ts:183-192), the request half: a page of the stored reference. */
    method VisualizeObjects(offset: int, pageSize: int) returns (req: Request)
      ensures req == CustomVariable(variablesReference, offset, pageSize)
    {
      req := CustomVariable(variablesReference, offset, pageSize);
    }

    /**
     * `visualizeObjects` (src/inspector.ts:193-201), the response half: the response is
     * posted as it is, nothing on failure; the stored reference is not touched.
     */
    method ReceiveVariable(resp: Option<ObjectResponse>) returns (msg: Option<WebviewMessage>)
      ensures resp.None? <==> msg.None?
      ensures resp.Some? ==> msg == Some(ObjectInspected(resp.value))
    {
      if resp.None? {
        return None;
      }
      msg := Some(ObjectInspected(resp.value));
    }

    /**
     * The `recordsUpdated` event with the accumulator kept between events: each chunk
     * is appended to the pending records, and the final chunk posts them all through
     * `updateWebview` and empties the accumulator.
     */
    method OnRecordsUpdated(ev: RecordsChunk) returns (msg: Option<WebviewMessage>)
      modifies this`pendingRecords
      ensures (pendingRecords, msg) == RecordsStep(old(pendingRecords), ev)
    {
      pendingRecords := pendingRecords + ev.records;
      msg := None;
      if ev.fin {
        msg := UpdateWebview(pendingRecords, ev.logIndex);
        pendingRecords := [];
      }
    }
  }

  /**
   * Opening an inspector (src/inspector.ts:93-108): the panel starts as its
   * constructor leaves it, and when a variables reference is given the first page of
   * that object, 30 values from offset 0, is requested straight away.
   */
  method Open(reference: Option<int>) returns (panel: InspectorPanel, req: Option<Request>)
    ensures fresh(panel)
    ensures panel.execLogs == [] && panel.currentLogIndex == -1 && !panel.waitingExecLogs
    ensures panel.totalLength == 0 && panel.threadId == 0 && panel.pendingRecords == []
    ensures panel.variablesReference == if reference.Some? then reference.value else 0
    ensures reference.None? <==> req.None?
    ensures reference.Some? ==> req == Some(CustomVariable(reference.value, 0, HostPageSize))
  {
    panel := new InspectorPanel(reference);
    req := None;
    if reference.Some? {
      var r := panel.VisualizeObjects(0, HostPageSize);
      req := Some(r);
    }
  }
}
