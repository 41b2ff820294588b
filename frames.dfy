/**
 * The frame records both panels display, and the argument text they render
 * next to a frame's name.
 */
module Frames {
  import opened Wrappers
  import opened Text

  /** A call argument as the debug session reports it; `value` is its display text. */
  datatype Arg = Arg(name: string, value: string)

  /** A steppable position of a record in the main panel; `current` marks the live one. */
  datatype Location = Location(name: string, current: bool)

  /**
   * A call-frame instance of the main panel: its locations occupy the cursors
   * `[beginCursor, beginCursor + |locations|)`.
   */
  datatype Record = Record(
    index: int,
    name: string,
    frameDepth: int,
    beginCursor: int,
    locations: seq<Location>,
    args: Option<seq<Arg>>)

  /** A location of the history panel, carrying its absolute log index. */
  datatype ExecLocation = ExecLocation(index: int, name: string)

  /** A frame of the history panel. */
  datatype ExecLog = ExecLog(name: string, depth: int, args: Option<seq<Arg>>, locations: seq<ExecLocation>)

  /** One past the last cursor of a record. */
  function EndCursor(r: Record): int
  {
    r.beginCursor + |r.locations|
  }

  /** Consecutive records cover adjacent cursor ranges. */
  predicate Contiguous(records: seq<Record>)
  {
    forall i :: 0 <= i < |records| - 1 ==> EndCursor(records[i]) == records[i + 1].beginCursor
  }

  /** Every record's `index` is its position in the list. */
  predicate Indexed(records: seq<Record>)
  {
    forall i :: 0 <= i < |records| ==> records[i].index == i
  }

  /**
   * The rendered indentation of a list of frames with the given depths: one per
   * frame, never negative, zero for the shallowest frame, and differing from the
   * first frame's exactly as the depths differ.
   */
  ghost predicate IndentedBy(indents: seq<int>, depths: seq<int>)
  {
    && |indents| == |depths| > 0
    && (forall i {:trigger indents[i]} :: 0 <= i < |depths| ==> indents[i] >= 0)
    && (exists i :: 0 <= i < |depths| && indents[i] == 0)
    && (forall i {:trigger indents[i]} :: 0 <= i < |depths| ==> indents[i] - indents[0] == depths[i] - depths[0])
  }

  /** The rendered argument text: NBSP + `name=value` for each argument, in order. */
  function ArgsText(args: seq<Arg>): string
  {
    if args == [] then ""
    else
      var a := args[|args| - 1];
      ArgsText(args[..|args| - 1]) + [NBSP] + a.name + "=" + a.value
  }

  /**
   * The text `getArgs` (media/main.js:416-427) and `_getArgs` (media/history.js:249-259)
   * put into the arguments span: nothing for `null` arguments.
   */
  method GetArgs(args: Option<seq<Arg>>) returns (data: string)
    ensures args.None? ==> data == ""
    ensures args.Some? ==> data == ArgsText(args.value)
  {
    data := "";
    if args.None? {
      return;
    }
    var list := args.value;
    for i := 0 to |list|
      invariant data == ArgsText(list[..i])
    {
      assert list[..i + 1][..i] == list[..i];
      data := data + [NBSP] + list[i].name + "=" + list[i].value;
    }
    assert list[..|list|] == list;
  }

  /** The text of a concatenation is the concatenation of the texts. */
  lemma {:induction false} ArgsTextAppend(a: seq<Arg>, b: seq<Arg>)
    ensures ArgsText(a + b) == ArgsText(a) + ArgsText(b)
  {
    if b != [] {
      var b' := b[..|b| - 1];
      assert (a + b)[..|a + b| - 1] == a + b';
      ArgsTextAppend(a, b');
    } else {
      assert a + b == a;
    }
  }

  /** Each argument contributes exactly NBSP, its name, '=' and its value. */
  lemma {:induction false} ArgsTextLength(args: seq<Arg>)
    ensures |ArgsText(args)| == |args| * 2 + SumLengths(args)
  {
    if args != [] {
      ArgsTextLength(args[..|args| - 1]);
    }
  }

  function SumLengths(args: seq<Arg>): nat
  {
    if args == [] then 0
    else SumLengths(args[..|args| - 1]) + |args[|args| - 1].name| + |args[|args| - 1].value|
  }
}
