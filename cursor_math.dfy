/**
 * Translation between absolute step cursors and the relative commands the panels send
 * to the debug session: `goBackTo` steps back `times` positions, `goTo` steps forward.
 */
module CursorMath {
  datatype Command = GoBackTo(times: nat) | GoTo(times: nat)

  /** Where the debuggee ends up when `c` is executed at cursor `from`. */
  function Apply(c: Command, from: int): int
  {
    match c
    case GoBackTo(n) => from - n
    case GoTo(n) => from + n
  }

  function Abs(x: int): nat
  {
    if x < 0 then -x else x
  }

  /**
   * The command that moves from `reference` to `target`: with
   * `times = reference - target`, `goBackTo` when it is positive, otherwise `goTo`
   * with its absolute value (so equal cursors give `goTo 0`).
   */
  function ToCommand(target: int, reference: int): (c: Command)
    ensures Apply(c, reference) == target
    ensures c.GoBackTo? <==> target < reference
    ensures c.times == Abs(reference - target)
  {
    var times := reference - target;
    if times > 0 then GoBackTo(times) else GoTo(Abs(times))
  }

  /** ToCommand is the only command that reaches the target without being `goBackTo 0`. */
  lemma ToCommandUnique(c: Command, target: int, reference: int)
    requires Apply(c, reference) == target
    requires c.GoBackTo? ==> c.times > 0
    ensures c == ToCommand(target, reference)
  {
  }
}
