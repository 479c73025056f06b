/** Go's int64: two's-complement wrap-around. */
module Int64 {

  const TWO63: int := 0x8000_0000_0000_0000
  const MAX: int := TWO63 - 1

  /** The int64 that a mathematical result is stored as. */
  function Wrap(x: int): (w: int)
    ensures -TWO63 <= w <= MAX
    ensures -TWO63 <= x <= MAX ==> w == x
    ensures x % 2 == 0 ==> w % 2 == 0
  {
    (x + TWO63) % (2 * TWO63) - TWO63
  }

  predicate InRange(x: int) {
    -TWO63 <= x <= MAX
  }

  lemma WrapIsShift(x: int) returns (turns: int)
    ensures Wrap(x) == x + turns * (2 * TWO63)
  {
    turns := -((x + TWO63) / (2 * TWO63));
  }

  lemma WrapAbsorbsShift(x: int, turns: int)
    ensures Wrap(x + turns * (2 * TWO63)) == Wrap(x)
  {
  }

  /** Wrapping an operand first makes no difference to a sum. */
  lemma WrapOfSum(a: int, b: int)
    ensures Wrap(Wrap(a) + b) == Wrap(a + b)
  {
    var turns := WrapIsShift(a);
    WrapAbsorbsShift(a + b, turns);
  }
}
