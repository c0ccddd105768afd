/** JavaScript numbers restricted to integers: conversions to 32 bits and the operators of index.js that use them. */
module JsNumber {
  import opened Bits

  const HALF_RANGE: int := 0x8000_0000

  /** Integers that a double represents exactly; inside this range JavaScript addition is integer addition. */
  predicate IsSafe(x: int) {
    -0x20_0000_0000_0000 <= x <= 0x20_0000_0000_0000
  }

  predicate IsInt32(x: int) {
    -HALF_RANGE <= x < HALF_RANGE
  }

  function ToUint32(x: int): Word {
    x % WORD_RANGE
  }

  function ToInt32(x: int): (r: int)
    ensures IsInt32(r)
    ensures ToUint32(r) == ToUint32(x)
  {
    var u := ToUint32(x);
    if u >= HALF_RANGE then u - WORD_RANGE else u
  }

  /** The words a list of numbers stands for. */
  function Words(s: seq<int>): (ws: seq<Word>)
    ensures |ws| == |s|
  {
    seq(|s|, i requires 0 <= i < |s| => ToUint32(s[i]))
  }

  function Operator(g: Gate, x: int, y: int): int {
    ToInt32(WordGate(g, ToUint32(x), ToUint32(y)))
  }

  function BitNot(x: int): int {
    -ToInt32(x) - 1
  }

  function ShiftLeft(x: int, n: nat): int
    requires n < 32
  {
    ToInt32(ToUint32(x) * Pow2(n))
  }

  function ShiftRight(x: int, n: nat): (r: nat)
    requires n < 32
  {
    High(ToUint32(x), n)
  }

  function RightRotate(value: int, amount: nat): int
    requires 0 < amount < 32
  {
    Operator(Or, ShiftRight(value, amount), ShiftLeft(value, 32 - amount))
  }

  lemma OperatorWord(g: Gate, x: int, y: int)
    ensures ToUint32(Operator(g, x, y)) == WordGate(g, ToUint32(x), ToUint32(y))
    ensures IsInt32(Operator(g, x, y))
  {
  }

  lemma BitNotWord(x: int)
    ensures ToUint32(BitNot(x)) == WORD_RANGE - 1 - ToUint32(x)
  {
  }

  lemma SumWord(x: int, y: int)
    ensures ToUint32(x + y) == Plus(ToUint32(x), ToUint32(y))
  {
  }
}
