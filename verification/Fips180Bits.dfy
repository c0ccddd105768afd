/** The functions of FIPS 180-4 on single bits, as sections 2.2.2 and 3.2 describe them. */
module Fips180Bits {
  import opened Bits
  import opened Fips180

  /** Bit i of a number, the lowest first. */
  function Bit(x: nat, i: nat): nat
    decreases i
  {
    if i == 0 then x % 2 else Bit(x / 2, i - 1)
  }

  /** A gate works on each pair of bits on its own. */
  lemma {:induction false} BitOfGate(g: Gate, x: nat, y: nat, i: nat)
    ensures Bit(Bitwise(g, x, y), i) ==
            match g
            case And => if Bit(x, i) == 1 && Bit(y, i) == 1 then 1 else 0
            case Or => if Bit(x, i) == 1 || Bit(y, i) == 1 then 1 else 0
            case Xor => if Bit(x, i) != Bit(y, i) then 1 else 0
    decreases i
  {
    if x == 0 && y == 0 {
      BitOfZero(i);
    } else if i > 0 {
      BitOfGate(g, x / 2, y / 2, i - 1);
    }
  }

  lemma {:induction false} BitOfZero(i: nat)
    ensures Bit(0, i) == 0
  {
    if i > 0 {
      BitOfZero(i - 1);
    }
  }

  lemma {:induction false} BitOfHigh(x: nat, n: nat, i: nat)
    ensures Bit(High(x, n), i) == Bit(x, n + i)
    decreases n
  {
    if n > 0 {
      BitOfHigh(x / 2, n - 1, i);
    }
  }

  lemma {:induction false} BitIsBinary(x: nat, i: nat)
    ensures Bit(x, i) == 0 || Bit(x, i) == 1
    decreases i
  {
    if i > 0 {
      BitIsBinary(x / 2, i - 1);
    }
  }

  /** Shr moves every bit down. */
  lemma BitOfShr(n: nat, x: Word, i: nat)
    ensures Bit(Shr(n, x), i) == Bit(x, n + i)
  {
    BitOfHigh(x, n, i);
  }

  /** A sum of a multiple of 2^n and a smaller number has the bits of both. */
  lemma {:induction false} BitOfSum(h: nat, l: nat, n: nat, i: nat)
    requires l < Pow2(n)
    ensures Bit(h * Pow2(n) + l, i) == if i < n then Bit(l, i) else Bit(h, i - n)
    decreases n
  {
    if n > 0 {
      DoubleProduct(h, Pow2(n - 1));
      if i > 0 {
        BitOfSum(h, l / 2, n - 1, i - 1);
      }
    }
  }

  lemma {:induction false} BitOfLow(x: nat, n: nat, i: nat)
    requires i < n
    ensures Bit(Low(x, n), i) == Bit(x, i)
    decreases n
  {
    if i > 0 {
      BitOfLow(x / 2, n - 1, i - 1);
    }
  }

  /** Rotr moves the bits down in a circle. */
  lemma BitOfRotr(n: nat, x: Word, i: nat)
    requires 0 < n < 32 && i < 32
    ensures Bit(Rotr(n, x), i) == Bit(x, (i + n) % 32)
  {
    hide Bit, Low, High, Pow2;
    RotrBound(n, x);
    BitOfSum(Low(x, n), High(x, n), 32 - n, i);
    if i < 32 - n {
      BitOfHigh(x, n, i);
    } else {
      BitOfLow(x, n, i - (32 - n));
    }
  }

  /** Not flips every bit of the word. */
  lemma BitOfNot(x: Word, i: nat)
    requires i < 32
    ensures Bit(Not(x), i) == 1 - Bit(x, i)
  {
    WordIsPow2();
    XorOnes(x, 32);
    BitOfGate(Xor, x, Pow2(32) - 1, i);
    BitOfOnes(32, i);
    BitIsBinary(x, i);
  }

  lemma {:induction false} BitOfOnes(n: nat, i: nat)
    requires i < n
    ensures Bit(Pow2(n) - 1, i) == 1
    decreases n
  {
    assert (2 * Pow2(n - 1) - 1) / 2 == Pow2(n - 1) - 1;
    if i > 0 {
      BitOfOnes(n - 1, i - 1);
    }
  }

  /** Ch lets x choose between y and z, and Maj takes the majority, on each bit. */
  lemma BitOfLogic(x: Word, y: Word, z: Word, i: nat)
    requires i < 32
    ensures Bit(Ch(x, y, z), i) == if Bit(x, i) == 1 then Bit(y, i) else Bit(z, i)
    ensures Bit(Maj(x, y, z), i) == if Bit(x, i) + Bit(y, i) + Bit(z, i) >= 2 then 1 else 0
  {
    hide Bit, Bitwise, Not;
    BitOfNot(x, i);
    BitIsBinary(x, i);
    BitIsBinary(y, i);
    BitIsBinary(z, i);
    BitOfGate(And, x, y, i);
    BitOfGate(And, Not(x), z, i);
    BitOfGate(Xor, WordGate(And, x, y), WordGate(And, Not(x), z), i);
    BitOfGate(And, x, z, i);
    BitOfGate(And, y, z, i);
    BitOfGate(Xor, WordGate(And, x, y), WordGate(And, x, z), i);
    BitOfGate(Xor, WordGate(Xor, WordGate(And, x, y), WordGate(And, x, z)), WordGate(And, y, z), i);
  }
}
