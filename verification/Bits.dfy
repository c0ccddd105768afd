/** Powers of two and bitwise gates on natural numbers, defined bit by bit. */
module Bits {

  const WORD_RANGE: int := 0x1_0000_0000

  /** A 32-bit word, as section 3.2 of FIPS 180-4 uses it. */
  type Word = x: int | 0 <= x < WORD_RANGE

  /** Addition modulo 2^32. */
  function Plus(x: Word, y: Word): Word {
    (x + y) % WORD_RANGE
  }

  datatype Gate = And | Or | Xor

  function Pow2(n: nat): (r: nat)
    ensures r > 0
  {
    if n == 0 then 1 else 2 * Pow2(n - 1)
  }

  function Apply(g: Gate, a: nat, b: nat): nat {
    match g
    case And => if a == 1 && b == 1 then 1 else 0
    case Or => if a == 1 || b == 1 then 1 else 0
    case Xor => if a != b then 1 else 0
  }

  /** The gate applied to every pair of binary digits; all three gates send (0, 0) to 0. */
  function Bitwise(g: Gate, x: nat, y: nat): nat
    decreases x + y
  {
    if x == 0 && y == 0 then 0
    else Apply(g, x % 2, y % 2) + 2 * Bitwise(g, x / 2, y / 2)
  }

  lemma {:induction false} BitwiseBound(g: Gate, x: nat, y: nat, n: nat)
    requires x < Pow2(n) && y < Pow2(n)
    ensures Bitwise(g, x, y) < Pow2(n)
  {
    if n > 0 && !(x == 0 && y == 0) {
      BitwiseBound(g, x / 2, y / 2, n - 1);
    }
  }

  lemma DoubleProduct(x: nat, p: nat)
    ensures x * (2 * p) == 2 * (x * p) && (2 * p) * x == 2 * (p * x)
  {
  }

  lemma {:induction false} Pow2Add(m: nat, n: nat)
    ensures Pow2(m + n) == Pow2(m) * Pow2(n)
  {
    if m > 0 {
      Pow2Add(m - 1, n);
      DoubleProduct(Pow2(n), Pow2(m - 1));
    }
  }

  /** Or-ing numbers whose binary digits do not overlap adds them. */
  lemma {:induction false} OrDisjoint(x: nat, y: nat, n: nat)
    requires y < Pow2(n)
    ensures Bitwise(Or, x * Pow2(n), y) == x * Pow2(n) + y
    ensures Bitwise(Or, y, x * Pow2(n)) == x * Pow2(n) + y
  {
    if n == 0 {
      OrZero(x);
    } else {
      DoubleProduct(x, Pow2(n - 1));
      OrDisjoint(x, y / 2, n - 1);
    }
  }

  lemma {:induction false} OrZero(x: nat)
    ensures Bitwise(Or, x, 0) == x && Bitwise(Or, 0, x) == x
  {
    if x > 0 {
      OrZero(x / 2);
    }
  }

  /** And-ing with n ones keeps the n low digits. */
  lemma {:induction false} AndMask(x: nat, n: nat)
    ensures Bitwise(And, x, Pow2(n) - 1) == Low(x, n)
  {
    if n == 0 {
      AndZero(x);
    } else {
      var m := Pow2(n - 1);
      assert (2 * m - 1) / 2 == m - 1;
      AndMask(x / 2, n - 1);
    }
  }

  lemma {:induction false} AndZero(x: nat)
    ensures Bitwise(And, x, 0) == 0
  {
    if x > 0 {
      AndZero(x / 2);
    }
  }

  /** Flipping n digits is subtraction from n ones. */
  lemma {:induction false} XorOnes(x: nat, n: nat)
    requires x < Pow2(n)
    ensures Bitwise(Xor, x, Pow2(n) - 1) == Pow2(n) - 1 - x
  {
    if n > 0 {
      var m := Pow2(n - 1);
      assert (2 * m - 1) / 2 == m - 1;
      XorOnes(x / 2, n - 1);
    }
  }

  /** x without its n low binary digits. */
  function High(x: nat, n: nat): (r: nat)
    ensures r <= x
    decreases n
  {
    if n == 0 then x else High(x / 2, n - 1)
  }

  /** The n low binary digits of x. */
  function Low(x: nat, n: nat): (r: nat)
    ensures r < Pow2(n)
    decreases n
  {
    if n == 0 then 0 else x % 2 + 2 * Low(x / 2, n - 1)
  }

  lemma {:induction false} SplitAt(x: nat, n: nat)
    ensures x == High(x, n) * Pow2(n) + Low(x, n)
  {
    if n > 0 {
      SplitAt(x / 2, n - 1);
      DoubleProduct(High(x / 2, n - 1), Pow2(n - 1));
    }
  }

  lemma {:induction false} SplitUnique(h: nat, l: nat, n: nat)
    requires l < Pow2(n)
    ensures High(h * Pow2(n) + l, n) == h && Low(h * Pow2(n) + l, n) == l
  {
    if n > 0 {
      DoubleProduct(h, Pow2(n - 1));
      SplitUnique(h, l / 2, n - 1);
    }
  }

  lemma {:induction false} HighBound(x: nat, m: nat, n: nat)
    requires x < Pow2(m + n)
    ensures High(x, n) < Pow2(m)
  {
    if n > 0 {
      HighBound(x / 2, m, n - 1);
    }
  }

  lemma WordIsPow2()
    ensures Pow2(8) == 0x100 && Pow2(16) == 0x1_0000 && Pow2(24) == 0x100_0000
    ensures Pow2(32) == WORD_RANGE
  {
    assert Pow2(4) == 16;
    Pow2Add(4, 4);
    Pow2Add(8, 8);
    Pow2Add(8, 16);
    Pow2Add(16, 16);
  }

  function WordGate(g: Gate, x: Word, y: Word): Word {
    WordIsPow2();
    BitwiseBound(g, x, y, 32);
    Bitwise(g, x, y)
  }
}
