/**
 * The constants of index.js come from Math.pow on doubles. A root function is accepted here if it is within
 * 2^-40 of the true root; every such function gives the tables of sections 4.2.2 and 5.3.3 of FIPS 180-4.
 */
module RootConstants {
  import opened Bits
  import opened JsNumber
  import opened Primes
  import Fips180

  const SCALE: real := 1099511627776.0  // 2^40

  ghost predicate NearSquareRoot(p: nat, r: real) {
    var x := r * SCALE;
    && x >= SCALE
    && (x - 1.0) * (x - 1.0) <= p as real * SCALE * SCALE <= (x + 1.0) * (x + 1.0)
  }

  ghost predicate NearCubeRoot(p: nat, r: real) {
    var x := r * SCALE;
    && x >= SCALE
    && (x - 1.0) * (x - 1.0) * (x - 1.0) <= p as real * SCALE * SCALE * SCALE
    && p as real * SCALE * SCALE * SCALE <= (x + 1.0) * (x + 1.0) * (x + 1.0)
  }

  /** Math.pow(c, 1/2) and Math.pow(c, 1/3) on the numbers the sieve accepts. */
  datatype Roots = Roots(square: nat -> real, cube: nat -> real) {
    ghost predicate Accurate() {
      forall p: nat :: 2 <= p <= 311 ==> NearSquareRoot(p, square(p)) && NearCubeRoot(p, cube(p))
    }
  }

  /** (root * maxWord) | 0 */
  function Fraction(root: real): (r: int)
    ensures IsInt32(r)
  {
    ToInt32((root * (WORD_RANGE as real)).Floor)
  }

  // ---- No root comes within 2^-40 of a multiple of 2^-32 ----

  /** The window of 2^-32 that starts at whole + w / 2^32, in units of 2^-40. */
  function WindowStart(whole: nat, w: Word): real {
    ((whole * WORD_RANGE + w) * 256) as real
  }

  predicate SquareWindow(p: nat, whole: nat, w: Word) {
    var low := WindowStart(whole, w);
    && SCALE <= low
    && (low + 1.0) * (low + 1.0) < p as real * SCALE * SCALE < (low + 255.0) * (low + 255.0)
  }

  predicate CubeWindow(p: nat, whole: nat, w: Word) {
    var low := WindowStart(whole, w);
    && SCALE <= low
    && (low + 1.0) * (low + 1.0) * (low + 1.0) < p as real * SCALE * SCALE * SCALE
    && p as real * SCALE * SCALE * SCALE < (low + 255.0) * (low + 255.0) * (low + 255.0)
  }

  lemma SquareReflects(a: real, b: real)
    requires 0.0 <= a && 0.0 <= b && a * a < b * b
    ensures a < b
  {
  }

  lemma CubeReflects(a: real, b: real)
    requires 0.0 <= a && 0.0 <= b && a * a * a < b * b * b
    ensures a < b
  {
    CubeMonotone(b, a);
  }

  lemma CubeMonotone(a: real, b: real)
    requires 0.0 <= a && 0.0 <= b
    ensures a <= b ==> a * a * a <= b * b * b
  {
    if a <= b {
      ProductMonotone(a, b, a, b);
      ProductMonotone(a * a, b * b, a, b);
    }
  }

  lemma ProductMonotone(a: real, b: real, c: real, d: real)
    requires 0.0 <= a <= b && 0.0 <= c <= d
    ensures 0.0 <= a * c <= b * d
  {
    assert a * c <= b * c;
    assert b * c <= b * d;
  }

  lemma SquareFraction(p: nat, r: real, whole: nat, w: Word)
    requires NearSquareRoot(p, r) && SquareWindow(p, whole, w)
    ensures ToUint32(Fraction(r)) == w
  {
    var x, low := r * SCALE, WindowStart(whole, w);
    SquareReflects(low + 1.0, x + 1.0);
    SquareReflects(x - 1.0, low + 255.0);
    InWindow(r, whole, w);
  }

  lemma CubeFraction(p: nat, r: real, whole: nat, w: Word)
    requires NearCubeRoot(p, r) && CubeWindow(p, whole, w)
    ensures ToUint32(Fraction(r)) == w
  {
    var x, low := r * SCALE, WindowStart(whole, w);
    CubeReflects(low + 1.0, x + 1.0);
    CubeReflects(x - 1.0, low + 255.0);
    InWindow(r, whole, w);
  }

  lemma InWindow(r: real, whole: nat, w: Word)
    requires WindowStart(whole, w) <= r * SCALE < WindowStart(whole, w) + 256.0
    ensures ToUint32(Fraction(r)) == w
  {
    var n := whole * WORD_RANGE + w;
    assert r * SCALE == r * (WORD_RANGE as real) * 256.0;
    assert n as real <= r * (WORD_RANGE as real) < (n + 1) as real;
    assert (r * (WORD_RANGE as real)).Floor == n;
  }

  function SquareFloor(p: nat): nat {
    if p < 4 then 1 else if p < 9 then 2 else if p < 16 then 3 else 4
  }

  function CubeFloor(p: nat): nat {
    if p < 8 then 1 else if p < 27 then 2 else if p < 64 then 3 else if p < 125 then 4 else if p < 216 then 5 else 6
  }

  ghost predicate CubeWindows(primes: seq<nat>, k: seq<Word>) {
    |primes| == |k| && forall i :: 0 <= i < |k| ==> CubeWindow(primes[i], CubeFloor(primes[i]), k[i])
  }

  lemma Windows0()
    ensures CubeWindows(Primes0(), Fips180.K0())
  {
  }

  lemma Windows1()
    ensures CubeWindows(Primes1(), Fips180.K1())
  {
  }

  lemma Windows2()
    ensures CubeWindows(Primes2(), Fips180.K2())
  {
  }

  lemma Windows3()
    ensures CubeWindows(Primes3(), Fips180.K3())
  {
  }

  lemma CubeTable()
    ensures CubeWindows(First64Primes(), Fips180.K())
  {
    Windows0();
    Windows1();
    Windows2();
    Windows3();
  }

  function VarsList(v: Fips180.Vars): (s: seq<Word>)
    ensures |s| == 8
  {
    [v.a, v.b, v.c, v.d, v.e, v.f, v.g, v.h]
  }

  lemma SquareTable()
    ensures forall i :: 0 <= i < 8 ==>
      SquareWindow(Primes0()[i], SquareFloor(Primes0()[i]), VarsList(Fips180.H0)[i])
  {
  }
}
