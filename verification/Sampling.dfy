/** The sampled position of the resampler in single precision, against the product without rounding. */
module Sampling {
  import opened Reals

  /** y is x up to half a unit in the last place of a float with 24 bits. */
  predicate Near(x: real, y: real) {
    x - x / 16777216.0 <= y <= x + x / 16777216.0
  }

  /** 2^-64 to 2^64, well inside the range of normal floats. */
  predicate InRange(x: real) {
    1.0 / 18446744073709551616.0 <= x <= 18446744073709551616.0
  }

  /** Conversion to the nearest float: what this file uses of it. */
  datatype Rounding = Rounding(fl: real -> real) {
    ghost predicate Single() {
      && (forall x, y :: x <= y ==> fl(x) <= fl(y))
      && (forall n: nat :: n <= 16777216 ==> ExactAt(n))
      && (forall x :: InRange(x) ==> Near(x, fl(x)))
    }

    predicate ExactAt(n: nat) {
      fl(n as real) == n as real
    }

    /** The scale: the quotient of the two sizes, each converted first. */
    function Scale(size: nat, target: nat): real {
      var t := fl(target as real);
      if t == 0.0 then 0.0 else fl(fl(size as real) / t)
    }

    /** The scaled position before it is cut to an integer. */
    function Position(size: nat, target: nat, i: nat): real {
      fl(Product(fl(i as real), Scale(size, target)))
    }

    function Sample(size: nat, target: nat, i: nat): nat {
      Cut(Position(size, target, i))
    }
  }

  function Product(x: real, y: real): real {
    x * y
  }

  /** A cast to an unsigned integer drops the fraction; a negative number would become 0. */
  function Cut(x: real): nat {
    if x < 0.0 then 0 else x.Floor
  }

  /** The position without rounding. */
  function ExactSample(size: nat, target: nat, i: nat): nat
    requires target > 0
  {
    i * size / target
  }

  // ---- Monotone ----

  lemma NotNegative(r: Rounding, x: real)
    requires r.Single() && x >= 0.0
    ensures r.fl(x) >= 0.0
  {
    assert r.ExactAt(0);
  }

  lemma ScaleNotNegative(r: Rounding, size: nat, target: nat)
    requires r.Single()
    ensures r.Scale(size, target) >= 0.0
  {
    NotNegative(r, size as real);
    NotNegative(r, target as real);
    var s, t := r.fl(size as real), r.fl(target as real);
    if t > 0.0 {
      QuotientBounds(s, t, 0.0);
      NotNegative(r, s / t);
    }
  }

  /** Rounded sampling never goes backwards, whatever the sizes. */
  lemma SampleMonotone(r: Rounding, size: nat, target: nat, i: nat, j: nat)
    requires r.Single() && i <= j
    ensures r.Sample(size, target, i) <= r.Sample(size, target, j)
  {
    hide Rounding.Single, Rounding.Scale;
    Monotone(r, i as real, j as real);
    PositionMonotone(r, r.fl(i as real), r.fl(j as real), size, target);
    assert r.Position(size, target, i) <= r.Position(size, target, j);
    CutMonotone(r.Position(size, target, i), r.Position(size, target, j));
  }

  lemma CutMonotone(x: real, y: real)
    requires x <= y
    ensures Cut(x) <= Cut(y)
  {
  }

  lemma Monotone(r: Rounding, x: real, y: real)
    requires r.Single() && x <= y
    ensures r.fl(x) <= r.fl(y)
  {
  }

  lemma PositionMonotone(r: Rounding, x: real, y: real, size: nat, target: nat)
    requires r.Single() && x <= y
    ensures r.fl(Product(x, r.Scale(size, target))) <= r.fl(Product(y, r.Scale(size, target)))
  {
    hide Rounding.Single, Rounding.Scale;
    ScaleNotNegative(r, size, target);
    ProductMonotone(x, y, r.Scale(size, target));
    Monotone(r, Product(x, r.Scale(size, target)), Product(y, r.Scale(size, target)));
  }

  // ---- Identity ----

  /** At equal size rounded sampling is the identity. */
  lemma SampleIdentity(r: Rounding, size: nat, i: nat)
    requires r.Single() && i < size <= 16777216
    ensures r.Sample(size, size, i) == i
  {
    assert r.ExactAt(size) && r.ExactAt(i) && r.ExactAt(1);
    UnitQuotient(size as real);
  }

  lemma UnitQuotient(x: real)
    requires x > 0.0
    ensures x / x == 1.0
  {
    QuotientBounds(x, x, 1.0);
  }

  // ---- Error bounds ----

  /** The scale is near the exact quotient. */
  lemma ScaleNear(r: Rounding, size: nat, target: nat)
    requires r.Single() && 1 <= size <= 16777216 && 1 <= target <= 16777216
    ensures var q := size as real / target as real;
            1.0 / 16777216.0 <= q <= 16777216.0 && Near(q, r.Scale(size, target))
  {
    assert r.ExactAt(size) && r.ExactAt(target);
    var q := size as real / target as real;
    QuotientBounds(size as real, target as real, 1.0 / 16777216.0);
    QuotientBounds(size as real, target as real, 16777216.0);
    assert InRange(q);
  }

  /** A position is the exact product moved by two roundings. */
  lemma PositionBounds(r: Rounding, size: nat, target: nat, i: nat, p: real)
    requires r.Single() && 1 <= size <= 16777216 && i < target <= 16777216
    requires p == i as real * (size as real / target as real)
    ensures p >= 0.0 && TwiceNear(p, r.Position(size, target, i))
  {
    hide TwiceNear, Near, InRange, Rounding.Scale, Rounding.Single;
    var q, s := size as real / target as real, r.Scale(size, target);
    var m := Product(i as real, s);
    ScaleNear(r, size, target);
    Exact(r, i);
    if i == 0 {
      Exact(r, 0);
      ZeroNear();
      assert m == 0.0 && p == 0.0;
      assert r.Position(size, target, i) == r.fl(m);
    } else {
      ProductNear(i as real, q, s, p, m);
      Rounds(r, m);
      NearNear(p, m, r.fl(m));
      assert r.Position(size, target, i) == r.fl(m);
    }
  }

  lemma Exact(r: Rounding, n: nat)
    requires r.Single() && n <= 16777216
    ensures r.fl(n as real) == n as real
  {
    assert r.ExactAt(n);
  }

  lemma Rounds(r: Rounding, x: real)
    requires r.Single() && InRange(x)
    ensures Near(x, r.fl(x))
  {
  }

  /** y is x moved by two roundings. */
  predicate TwiceNear(x: real, y: real) {
    x - x / 8388608.0 <= y <= x + x / 8388608.0 + x / 281474976710656.0
  }

  lemma ZeroNear()
    ensures TwiceNear(0.0, 0.0)
  {
  }

  lemma NearNear(p: real, m: real, c: real)
    requires p >= 0.0 && Near(p, m) && Near(m, c)
    ensures TwiceNear(p, c)
  {
  }

  lemma ProductNear(x: real, q: real, s: real, p: real, m: real)
    requires 1.0 <= x <= 16777216.0 && 1.0 / 16777216.0 <= q <= 16777216.0 && Near(q, s) && p == x * q && m == x * s
    ensures p >= 0.0 && Near(p, m) && InRange(m)
  {
    hide Near, InRange;
    ScaledNear(x, q, s);
    ProductRange(x, q, p);
    NearInRange(p, m);
  }

  lemma ProductRange(x: real, q: real, p: real)
    requires 1.0 <= x <= 16777216.0 && 1.0 / 16777216.0 <= q <= 16777216.0 && p == x * q
    ensures 1.0 / 16777216.0 <= p <= 281474976710656.0
  {
    ProductsOrdered(x, 16777216.0, q, p, 16777216.0 * q);
    ProductsOrdered(1.0, x, q, q, p);
  }

  lemma NearInRange(p: real, m: real)
    requires 1.0 / 16777216.0 <= p <= 281474976710656.0 && Near(p, m)
    ensures InRange(m)
  {
  }

  lemma ScaledNear(x: real, q: real, s: real)
    requires x >= 0.0 && Near(q, s)
    ensures Near(x * q, x * s)
  {
    ProductMonotone(q - q / 16777216.0, s, x);
    ProductMonotone(s, q + q / 16777216.0, x);
    assert (q - q / 16777216.0) * x == x * q - (x * q) / 16777216.0;
    assert (q + q / 16777216.0) * x == x * q + (x * q) / 16777216.0;
  }

  /** In single precision the position stays inside the source, so the clamp never acts. */
  lemma SampleInside(r: Rounding, size: nat, target: nat, i: nat)
    requires r.Single() && 1 <= size <= 16777216 && i < target <= 4194304
    ensures r.Sample(size, target, i) < size
  {
    hide Rounding.Position, Rounding.Single, TwiceNear;
    var q, t, c := size as real / target as real, target as real, r.Position(size, target, i);
    var p := i as real * q;
    PositionBounds(r, size, target, i, p);
    PositiveQuotient(size as real, t);
    ProductMonotone(i as real, t - 1.0, q);
    BelowLast(p, q, t, c);
  }

  /** Two roundings do not carry a position from the last one to the size. */
  lemma BelowLast(p: real, q: real, t: real, c: real)
    requires q > 0.0 && 1.0 <= t <= 4194304.0 && 0.0 <= p <= (t - 1.0) * q && TwiceNear(p, c)
    ensures c < q * t
  {
    assert (t - 1.0) * q == q * t - q;
    ProductMonotone(t, 4194304.0, q);
  }

  /** For sources of up to 2^22 pixels the position is within one pixel of the exact one. */
  lemma SampleNear(r: Rounding, size: nat, target: nat, i: nat)
    requires r.Single() && 1 <= size <= 4194304 && i < target <= 16777216
    ensures ExactSample(size, target, i) - 1 <= r.Sample(size, target, i) <= ExactSample(size, target, i) + 1
  {
    hide Rounding.Position, Rounding.Single;
    var p := i as real * (size as real / target as real);
    PositionBounds(r, size, target, i, p);
    ExactPosition(size, target, i, p);
  }

  lemma ExactPosition(size: nat, target: nat, i: nat, p: real)
    requires i < target && p == i as real * (size as real / target as real)
    ensures 0.0 <= p <= size as real && p.Floor == ExactSample(size, target, i)
  {
    var q, t := size as real / target as real, target as real;
    QuotientOfProduct(size as real, t);
    QuotientBounds(size as real, t, 0.0);
    ProductMonotone(i as real, t, q);
    ProductMonotone(0.0, i as real, q);
    assert p * t == i as real * size as real;
    SameQuotient(p, i as real * size as real, t);
    assert (i * size) as real == i as real * size as real;
    FloorOfQuotient(i * size, target);
  }

  lemma SameQuotient(p: real, a: real, t: real)
    requires t > 0.0 && p * t == a
    ensures p == a / t
  {
    QuotientOfProduct(p, t);
  }
}
