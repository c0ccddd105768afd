/** Relative motion in two axes, and what the agent makes of it after truncating to integers. */
module Motion {

  datatype Vec = Vec(dx: real, dy: real)

  const ZERO := Vec(0.0, 0.0)

  function Plus(a: Vec, b: Vec): Vec {
    Vec(a.dx + b.dx, a.dy + b.dy)
  }

  function Minus(a: Vec, b: Vec): Vec {
    Vec(a.dx - b.dx, a.dy - b.dy)
  }

  function Scale(k: real, v: Vec): Vec {
    Vec(k * v.dx, k * v.dy)
  }

  function Abs(x: real): real {
    if x < 0.0 then -x else x
  }

  /** The length of a step measured along the axes. */
  function AxisLength(v: Vec): (l: real)
    ensures l >= 0.0
  {
    Abs(v.dx) + Abs(v.dy)
  }

  predicate Within(v: Vec, bound: real) {
    Abs(v.dx) <= bound && Abs(v.dy) <= bound
  }

  predicate StrictlyWithin(v: Vec, bound: real) {
    Abs(v.dx) < bound && Abs(v.dy) < bound
  }

  function Sum(moves: seq<Vec>): Vec {
    if |moves| == 0 then ZERO else Plus(Sum(moves[..|moves| - 1]), moves[|moves| - 1])
  }

  lemma SumAppend(moves: seq<Vec>, v: Vec)
    ensures Sum(moves + [v]) == Plus(Sum(moves), v)
  {
    assert (moves + [v])[..|moves|] == moves;
  }

  lemma ScalePlus(k: real, a: Vec, b: Vec)
    ensures Scale(k, Plus(a, b)) == Plus(Scale(k, a), Scale(k, b))
    ensures Scale(k, Minus(a, b)) == Minus(Scale(k, a), Scale(k, b))
  {
  }

  lemma SumEmpty()
    ensures Sum([]) == ZERO
  {
  }

  /** n times x, for the bounds that grow with the number of events. */
  function Times(n: nat, x: real): real {
    n as real * x
  }

  lemma TimesNext(n: nat, x: real)
    ensures Times(0, x) == 0.0
    ensures Times(n + 1, x) == Times(n, x) + x
  {
  }

  // ---- The agent ----

  /** Python's `int` of a float: toward zero. */
  function Trunc(x: real): int {
    if x < 0.0 then -(-x).Floor else x.Floor
  }

  lemma TruncNear(x: real)
    ensures Abs(Trunc(x) as real - x) < 1.0
    ensures Trunc(x) == 0 <==> Abs(x) < 1.0
  {
  }

  /** Truncation goes toward zero and treats both directions alike, and leaves whole numbers alone. */
  lemma TruncTowardZero(x: real)
    ensures Abs(Trunc(x) as real) <= Abs(x) < Abs(Trunc(x) as real) + 1.0
    ensures x >= 0.0 ==> Trunc(x) >= 0
    ensures Trunc(-x) == -Trunc(x)
    ensures x.Floor as real == x ==> Trunc(x) == x.Floor
  {
  }

  /** The total the agent injects, each event multiplied by the unit and truncated on its own. */
  function Injected(unit: real, moves: seq<Vec>): Vec {
    if |moves| == 0 then ZERO else
      var v := moves[|moves| - 1];
      Plus(Injected(unit, moves[..|moves| - 1]), Vec(Trunc(v.dx * unit) as real, Trunc(v.dy * unit) as real))
  }

  /** Truncating n events on their own loses less than n units in all. */
  lemma {:induction false} TruncationError(unit: real, moves: seq<Vec>)
    ensures Injected(unit, []) == Scale(unit, Sum([])) == ZERO
    ensures |moves| > 0 ==> StrictlyWithin(Minus(Injected(unit, moves), Scale(unit, Sum(moves))), |moves| as real)
  {
    if |moves| > 0 {
      var front, v := moves[..|moves| - 1], moves[|moves| - 1];
      TruncationError(unit, front);
      TruncNear(v.dx * unit);
      TruncNear(v.dy * unit);
      ScalePlus(unit, Sum(front), v);
    }
  }
}
