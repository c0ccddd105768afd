/** The compression loop of index.js, on unreduced signed sums and a rotating list, refines FIPS 180-4. */
module Sha256Rounds {
  import opened Bits
  import opened JsNumber
  import opened Fips180

  /** The eight words a list of JavaScript numbers stands for. */
  function Abstract(hash: seq<int>): Vars
    requires |hash| >= 8
  {
    Vars(ToUint32(hash[0]), ToUint32(hash[1]), ToUint32(hash[2]), ToUint32(hash[3]),
         ToUint32(hash[4]), ToUint32(hash[5]), ToUint32(hash[6]), ToUint32(hash[7]))
  }

  predicate AllInt32(s: seq<int>) {
    forall i :: 0 <= i < |s| ==> IsInt32(s[i])
  }

  /** Schedule entries: signed results of operators, or the length, an unsigned word. */
  predicate IsEntry(x: int) {
    -HALF_RANGE <= x < WORD_RANGE
  }

  predicate AllEntries(s: seq<int>) {
    forall i :: 0 <= i < |s| ==> IsEntry(s[i])
  }

  // ---- The operators mean the functions of section 4.1.2 ----

  lemma RotateMeans(v: int, n: nat)
    requires 0 < n < 32
    ensures ToUint32(RightRotate(v, n)) == Rotr(n, ToUint32(v))
  {
    var x := ToUint32(v);
    hide ToUint32, ToInt32, ShiftRight, ShiftLeft;
    ShiftMeans(v, n);
    RotrBound(n, x);
    OrDisjoint(Low(x, n), High(x, n), 32 - n);
    OperatorWord(Or, ShiftRight(v, n), ShiftLeft(v, 32 - n));
  }

  lemma ShiftMeans(v: int, n: nat)
    requires 0 < n < 32
    ensures ToUint32(ShiftRight(v, n)) == High(ToUint32(v), n)
    ensures ToUint32(ShiftLeft(v, 32 - n)) == Low(ToUint32(v), n) * Pow2(32 - n)
  {
    var x := ToUint32(v);
    var h, l, p, q := High(x, n), Low(x, n), Pow2(n), Pow2(32 - n);
    SplitAt(x, n);
    RotrBound(n, x);
    TopBits(x, h, l, p, q) by {
      Pow2Add(n, 32 - n);
      WordIsPow2();
    }
  }

  /** Multiplying by q drops the high digits that leave the word. */
  lemma TopBits(x: nat, h: nat, l: nat, p: nat, q: nat)
    requires x == h * p + l && p * q == WORD_RANGE && l * q < WORD_RANGE
    ensures (x * q) % WORD_RANGE == l * q
  {
    assert x * q == h * (p * q) + l * q;
    RemoveMultiple(h, l * q);
  }

  lemma RemoveMultiple(h: nat, l: nat)
    requires l < WORD_RANGE
    ensures (h * WORD_RANGE + l) % WORD_RANGE == l
  {
  }

  function Sigma(v: int, a: nat, b: nat, c: nat): int
    requires 0 < a < 32 && 0 < b < 32 && 0 < c < 32
  {
    Operator(Xor, Operator(Xor, RightRotate(v, a), RightRotate(v, b)), RightRotate(v, c))
  }

  function ShiftedSigma(v: int, a: nat, b: nat, c: nat): int
    requires 0 < a < 32 && 0 < b < 32 && 0 < c < 32
  {
    Operator(Xor, Operator(Xor, RightRotate(v, a), RightRotate(v, b)), ShiftRight(v, c))
  }

  lemma SigmaMeans(v: int, a: nat, b: nat, c: nat)
    requires 0 < a < 32 && 0 < b < 32 && 0 < c < 32
    ensures ToUint32(Sigma(v, a, b, c)) == Xor3(Rotr(a, ToUint32(v)), Rotr(b, ToUint32(v)), Rotr(c, ToUint32(v)))
    ensures ToUint32(ShiftedSigma(v, a, b, c)) == Xor3(Rotr(a, ToUint32(v)), Rotr(b, ToUint32(v)), Shr(c, ToUint32(v)))
  {
    hide ToUint32, ToInt32, WordGate, RightRotate, ShiftRight, Rotr;
    var ra, rb, rc := RightRotate(v, a), RightRotate(v, b), RightRotate(v, c);
    RotateMeans(v, a);
    RotateMeans(v, b);
    RotateMeans(v, c);
    ShiftMeans(v, c);
    OperatorWord(Xor, ra, rb);
    OperatorWord(Xor, Operator(Xor, ra, rb), rc);
    OperatorWord(Xor, Operator(Xor, ra, rb), ShiftRight(v, c));
  }

  function Choose(e: int, f: int, g: int): int {
    Operator(Xor, Operator(And, e, f), Operator(And, BitNot(e), g))
  }

  function Majority(a: int, b: int, c: int): int {
    Operator(Xor, Operator(Xor, Operator(And, a, b), Operator(And, a, c)), Operator(And, b, c))
  }

  lemma LogicMeans(x: int, y: int, z: int)
    ensures ToUint32(Choose(x, y, z)) == Ch(ToUint32(x), ToUint32(y), ToUint32(z))
    ensures ToUint32(Majority(x, y, z)) == Maj(ToUint32(x), ToUint32(y), ToUint32(z))
  {
    hide ToUint32, ToInt32, WordGate, BitNot;
    OperatorWord(And, x, y);
    OperatorWord(And, BitNot(x), z);
    OperatorWord(Xor, Operator(And, x, y), Operator(And, BitNot(x), z));
    OperatorWord(And, x, z);
    OperatorWord(And, y, z);
    OperatorWord(Xor, Operator(And, x, y), Operator(And, x, z));
    OperatorWord(Xor, Operator(Xor, Operator(And, x, y), Operator(And, x, z)), Operator(And, y, z));
    BitNotWord(x);
  }

  // ---- One round ----

  function Temp1(hash: seq<int>, k: int, w: int): int
    requires |hash| >= 8
  {
    var e := hash[4];
    hash[7] + Sigma(e, 6, 11, 25) + Choose(e, hash[5], hash[6]) + k + w
  }

  function Temp2(hash: seq<int>): int
    requires |hash| >= 8
  {
    var a := hash[0];
    Sigma(a, 2, 13, 22) + Majority(a, hash[1], hash[2])
  }

  lemma Temp1Means(hash: seq<int>, k: int, w: int)
    requires |hash| >= 8
    ensures ToUint32(Temp1(hash, k, w)) == T1(Abstract(hash), ToUint32(k), ToUint32(w))
  {
    hide ToUint32, Sigma, Choose, Xor3, Ch, Rotr, Plus;
    var e := hash[4];
    SigmaMeans(e, 6, 11, 25);
    LogicMeans(e, hash[5], hash[6]);
    SumOfFive(hash[7], Sigma(e, 6, 11, 25), Choose(e, hash[5], hash[6]), k, w);
  }

  lemma SumOfFive(a: int, b: int, c: int, d: int, e: int)
    ensures ToUint32(a + b + c + d + e)
         == Plus(Plus(Plus(Plus(ToUint32(a), ToUint32(b)), ToUint32(c)), ToUint32(d)), ToUint32(e))
  {
    hide ToUint32, Plus;
    SumWord(a, b);
    SumWord(a + b, c);
    SumWord(a + b + c, d);
    SumWord(a + b + c + d, e);
  }

  lemma Temp2Means(hash: seq<int>)
    requires |hash| >= 8
    ensures ToUint32(Temp2(hash)) == T2(Abstract(hash))
  {
    hide ToUint32, Sigma, Majority, Xor3, Maj, Rotr, Plus;
    var a := hash[0];
    SigmaMeans(a, 2, 13, 22);
    LogicMeans(a, hash[1], hash[2]);
    SumWord(Sigma(a, 2, 13, 22), Majority(a, hash[1], hash[2]));
  }

  /** Every sum of a round, from left to right, is an integer that doubles represent exactly. */
  predicate ExactRound(hash: seq<int>, k: int, w: int)
    requires |hash| >= 8
  {
    var e, a := hash[4], hash[0];
    var s, c := Sigma(e, 6, 11, 25), Choose(e, hash[5], hash[6]);
    && IsSafe(hash[7] + s) && IsSafe(hash[7] + s + c) && IsSafe(hash[7] + s + c + k) && IsSafe(Temp1(hash, k, w))
    && IsSafe(Temp2(hash)) && IsSafe(Temp1(hash, k, w) + Temp2(hash)) && IsSafe(hash[3] + Temp1(hash, k, w))
  }

  lemma RoundIsExact(hash: seq<int>, k: int, w: int)
    requires |hash| >= 8 && AllInt32(hash) && IsInt32(k) && IsEntry(w)
    ensures ExactRound(hash, k, w)
  {
    hide ToInt32, ToUint32, WordGate;
    OperatorsInt32(hash);
  }

  lemma OperatorsInt32(hash: seq<int>)
    requires |hash| >= 8
    ensures IsInt32(Sigma(hash[4], 6, 11, 25)) && IsInt32(Choose(hash[4], hash[5], hash[6]))
    ensures IsInt32(Sigma(hash[0], 2, 13, 22)) && IsInt32(Majority(hash[0], hash[1], hash[2]))
  {
  }

  /** The list after one round of the program. */
  function NextList(hash: seq<int>, k: int, w: int): (next: seq<int>)
    requires |hash| >= 8
    ensures |next| == 8
  {
    [ToInt32(Temp1(hash, k, w) + Temp2(hash))] + hash[..3] + [ToInt32(hash[3] + Temp1(hash, k, w))] + hash[4..7]
  }

  /** Prepending, adding into entry 4 and cutting the list to 8 performs the eight assignments of a round. */
  method RotateList(hash: seq<int>, k: int, w: int) returns (next: seq<int>)
    requires |hash| >= 8 && AllInt32(hash) && IsInt32(k)
    ensures next == NextList(hash, k, w) && AllInt32(next)
    ensures Abstract(next) == Round(Abstract(hash), ToUint32(k), ToUint32(w))
  {
    hide ToUint32, ToInt32, Temp1, Temp2, T1, T2, Plus;
    var temp1 := Temp1(hash, k, w);
    var temp2 := Temp2(hash);
    Temp1Means(hash, k, w);
    Temp2Means(hash);
    SumWord(temp1, temp2);
    SumWord(hash[3], temp1);
    next := [ToInt32(temp1 + temp2)] + hash;
    next := next[4 := ToInt32(next[4] + temp1)];
    next := next[..8];
  }

  // ---- The message schedule ----

  function Expand(w: seq<int>, i: nat): int
    requires 16 <= i <= |w|
  {
    var w15, w2 := w[i - 15], w[i - 2];
    w[i - 16] + ShiftedSigma(w15, 7, 18, 3) + w[i - 7] + ShiftedSigma(w2, 17, 19, 10)
  }

  ghost predicate IsSchedule(w: seq<int>, block: seq<Word>)
    requires |block| == 16
  {
    forall j :: 0 <= j < |w| ==> ToUint32(w[j]) == Schedule(block, j)
  }

  lemma ExpandMeans(w: seq<int>, block: seq<Word>)
    requires |block| == 16 && |w| >= 16 && IsSchedule(w, block)
    ensures ToUint32(Expand(w, |w|)) == Schedule(block, |w|)
  {
    hide ToUint32, ShiftedSigma, Xor3, Rotr, Shr, Plus;
    var i := |w|;
    SigmaMeans(w[i - 15], 7, 18, 3);
    SigmaMeans(w[i - 2], 17, 19, 10);
    SumOfFour(w[i - 16], ShiftedSigma(w[i - 15], 7, 18, 3), w[i - 7], ShiftedSigma(w[i - 2], 17, 19, 10));
  }

  lemma ExpandIsExact(w: seq<int>, i: nat)
    requires 16 <= i <= |w| && AllEntries(w)
    ensures IsSafe(Expand(w, i))
  {
    hide ShiftedSigma, ToUint32, ToInt32;
    ShiftedSigmaRange(w[i - 15], 7, 18, 3);
    ShiftedSigmaRange(w[i - 2], 17, 19, 10);
  }

  lemma ShiftedSigmaRange(v: int, a: nat, b: nat, c: nat)
    requires 0 < a < 32 && 0 < b < 32 && 0 < c < 32
    ensures IsInt32(ShiftedSigma(v, a, b, c))
  {
  }

  lemma SumOfFour(a: int, b: int, c: int, d: int)
    ensures ToUint32(a + b + c + d)
         == Plus(Plus(Plus(ToUint32(d), ToUint32(c)), ToUint32(b)), ToUint32(a))
  {
    hide ToUint32, Plus;
    SumWord(d, c);
    SumWord(d + c, b);
    SumWord(d + c + b, a);
  }

  lemma ScheduleStarts(block: seq<int>)
    requires |block| == 16
    ensures IsSchedule(block, Words(block))
  {
    hide ToUint32;
  }

  // ---- One block ----

  /** The schedule list once it has n entries, at least the sixteen of the block. */
  function ScheduleList(block: seq<int>, n: nat): (w: seq<int>)
    requires |block| == 16
    ensures |w| == if n <= 16 then 16 else n
    decreases n
  {
    if n <= 16 then block
    else
      var w := ScheduleList(block, n - 1);
      w + [ToInt32(Expand(w, n - 1))]
  }

  /** The list after t rounds. */
  function ListAfter(hash: seq<int>, k: seq<int>, block: seq<int>, t: nat): (list: seq<int>)
    requires |hash| >= 8 && |k| == 64 && |block| == 16 && t <= 64
    ensures |list| >= 8 && (t > 0 ==> |list| == 8)
    decreases t
  {
    if t == 0 then hash
    else NextList(ListAfter(hash, k, block, t - 1), k[t - 1], ScheduleList(block, t)[t - 1])
  }

  function AddLists(hash: seq<int>, oldHash: seq<int>): (sum: seq<int>)
    requires |hash| == 8 && |oldHash| >= 8
    ensures |sum| == 8
  {
    seq(8, i requires 0 <= i < 8 => ToInt32(hash[i] + oldHash[i]))
  }

  /** The list after a block. */
  function BlockList(hash: seq<int>, k: seq<int>, block: seq<int>): (list: seq<int>)
    requires |hash| >= 8 && |k| == 64 && |block| == 16
    ensures |list| == 8
  {
    AddLists(ListAfter(hash, k, block, 64), hash)
  }

  method ExtendSchedule(w: seq<int>, ghost block: seq<int>) returns (longer: seq<int>)
    requires |block| == 16 && |w| >= 16 && w == ScheduleList(block, |w|) && IsSchedule(w, Words(block))
    ensures longer == ScheduleList(block, |w| + 1) && IsSchedule(longer, Words(block))
  {
    hide ToUint32, ToInt32, Expand, Schedule;
    ExpandMeans(w, Words(block));
    longer := w + [ToInt32(Expand(w, |w|))];
  }

  method CompressBlock(hash: seq<int>, k: seq<int>, block: seq<int>) returns (next: seq<int>)
    requires |hash| >= 8 && AllInt32(hash)
    requires |k| == 64 && AllInt32(k)
    requires |block| == 16
    ensures next == BlockList(hash, k, block) && AllInt32(next)
    ensures Abstract(next) == Compress(Abstract(hash), Words(block), Words(k))
  {
    hide ToUint32, ToInt32, Round, Expand, Schedule, Abstract, AddVars, NextList, ScheduleList, AddLists;
    var w := block;
    var oldHash := hash;
    next := hash;
    ScheduleStarts(block);
    ScheduleBegins(block, 0);
    ScheduleBegins(block, 16);
    var i := 0;
    while i < 64
      invariant 0 <= i <= 64
      invariant |w| == (if i <= 16 then 16 else i)
      invariant w == ScheduleList(block, |w|) && w == ScheduleList(block, i) && IsSchedule(w, Words(block))
      invariant next == ListAfter(hash, k, block, i) && AllInt32(next)
      invariant Abstract(next) == Rounds(Abstract(hash), Words(block), Words(k), i)
    {
      if i >= 16 {
        w := ExtendSchedule(w, block);
      } else {
        ScheduleBegins(block, i + 1);
      }
      next := RotateList(next, k[i], w[i]);
      i := i + 1;
    }
    next := AddOld(next, oldHash);
  }

  lemma ScheduleBegins(block: seq<int>, n: nat)
    requires |block| == 16 && n <= 16
    ensures ScheduleList(block, n) == block
  {
  }

  method AddOld(hash: seq<int>, oldHash: seq<int>) returns (sum: seq<int>)
    requires |hash| == 8 && AllInt32(hash) && |oldHash| >= 8 && AllInt32(oldHash)
    ensures sum == AddLists(hash, oldHash) && AllInt32(sum)
    ensures Abstract(sum) == AddVars(Abstract(hash), Abstract(oldHash))
  {
    sum := hash;
    var i := 0;
    while i < 8
      invariant 0 <= i <= 8 && |sum| == 8 && AllInt32(sum)
      invariant forall j :: i <= j < 8 ==> sum[j] == hash[j]
      invariant forall j :: 0 <= j < i ==> sum[j] == ToInt32(hash[j] + oldHash[j])
      invariant forall j :: 0 <= j < i ==> ToUint32(sum[j]) == Plus(ToUint32(hash[j]), ToUint32(oldHash[j]))
    {
      SumWord(hash[i], oldHash[i]);
      sum := sum[i := ToInt32(sum[i] + oldHash[i])];
      i := i + 1;
    }
  }

  // ---- Exactness ----

  /** Every sum of a block's loops is an integer that doubles represent exactly. */
  ghost predicate ExactBlock(hash: seq<int>, k: seq<int>, block: seq<int>)
    requires |hash| >= 8 && |k| == 64 && |block| == 16
  {
    && (forall t :: 0 <= t < 64 ==> ExactRound(ListAfter(hash, k, block, t), k[t], ScheduleList(block, t + 1)[t]))
    && (forall n :: 16 <= n < 64 ==> IsSafe(Expand(ScheduleList(block, n), n)))
    && (forall i :: 0 <= i < 8 ==> IsSafe(ListAfter(hash, k, block, 64)[i] + hash[i]))
  }

  lemma {:induction false} EntriesKept(block: seq<int>, n: nat)
    requires |block| == 16 && AllEntries(block)
    ensures AllEntries(ScheduleList(block, n))
    decreases n
  {
    hide ToInt32, Expand;
    if n > 16 {
      EntriesKept(block, n - 1);
      Int32IsEntry(Expand(ScheduleList(block, n - 1), n - 1));
    }
  }

  lemma Int32IsEntry(x: int)
    ensures IsEntry(ToInt32(x)) && IsInt32(ToInt32(x))
  {
  }

  lemma {:induction false} Int32Kept(hash: seq<int>, k: seq<int>, block: seq<int>, t: nat)
    requires |hash| >= 8 && AllInt32(hash) && |k| == 64 && |block| == 16 && t <= 64
    ensures AllInt32(ListAfter(hash, k, block, t))
  {
    hide ToInt32, ToUint32, Temp1, Temp2, ScheduleList;
    if t > 0 {
      Int32Kept(hash, k, block, t - 1);
    }
  }

  /** For schedule entries in range no sum of the block is rounded. */
  lemma BlockIsExact(hash: seq<int>, k: seq<int>, block: seq<int>)
    requires |hash| >= 8 && AllInt32(hash) && |k| == 64 && AllInt32(k) && |block| == 16 && AllEntries(block)
    ensures ExactBlock(hash, k, block)
  {
    hide ExactRound, Expand, ScheduleList, ListAfter;
    forall t | 0 <= t < 64 ensures ExactRound(ListAfter(hash, k, block, t), k[t], ScheduleList(block, t + 1)[t]) {
      EntriesKept(block, t + 1);
      Int32Kept(hash, k, block, t);
      RoundIsExact(ListAfter(hash, k, block, t), k[t], ScheduleList(block, t + 1)[t]);
    }
    forall n | 16 <= n < 64 ensures IsSafe(Expand(ScheduleList(block, n), n)) {
      EntriesKept(block, n);
      ExpandIsExact(ScheduleList(block, n), n);
    }
    Int32Kept(hash, k, block, 64);
  }
}
