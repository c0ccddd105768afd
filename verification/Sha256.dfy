/** sha256 of index.js as a whole: constants, padding, blocks and output bytes. */
module Sha256 {
  import opened Bits
  import opened Bytes
  import opened JsNumber
  import opened Fips180
  import opened Primes
  import opened RootConstants
  import opened Sha256Padding
  import opened Sha256Rounds
  import opened Wrappers

  // ---- Constants ----

  /** The arrays hold the scaled roots of the first `count` accepted candidates. */
  ghost predicate Filled(found: seq<nat>, limit: nat, count: nat, roots: Roots, hash: seq<int>, k: seq<int>) {
    && |found| == |hash| == |k| == count
    && ListsBelow(found, limit, if count == 0 then 0 else found[count - 1] + 1)
    && forall i :: 0 <= i < count ==>
         hash[i] == Fraction(roots.square(found[i])) && k[i] == Fraction(roots.cube(found[i]))
  }

  /** The sieve loop; it fills both constant arrays and stops after `count` unmarked candidates. */
  method FillConstants(limit: nat, count: nat, roots: Roots) returns (hash: seq<int>, k: seq<int>)
    ensures exists found :: Filled(found, limit, count, roots, hash, k)
  {
    hide Fraction, ListsBelow, MarkedBy, IsPrime;
    NothingListed(limit);
    ghost var found: seq<nat> := [];
    hash, k := [], [];
    var marked: set<nat> := {};
    var candidate := 2;
    while |k| < count
      invariant candidate >= 2 && |found| == |hash| == |k| <= count
      invariant ListsBelow(found, limit, candidate) && MarkedBy(marked, found, limit)
      invariant |found| > 0 && |found| == count ==> found[|found| - 1] == candidate - 1
      invariant forall i :: 0 <= i < |k| ==>
                  hash[i] == Fraction(roots.square(found[i])) && k[i] == Fraction(roots.cube(found[i]))
      decreases count - |k| + (if candidate < limit then limit - candidate else 0)
    {
      UnmarkedIffPrime(marked, found, limit, candidate);
      ListGrows(found, limit, candidate);
      if candidate !in marked {
        ghost var unmarked := marked;
        marked := Mark(marked, candidate, limit);
        MarkedGrows(unmarked, marked, found, candidate, limit);
        hash := hash + [Fraction(roots.square(candidate))];
        k := k + [Fraction(roots.cube(candidate))];
        found := found + [candidate];
      }
      candidate := candidate + 1;
    }
    assert Filled(found, limit, count, roots, hash, k);
  }

  lemma NothingListed(limit: nat)
    ensures ListsBelow([], limit, 0) && ListsBelow([], limit, 2) && MarkedBy({}, [], limit)
  {
  }

  /** With accurate roots the arrays hold the tables of sections 5.3.3 and 4.2.2. */
  method Constants(roots: Roots) returns (hash: seq<int>, k: seq<int>)
    requires roots.Accurate()
    ensures |hash| == |k| == 64 && AllInt32(hash) && AllInt32(k)
    ensures Abstract(hash) == H0 && Words(k) == K()
  {
    hash, k := FillConstants(313, 64, roots);
    ghost var found :| Filled(found, 313, 64, roots, hash, k);
    SieveOf313(found);
    TablesMatch(roots, hash, k);
  }

  lemma TablesMatch(roots: Roots, hash: seq<int>, k: seq<int>)
    requires roots.Accurate() && |hash| == |k| == 64
    requires forall i :: 0 <= i < 64 ==> hash[i] == Fraction(roots.square(First64Primes()[i]))
    requires forall i :: 0 <= i < 64 ==> k[i] == Fraction(roots.cube(First64Primes()[i]))
    ensures AllInt32(hash) && AllInt32(k)
    ensures Abstract(hash) == H0 && Words(k) == K()
  {
    CubeTable();
    PrimesInRange();
    forall i | 0 <= i < 64 ensures IsInt32(k[i]) && IsInt32(hash[i]) && ToUint32(k[i]) == K()[i] {
      var p := First64Primes()[i];
      CubeFraction(p, roots.cube(p), CubeFloor(p), K()[i]);
    }
    forall i | 0 <= i < 8 ensures ToUint32(hash[i]) == VarsList(H0)[i] {
      HashEntry(roots, hash, i);
    }
    ListIsH0(hash);
  }

  lemma PrimesInRange()
    ensures forall i :: 0 <= i < 64 ==> 2 <= First64Primes()[i] <= 311
  {
    First64Consecutive();
    ConsecutiveListed(First64Primes(), 64);
    assert First64Primes()[..64] == First64Primes();
  }

  lemma HashEntry(roots: Roots, hash: seq<int>, i: nat)
    requires roots.Accurate() && |hash| == 64 && i < 8
    requires forall i :: 0 <= i < 64 ==> hash[i] == Fraction(roots.square(First64Primes()[i]))
    ensures ToUint32(hash[i]) == VarsList(H0)[i]
  {
    SquareTable();
    PrimesInRange();
    var p := Primes0()[i];
    assert First64Primes()[i] == p;
    SquareFraction(p, roots.square(p), SquareFloor(p), VarsList(H0)[i]);
  }

  lemma ListIsH0(hash: seq<int>)
    requires |hash| >= 8 && forall i :: 0 <= i < 8 ==> ToUint32(hash[i]) == VarsList(H0)[i]
    ensures Abstract(hash) == H0
  {
    hide ToUint32;
    assert ToUint32(hash[0]) == VarsList(H0)[0] && ToUint32(hash[1]) == VarsList(H0)[1];
    assert ToUint32(hash[2]) == VarsList(H0)[2] && ToUint32(hash[3]) == VarsList(H0)[3];
    assert ToUint32(hash[4]) == VarsList(H0)[4] && ToUint32(hash[5]) == VarsList(H0)[5];
    assert ToUint32(hash[6]) == VarsList(H0)[6] && ToUint32(hash[7]) == VarsList(H0)[7];
  }

  // ---- Blocks ----

  /** Block n of the list of words. */
  function Sixteen(words: seq<int>, n: nat): (block: seq<int>)
    requires 16 * n + 16 <= |words|
    ensures |block| == 16
  {
    words[16 * n..16 * n + 16]
  }

  /** The list after the first n blocks. */
  function HashList(h0: seq<int>, k: seq<int>, words: seq<int>, n: nat): (hash: seq<int>)
    requires |h0| >= 8 && |k| == 64 && 16 * n <= |words|
    ensures |hash| >= 8
    decreases n
  {
    if n == 0 then h0 else BlockList(HashList(h0, k, words, n - 1), k, Sixteen(words, n - 1))
  }

  /** The loop over the message: sixteen words at a time. */
  method HashAll(h0: seq<int>, k: seq<int>, words: seq<int>) returns (hash: seq<int>)
    requires |h0| >= 8 && AllInt32(h0) && |k| == 64 && AllInt32(k)
    requires |words| % 16 == 0
    ensures hash == HashList(h0, k, words, |words| / 16) && AllInt32(hash)
    ensures Abstract(hash) == HashBlocks(Abstract(h0), Words(words), Words(k), |words| / 16)
  {
    hide ToUint32, ToInt32, Compress, Abstract, BlockList;
    hash := h0;
    var j := 0;
    ghost var n := 0;
    while j < |words|
      invariant j == 16 * n <= |words|
      invariant hash == HashList(h0, k, words, n) && AllInt32(hash)
      invariant Abstract(hash) == HashBlocks(Abstract(h0), Words(words), Words(k), n)
    {
      var w := words[j..j + 16];
      assert w == Sixteen(words, n) && Words(w) == Block(Words(words), n);
      hash := CompressBlock(hash, k, w);
      j := j + 16;
      n := n + 1;
    }
  }

  /** No sum in any block of the run is rounded. */
  ghost predicate ExactRun(h0: seq<int>, k: seq<int>, words: seq<int>)
    requires |h0| >= 8 && |k| == 64
  {
    forall n :: 0 <= n < |words| / 16 ==> ExactBlock(HashList(h0, k, words, n), k, Sixteen(words, n))
  }

  lemma {:induction false} ListIsInt32(h0: seq<int>, k: seq<int>, words: seq<int>, n: nat)
    requires |h0| >= 8 && AllInt32(h0) && |k| == 64 && 16 * n <= |words|
    ensures AllInt32(HashList(h0, k, words, n))
    decreases n
  {
    hide ToInt32, ListAfter;
    if n > 0 {
      ListIsInt32(h0, k, words, n - 1);
      var block := Sixteen(words, n - 1);
      SumIsInt32(ListAfter(HashList(h0, k, words, n - 1), k, block, 64), HashList(h0, k, words, n - 1));
    }
  }

  lemma SumIsInt32(hash: seq<int>, oldHash: seq<int>)
    requires |hash| == 8 && |oldHash| >= 8
    ensures AllInt32(AddLists(hash, oldHash))
  {
  }

  /** With schedule entries in range, every sum of the whole run is an integer that doubles represent exactly. */
  lemma RunIsExact(h0: seq<int>, k: seq<int>, words: seq<int>)
    requires |h0| >= 8 && AllInt32(h0) && |k| == 64 && AllInt32(k) && AllEntries(words)
    ensures ExactRun(h0, k, words)
  {
    hide ExactBlock, HashList;
    forall n | 0 <= n < |words| / 16
      ensures ExactBlock(HashList(h0, k, words, n), k, Sixteen(words, n))
    {
      ListIsInt32(h0, k, words, n);
      BlockIsExact(HashList(h0, k, words, n), k, Sixteen(words, n));
    }
  }

  /** For messages under 2^29 characters every schedule entry is in the range in which the sums are exact. */
  lemma PackedEntries(message: seq<Byte>, words: seq<int>)
    requires PacksAs(message, words) && |message| < 0x2000_0000
    ensures AllEntries(words)
  {
    hide PaddedWords, ToUint32;
  }

  // ---- Output ----

  /** Shifting and masking gives the four bytes of a word, most significant first. */
  lemma OutputBytes(v: int)
    ensures [Operator(And, ShiftRight(v, 24), 255), Operator(And, ShiftRight(v, 16), 255),
             Operator(And, ShiftRight(v, 8), 255), Operator(And, v, 255)] == ToBigEndian(ToUint32(v), 4)
  {
    var x := ToUint32(v);
    OutputByte(v, 24);
    OutputByte(v, 16);
    OutputByte(v, 8);
    OutputByte(v, 0);
    assert High(x, 0) == x;
    ShiftTwice(x, 8, 8);
    ShiftTwice(x, 16, 8);
    assert ShiftRight(v, 0) == x;
    OperandReduced(v, x);
    FourDigits(x);
  }

  lemma OperandReduced(v: int, x: Word)
    requires x == ToUint32(v)
    ensures Operator(And, v, 255) == Operator(And, x, 255)
  {
    assert ToUint32(x) == x;
    hide ToUint32, ToInt32, WordGate;
  }

  lemma OutputByte(v: int, n: nat)
    requires n < 32
    ensures Operator(And, ShiftRight(v, n), 255) == High(ToUint32(v), n) % 256
  {
    var h := High(ToUint32(v), n);
    LowByte(h);
    MaskWord(h);
    hide ToUint32, ToInt32, High, Low;
    SmallOperand(Bitwise(And, h, 255));
    assert ShiftRight(v, n) == h;
  }

  lemma MaskWord(h: Word)
    ensures ToUint32(h) == h && ToUint32(255) == 255
    ensures WordGate(And, h, 255) == Low(h, 8) == Bitwise(And, h, 255)
  {
    hide Pow2, Low, Bitwise;
    WordIsPow2();
    AndMask(h, 8);
  }

  lemma SmallOperand(b: int)
    ensures 0 <= b < 256 ==> ToInt32(b) == b
  {
  }

  lemma LowByte(h: nat)
    ensures Low(h, 8) == h % 256 && High(h, 8) == h / 256
  {
    assert Pow2(8) == 256 by {
      WordIsPow2();
    }
    SplitAt(h, 8);
    hide Low, High, Pow2;
    Quotient256(h, High(h, 8), Low(h, 8));
  }

  lemma Quotient256(h: nat, q: nat, r: nat)
    requires h == q * 256 + r && r < 256
    ensures h / 256 == q && h % 256 == r
  {
  }

  lemma {:induction false} ShiftTwice(x: nat, m: nat, n: nat)
    ensures High(x, m + n) == High(High(x, m), n)
    decreases m
  {
    if m > 0 {
      ShiftTwice(x / 2, m - 1, n);
    }
  }

  lemma FourDigits(x: Word)
    ensures [High(x, 24) % 256, High(x, 16) % 256, High(x, 8) % 256, x % 256] == ToBigEndian(x, 4)
  {
    LowByte(x);
    ShiftTwice(x, 8, 8);
    LowByte(x / 256);
    ShiftTwice(x, 16, 8);
    LowByte(x / 256 / 256);
    DigitsOf(x);
  }

  lemma DigitsOf(x: Word)
    ensures ToBigEndian(x, 4) == [x / 256 / 256 / 256 % 256, x / 256 / 256 % 256, x / 256 % 256, x % 256]
  {
    assert ToBigEndian(x / 256 / 256 / 256, 1) == [x / 256 / 256 / 256 % 256];
    assert ToBigEndian(x / 256 / 256, 2) == [x / 256 / 256 / 256 % 256, x / 256 / 256 % 256];
    assert ToBigEndian(x / 256, 3) == [x / 256 / 256 / 256 % 256, x / 256 / 256 % 256, x / 256 % 256];
  }

  method Output(hash: seq<int>) returns (bytes: seq<int>)
    requires |hash| >= 8 && AllInt32(hash)
    ensures bytes == VarsBytes(Abstract(hash))
  {
    hide ToInt32, Operator, ShiftRight, ToBigEndian;
    bytes := [];
    var i := 0;
    while i < 8
      invariant 0 <= i <= 8
      invariant bytes == PrefixBytes(hash, i)
    {
      var val := hash[i];
      if val < 0 {
        val := val + WORD_RANGE;
      }
      assert ToUint32(val) == ToUint32(hash[i]);
      OutputBytes(val);
      bytes := bytes + [Operator(And, ShiftRight(val, 24), 255)];
      bytes := bytes + [Operator(And, ShiftRight(val, 16), 255)];
      bytes := bytes + [Operator(And, ShiftRight(val, 8), 255)];
      bytes := bytes + [Operator(And, val, 255)];
      i := i + 1;
    }
    AllBytes(hash);
  }

  function PrefixBytes(hash: seq<int>, n: nat): seq<Byte>
    requires n <= |hash|
    decreases n
  {
    if n == 0 then [] else PrefixBytes(hash, n - 1) + ToBigEndian(ToUint32(hash[n - 1]), 4)
  }

  lemma AllBytes(hash: seq<int>)
    requires |hash| >= 8
    ensures PrefixBytes(hash, 8) == VarsBytes(Abstract(hash))
  {
    hide ToUint32, ToBigEndian, PrefixBytes;
    PrefixStep(hash, 1);
    PrefixStep(hash, 2);
    PrefixStep(hash, 3);
    PrefixStep(hash, 4);
    PrefixStep(hash, 5);
    PrefixStep(hash, 6);
    PrefixStep(hash, 7);
    PrefixStep(hash, 8);
  }

  lemma PrefixStep(hash: seq<int>, n: nat)
    requires 0 < n <= |hash|
    ensures PrefixBytes(hash, n) ==
            if n == 1 then ToBigEndian(ToUint32(hash[0]), 4)
            else PrefixBytes(hash, n - 1) + ToBigEndian(ToUint32(hash[n - 1]), 4)
  {
  }

  // ---- The function ----

  /** The digest is the standard's compression over the blocks that the source's packing defines. */
  ghost predicate HashedAs(ascii: seq<CodeUnit>, words: seq<int>, digest: Option<seq<int>>)
    requires IsBinary(ascii)
  {
    PacksAs(BytesOf(ascii), words) && digest == Some(VarsBytes(HashBlocks(H0, Words(words), K(), |words| / 16)))
  }

  /** The digest is read off the program's list after all blocks, and no sum on the way there was rounded. */
  ghost predicate ComputedExactly(ascii: seq<CodeUnit>, h0: seq<int>, k: seq<int>, words: seq<int>,
                                  digest: Option<seq<int>>)
    requires IsBinary(ascii)
  {
    && |h0| == |k| == 64 && AllInt32(h0) && AllInt32(k) && Abstract(h0) == H0 && Words(k) == K()
    && |words| % 16 == 0 && PacksAs(BytesOf(ascii), words)
    && ExactRun(h0, k, words) && digest == Some(VarsBytes(Abstract(HashList(h0, k, words, |words| / 16))))
  }

  /**
   * sha256 returns undefined exactly for text with a character above 255; otherwise, for fewer than 2^29
   * characters, it returns the digest section 6.2.2 of FIPS 180-4 defines for the character codes, without a sum
   * that doubles would round. Longer text is compressed as the standard says too, over blocks with the source's own
   * length words.
   */
  method Sha256(ascii: seq<CodeUnit>, roots: Roots) returns (digest: Option<seq<int>>)
    requires roots.Accurate()
    ensures digest.None? <==> !IsBinary(ascii)
    ensures IsBinary(ascii) && |ascii| < 0x2000_0000 ==> digest == Some(Digest(BytesOf(ascii)))
    ensures IsBinary(ascii) && |ascii| < 0x2000_0000 ==>
              exists h0, k, words :: ComputedExactly(ascii, h0, k, words, digest)
    ensures IsBinary(ascii) ==> exists words :: HashedAs(ascii, words, digest)
  {
    hide ExactRun, HashList, HashBlocks;
    var h0, k := Constants(roots);
    var words := PadAndPack(ascii);
    if words.None? {
      return None;
    }
    if |ascii| < 0x2000_0000 {
      PaddingAgreesIff(BytesOf(ascii), words.value);
      PackedEntries(BytesOf(ascii), words.value);
      RunIsExact(h0, k, words.value);
    }
    var hash := HashAll(h0, k, words.value);
    var bytes := Output(hash);
    digest := Some(bytes);
    assert HashedAs(ascii, words.value, digest);
    assert |ascii| < 0x2000_0000 ==> ComputedExactly(ascii, h0, k, words.value, digest);
  }
}
