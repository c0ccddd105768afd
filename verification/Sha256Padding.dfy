/** Padding and packing of index.js against sections 5.1.1 and 5.2.1 of FIPS 180-4. */
module Sha256Padding {
  import opened Bits
  import opened Bytes
  import opened JsNumber
  import opened Fips180
  import opened Wrappers

  /** One UTF-16 code unit of a JavaScript string. */
  type CodeUnit = x: int | 0 <= x < 65536

  predicate IsBinary(text: seq<CodeUnit>) {
    forall i :: 0 <= i < |text| ==> text[i] < 256
  }

  function BytesOf(text: seq<CodeUnit>): (bs: seq<Byte>)
    requires IsBinary(text)
    ensures |bs| == |text|
  {
    seq(|text|, i requires 0 <= i < |text| => text[i])
  }

  // ---- The padding loop ----

  /** Appends the byte 0x80, then zeros until the length leaves 56 modulo 64. */
  method Pad(ascii: seq<CodeUnit>) returns (padded: seq<CodeUnit>)
    ensures padded == ascii + [0x80] + Zeros(ZeroCount(|ascii|))
  {
    padded := ascii + [0x80];
    ghost var zeros := 0;
    while |padded| % 64 - 56 != 0
      invariant zeros <= ZeroCount(|ascii|)
      invariant padded == ascii + [0x80] + Zeros(zeros)
      decreases ZeroCount(|ascii|) - zeros
    {
      assert !LeavesLengthField(|ascii|, zeros);
      assert Zeros(zeros + 1) == Zeros(zeros) + [0];
      padded := padded + [0];
      zeros := zeros + 1;
    }
    assert LeavesLengthField(|ascii|, zeros);
  }

  // ---- The packing loop ----

  /** The word under construction after its first r bytes. */
  function PartialWord(bs: seq<CodeUnit>, w: nat, r: nat): nat
    requires r <= 4 && 4 * w + r <= |bs|
  {
    (if r > 0 then bs[4 * w] as int * 0x100_0000 else 0) + (if r > 1 then bs[4 * w + 1] as int * 0x1_0000 else 0)
    + (if r > 2 then bs[4 * w + 2] as int * 0x100 else 0) + (if r > 3 then bs[4 * w + 3] as int else 0)
  }

  /** Or-ing a byte into a word whose digits above it are `high` and whose other digits are 0 adds it. */
  lemma OrPlace(entry: int, high: nat, byte: Byte, shift: nat)
    requires shift <= 24 && ToUint32(entry) == high * Pow2(shift + 8)
    ensures ToUint32(Operator(Or, entry, ShiftLeft(byte, shift))) == high * Pow2(shift + 8) + byte * Pow2(shift)
  {
    var place := byte * Pow2(shift);
    PlaceBound(byte, shift);
    assert ToUint32(ShiftLeft(byte, shift)) == place;
    hide ToUint32, ToInt32, ShiftLeft;
    OperatorWord(Or, entry, ShiftLeft(byte, shift));
    OrDisjoint(high, place, shift + 8);
  }

  lemma PlaceBound(byte: Byte, shift: nat)
    requires shift <= 24
    ensures 0 <= byte * Pow2(shift) < Pow2(shift + 8) <= WORD_RANGE
  {
    WordIsPow2();
    Pow2Add(8, shift);
    Pow2Monotone(shift + 8, 32);
    ScaleBound(byte, Pow2(shift));
  }

  lemma {:induction false} Pow2Monotone(m: nat, n: nat)
    requires m <= n
    ensures Pow2(m) <= Pow2(n)
    decreases n
  {
    if m < n {
      Pow2Monotone(m, n - 1);
    }
  }

  lemma ScaleBound(byte: Byte, p: nat)
    requires p > 0
    ensures 0 <= byte * p < 256 * p
  {
  }

  lemma OrByte(entry: int, padded: seq<CodeUnit>, i: nat)
    requires i < |padded| && padded[i] < 256 && IsBinary(padded[..i])
    requires ToUint32(entry) == PartialWord(padded, i / 4, i % 4)
    ensures ToUint32(Operator(Or, entry, ShiftLeft(padded[i], 24 - (i % 4) * 8)))
         == PartialWord(padded, i / 4, i % 4 + 1)
  {
    hide ToUint32, Operator, ShiftLeft, Pow2, PartialWord;
    var r := i % 4;
    var high := NextByte(padded, i / 4, r);
    assert padded[4 * (i / 4) + r] == padded[i];
    OrPlace(entry, high, padded[i], 24 - r * 8);
  }

  /** A word with r bytes is a multiple of 2^(32 - 8r), and the next byte adds its place value. */
  lemma NextByte(bs: seq<CodeUnit>, w: nat, r: nat) returns (high: nat)
    requires r < 4 && 4 * w + r < |bs|
    ensures PartialWord(bs, w, r) == high * Pow2(24 - r * 8 + 8)
    ensures PartialWord(bs, w, r + 1) == PartialWord(bs, w, r) + bs[4 * w + r] as int * Pow2(24 - r * 8)
  {
    hide Pow2;
    WordIsPow2();
    OneByte();
    high := if r == 0 then 0
            else if r == 1 then bs[4 * w]
            else if r == 2 then bs[4 * w] as int * 0x100 + bs[4 * w + 1] as int
            else bs[4 * w] as int * 0x1_0000 + bs[4 * w + 1] as int * 0x100 + bs[4 * w + 2] as int;
  }

  lemma OneByte()
    ensures Pow2(0) == 1
  {
  }

  lemma BinaryNext(padded: seq<CodeUnit>, i: nat)
    ensures IsBinary([])
    ensures i < |padded| ==> (IsBinary(padded[..i + 1]) <==> IsBinary(padded[..i]) && padded[i] < 256)
    ensures i < |padded| && IsBinary(padded) ==> padded[i] < 256
  {
  }

  lemma NextIndex(i: nat)
    ensures (i + 1) / 4 == (if i % 4 == 3 then i / 4 + 1 else i / 4)
    ensures (i + 1) % 4 == (if i % 4 == 3 then 0 else i % 4 + 1)
    ensures (i + 3) / 4 == (if i % 4 == 0 then i / 4 else i / 4 + 1) && (i + 4) / 4 == i / 4 + 1
  {
  }

  lemma NothingPacked(padded: seq<CodeUnit>, w: nat)
    requires 4 * w <= |padded|
    ensures PartialWord(padded, w, 0) == 0
  {
  }

  /** Ors each character into its place in its word; a missing entry counts as 0. */
  method Pack(padded: seq<CodeUnit>) returns (words: Option<seq<int>>)
    requires |padded| % 4 == 0
    ensures words.None? <==> !IsBinary(padded)
    ensures words.Some? ==> |words.value| == |padded| / 4 && forall w :: 0 <= w < |padded| / 4 ==>
              IsInt32(words.value[w]) && ToUint32(words.value[w]) == PartialWord(padded, w, 4)
  {
    assert ToUint32(0) == 0;
    hide ToUint32, ToInt32, Operator, ShiftLeft, IsBinary, IsInt32, PartialWord;
    BinaryNext(padded, 0);
    var ws: seq<int> := [];
    var i := 0;
    while i < |padded|
      invariant 0 <= i <= |padded| && IsBinary(padded[..i])
      invariant |ws| == (i + 3) / 4
      invariant forall w :: 0 <= w < |ws| ==> IsInt32(ws[w])
      invariant forall w :: 0 <= w < i / 4 ==> ToUint32(ws[w]) == PartialWord(padded, w, 4)
      invariant i % 4 != 0 ==> ToUint32(ws[i / 4]) == PartialWord(padded, i / 4, i % 4)
    {
      var j := padded[i];
      BinaryNext(padded, i);
      if j / 256 != 0 {
        return None;
      }
      var entry := if i / 4 < |ws| then ws[i / 4] else 0;
      NextIndex(i);
      NothingPacked(padded, i / 4);
      OrByte(entry, padded, i);
      OperatorWord(Or, entry, ShiftLeft(j, 24 - (i % 4) * 8));
      var packed := Operator(Or, entry, ShiftLeft(j, 24 - (i % 4) * 8));
      ws := if i / 4 < |ws| then ws[i / 4 := packed] else ws + [packed];
      i := i + 1;
    }
    assert padded[..i] == padded;
    words := Some(ws);
  }

  // ---- The length words ----

  /**
   * The words index.js builds for a message: those of section 5.2.1 except that the high half of the length is
   * asciiLength / 2^32 instead of 8 * asciiLength / 2^32, and the low half is not reduced.
   */
  ghost predicate PacksAs(message: seq<Byte>, words: seq<int>) {
    var n := |PaddedWords(message)|;
    && |words| == n >= 2
    && (forall i :: 0 <= i < n - 2 ==> IsInt32(words[i]) && ToUint32(words[i]) == PaddedWords(message)[i])
    && words[n - 2] == ToInt32(|message| / WORD_RANGE)
    && words[n - 1] == 8 * |message|
  }

  method PadAndPack(ascii: seq<CodeUnit>) returns (words: Option<seq<int>>)
    ensures words.None? <==> !IsBinary(ascii)
    ensures words.Some? ==> PacksAs(BytesOf(ascii), words.value)
  {
    hide ToUint32, ToInt32, PaddedWords, PartialWord, ZeroCount;
    var padded := Pad(ascii);
    words := Pack(padded);
    PadKeepsBinary(ascii, padded);
    if words.Some? {
      PackedBody(ascii, padded, words.value);
      words := Some(words.value + [ToInt32(|ascii| / WORD_RANGE), |ascii| * 8]);
    }
  }

  lemma PadKeepsBinary(ascii: seq<CodeUnit>, padded: seq<CodeUnit>)
    requires padded == ascii + [0x80] + Zeros(ZeroCount(|ascii|))
    ensures IsBinary(padded) <==> IsBinary(ascii)
  {
    assert forall i :: 0 <= i < |ascii| ==> padded[i] == ascii[i];
  }

  lemma PackedBody(ascii: seq<CodeUnit>, padded: seq<CodeUnit>, words: seq<int>)
    requires padded == ascii + [0x80] + Zeros(ZeroCount(|ascii|)) && IsBinary(ascii)
    requires |padded| % 4 == 0 && |words| == |padded| / 4
    requires forall w :: 0 <= w < |words| ==> ToUint32(words[w]) == PartialWord(padded, w, 4)
    ensures |words| + 2 == |PaddedWords(BytesOf(ascii))|
    ensures forall w :: 0 <= w < |words| ==> ToUint32(words[w]) == PaddedWords(BytesOf(ascii))[w]
  {
    var bs := Padded(BytesOf(ascii));
    forall w | 0 <= w < |words| ensures ToUint32(words[w]) == WordAt(bs, w) {
      WordAtSum(bs, w);
    }
  }

  lemma WordAtSum(bs: seq<Byte>, w: nat)
    requires 4 * w + 4 <= |bs|
    ensures WordAt(bs, w) == PartialWord(bs, w, 4)
  {
    FourBytes(bs[4 * w..4 * w + 4]);
  }

  lemma FourBytes(b: seq<Byte>)
    requires |b| == 4
    ensures FromBigEndian(b) == b[0] as int * 0x100_0000 + b[1] as int * 0x1_0000 + b[2] as int * 0x100 + b[3] as int
  {
    assert b[..3][..2] == b[..2] && b[..2][..1] == b[..1] && b[..1][..0] == [];
    assert FromBigEndian(b[..1]) == b[0];
    assert FromBigEndian(b[..2]) == 256 * FromBigEndian(b[..1]) + b[1];
    assert FromBigEndian(b[..3]) == 256 * FromBigEndian(b[..2]) + b[2];
  }

  lemma LengthField(message: seq<Byte>)
    requires |message| < MAX_MESSAGE
    ensures var n := |Padded(message)|;
            && Padded(message)[n - 8..n - 4] == ToBigEndian(8 * |message| / WORD_RANGE, 4)
            && Padded(message)[n - 4..n] == ToBigEndian(8 * |message| % WORD_RANGE, 4)
  {
    hide ZeroCount, Zeros, ToBigEndian;
    var bits, bs := 8 * |message|, Padded(message);
    var n := |bs|;
    assert Pow256(4) == WORD_RANGE;
    BigEndianSplit(bits / WORD_RANGE, bits % WORD_RANGE, 4, 4);
    assert bs[n - 8..] == ToBigEndian(bits, 8);
    assert bs[n - 8..n - 4] == bs[n - 8..][..4];
    assert bs[n - 4..n] == bs[n - 8..][4..];
  }

  /** The last two words of section 5.1.1: the bit length in two halves. */
  lemma LengthWords(message: seq<Byte>)
    requires |message| < MAX_MESSAGE
    ensures var ws := PaddedWords(message);
            && |ws| >= 2
            && ws[|ws| - 2] == |message| / 0x2000_0000
            && ws[|ws| - 1] == (8 * |message|) % WORD_RANGE
  {
    hide Padded, ToBigEndian, FromBigEndian, WordAt;
    var bs, bits := Padded(message), 8 * |message|;
    var m := |bs| / 4;
    PaddedPrefix(message);
    LengthField(message);
    HighHalf(|message|);
    WholeBlocks(|bs|);
    ParsedTail(bs, m, bits / WORD_RANGE, bits % WORD_RANGE);
    assert PaddedWords(message) == ParseWords(bs);
  }

  lemma HighHalf(length: nat)
    requires length < MAX_MESSAGE
    ensures 8 * length / WORD_RANGE == length / 0x2000_0000 < WORD_RANGE
  {
  }

  lemma ParsedTail(bs: seq<Byte>, m: nat, h: Word, l: Word)
    requires |bs| == 4 * m && m >= 2
    requires bs[4 * m - 8..4 * m - 4] == ToBigEndian(h, 4) && bs[4 * m - 4..4 * m] == ToBigEndian(l, 4)
    ensures WordAt(bs, m - 2) == h && WordAt(bs, m - 1) == l
  {
    assert Pow256(4) == WORD_RANGE;
    BigEndianRoundTrip(h, 4);
    BigEndianRoundTrip(l, 4);
    hide ToBigEndian, FromBigEndian;
    assert 4 * (m - 2) == 4 * m - 8 && 4 * (m - 1) == 4 * m - 4;
  }

  lemma SmallWord(x: nat)
    requires x < WORD_RANGE
    ensures ToUint32(ToInt32(x)) == x
  {
  }

  /** The padding is the one of section 5.1.1 exactly for messages under 2^29 characters. */
  lemma PaddingAgreesIff(message: seq<Byte>, words: seq<int>)
    requires |message| < MAX_MESSAGE && PacksAs(message, words)
    ensures Words(words) == PaddedWords(message) <==> |message| < 0x2000_0000
  {
    hide ToInt32, PaddedWords;
    var ws, n := PaddedWords(message), |words|;
    LengthWords(message);
    SmallWord(|message| / WORD_RANGE);
    assert ToUint32(words[n - 1]) == ws[n - 1];
    hide ToUint32;
    assert forall i :: 0 <= i < n && i != n - 2 ==> Words(words)[i] == ws[i];
    assert |message| / WORD_RANGE == |message| / 0x2000_0000 <==> |message| < 0x2000_0000;
  }

  /** A message of 2^29 characters is padded with the wrong high length word. */
  lemma LongMessageDisagrees(message: seq<Byte>, words: seq<int>)
    requires |message| == 0x2000_0000 && PacksAs(message, words)
    ensures ToUint32(words[|words| - 2]) == 0 && PaddedWords(message)[|words| - 2] == 1
  {
    hide PaddedWords;
    LengthWords(message);
  }

  /** Different messages are padded to different lists of words. */
  lemma PaddingInjective(a: seq<Byte>, b: seq<Byte>, words: seq<int>)
    requires PacksAs(a, words) && PacksAs(b, words)
    ensures a == b
  {
    hide ToUint32, ToInt32, WordAt, Padded, PaddedWords;
    forall i | 0 <= i < |a| ensures a[i] == b[i] {
      MessageByte(a, i);
      MessageByte(b, i);
      SameBytes(Padded(a), Padded(b), i / 4, i % 4);
    }
  }

  /** Byte i of a message is byte i % 4 of word i / 4, before the length words. */
  lemma MessageByte(message: seq<Byte>, i: nat)
    requires i < |message|
    ensures i / 4 < |PaddedWords(message)| - 2 && 4 * (i / 4) + 4 <= |Padded(message)|
    ensures PaddedWords(message)[i / 4] == WordAt(Padded(message), i / 4)
    ensures i == 4 * (i / 4) + i % 4 && Padded(message)[i] == message[i]
  {
    hide WordAt, Padded;
    PaddedPrefix(message);
    WholeBlocks(|Padded(message)|);
    assert Padded(message)[..|message|][i] == message[i];
  }

  lemma SameBytes(a: seq<Byte>, b: seq<Byte>, w: nat, r: nat)
    requires 4 * w + 4 <= |a| && 4 * w + 4 <= |b| && WordAt(a, w) == WordAt(b, w) && r < 4
    ensures a[4 * w + r] == b[4 * w + r]
  {
    hide FromBigEndian;
    BigEndianInjective(a[4 * w..4 * w + 4], b[4 * w..4 * w + 4]);
    assert a[4 * w..4 * w + 4][r] == a[4 * w + r] && b[4 * w..4 * w + 4][r] == b[4 * w + r];
  }

  lemma PaddedPrefix(message: seq<Byte>)
    ensures |Padded(message)| >= |message| + 9 && Padded(message)[..|message|] == message
  {
  }
}
