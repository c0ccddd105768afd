/** SHA-256 as FIPS 180-4 defines it, over words reduced mod 2^32 and eight working variables. */
module Fips180 {
  import opened Bits
  import opened Bytes

  // ---- Section 4.1.2: functions ----

  function Not(x: Word): Word {
    WORD_RANGE - 1 - x
  }

  /** Circular right shift: the n low digits of x move to the top. */
  function Rotr(n: nat, x: Word): Word
    requires 0 < n < 32
  {
    RotrBound(n, x);
    Low(x, n) * Pow2(32 - n) + High(x, n)
  }

  lemma RotrBound(n: nat, x: Word)
    requires 0 < n < 32
    ensures High(x, n) < Pow2(32 - n)
    ensures 0 <= Low(x, n) * Pow2(32 - n) + High(x, n) < WORD_RANGE
  {
    WordIsPow2();
    Pow2Add(n, 32 - n);
    HighBound(x, 32 - n, n);
    MulBound(Low(x, n), High(x, n), Pow2(n), Pow2(32 - n));
  }

  lemma MulBound(l: nat, h: nat, p: nat, q: nat)
    requires l < p && h < q
    ensures 0 <= l * q + h < p * q
  {
    assert l * q <= (p - 1) * q == p * q - q;
  }

  function Shr(n: nat, x: Word): Word {
    High(x, n)
  }

  function Xor3(x: Word, y: Word, z: Word): Word {
    WordGate(Xor, WordGate(Xor, x, y), z)
  }

  function Ch(x: Word, y: Word, z: Word): Word {
    WordGate(Xor, WordGate(And, x, y), WordGate(And, Not(x), z))
  }

  function Maj(x: Word, y: Word, z: Word): Word {
    Xor3(WordGate(And, x, y), WordGate(And, x, z), WordGate(And, y, z))
  }

  function BigSigma0(x: Word): Word { Xor3(Rotr(2, x), Rotr(13, x), Rotr(22, x)) }

  function BigSigma1(x: Word): Word { Xor3(Rotr(6, x), Rotr(11, x), Rotr(25, x)) }

  function SmallSigma0(x: Word): Word { Xor3(Rotr(7, x), Rotr(18, x), Shr(3, x)) }

  function SmallSigma1(x: Word): Word { Xor3(Rotr(17, x), Rotr(19, x), Shr(10, x)) }

  // ---- Section 6.2.2: hash computation; k is the constant table of section 4.2.2 ----

  datatype Vars = Vars(a: Word, b: Word, c: Word, d: Word, e: Word, f: Word, g: Word, h: Word)

  function Schedule(block: seq<Word>, t: nat): Word
    requires |block| == 16
  {
    if t < 16 then block[t]
    else Plus(Plus(Plus(SmallSigma1(Schedule(block, t - 2)), Schedule(block, t - 7)),
                   SmallSigma0(Schedule(block, t - 15))), Schedule(block, t - 16))
  }

  function T1(v: Vars, k: Word, w: Word): Word {
    Plus(Plus(Plus(Plus(v.h, BigSigma1(v.e)), Ch(v.e, v.f, v.g)), k), w)
  }

  function T2(v: Vars): Word {
    Plus(BigSigma0(v.a), Maj(v.a, v.b, v.c))
  }

  function Round(v: Vars, k: Word, w: Word): Vars {
    var t1 := T1(v, k, w);
    Vars(Plus(t1, T2(v)), v.a, v.b, v.c, Plus(v.d, t1), v.e, v.f, v.g)
  }

  /** The working variables after t rounds. */
  function Rounds(v: Vars, block: seq<Word>, k: seq<Word>, t: nat): Vars
    requires |block| == 16 && t <= |k|
    decreases t
  {
    if t == 0 then v else Round(Rounds(v, block, k, t - 1), k[t - 1], Schedule(block, t - 1))
  }

  function AddVars(x: Vars, y: Vars): Vars {
    Vars(Plus(x.a, y.a), Plus(x.b, y.b), Plus(x.c, y.c), Plus(x.d, y.d),
         Plus(x.e, y.e), Plus(x.f, y.f), Plus(x.g, y.g), Plus(x.h, y.h))
  }

  function Compress(v: Vars, block: seq<Word>, k: seq<Word>): Vars
    requires |block| == 16 && |k| == 64
  {
    AddVars(Rounds(v, block, k, 64), v)
  }

  function Block(words: seq<Word>, i: nat): (block: seq<Word>)
    requires 16 * i + 16 <= |words|
    ensures |block| == 16
  {
    words[16 * i..16 * i + 16]
  }

  /** The hash value after the first n blocks. */
  function HashBlocks(h0: Vars, words: seq<Word>, k: seq<Word>, n: nat): Vars
    requires |k| == 64 && 16 * n <= |words|
    decreases n
  {
    if n == 0 then h0
    else Compress(HashBlocks(h0, words, k, n - 1), Block(words, n - 1), k)
  }

  // ---- Sections 5.1.1 and 5.2.1: padding and parsing ----

  /** Messages shorter than 2^64 bits, the lengths section 5.1.1 covers. */
  const MAX_MESSAGE: nat := 0x2000_0000_0000_0000

  predicate LeavesLengthField(length: nat, zeros: nat) {
    (length + 1 + zeros) % 64 == 56
  }

  /** The number of zero bytes after the byte 0x80: the least that leaves 8 bytes of the last 64-byte block. */
  function ZeroCount(length: nat): (z: nat)
    ensures LeavesLengthField(length, z)
    ensures forall y: nat :: y < z ==> !LeavesLengthField(length, y)
  {
    (119 - length % 64) % 64
  }

  function Zeros(n: nat): (z: seq<Byte>)
    ensures |z| == n
  {
    seq(n, _ => 0)
  }

  function Padded(message: seq<Byte>): (bs: seq<Byte>)
    ensures |bs| % 64 == 0
  {
    var z := ZeroCount(|message|);
    LengthFieldEndsBlock(|message| + 1 + z);
    message + [0x80] + Zeros(z) + ToBigEndian(8 * |message|, 8)
  }

  function WordAt(bs: seq<Byte>, i: nat): Word
    requires 4 * i + 4 <= |bs|
  {
    FromBigEndianBound(bs[4 * i..4 * i + 4]);
    assert Pow256(4) == WORD_RANGE;
    FromBigEndian(bs[4 * i..4 * i + 4])
  }

  function ParseWords(bs: seq<Byte>): (ws: seq<Word>)
    requires |bs| % 4 == 0
    ensures |ws| == |bs| / 4
    ensures forall i :: 0 <= i < |ws| ==> ws[i] == WordAt(bs, i)
  {
    seq(|bs| / 4, i requires 0 <= i < |bs| / 4 => WordAt(bs, i))
  }

  function PaddedWords(message: seq<Byte>): (ws: seq<Word>)
    ensures |ws| % 16 == 0
  {
    var bs := Padded(message);
    WholeBlocks(|bs|);
    ParseWords(bs)
  }

  lemma WholeBlocks(n: nat)
    requires n % 64 == 0
    ensures n % 4 == 0 && (n / 4) % 16 == 0
  {
    var k := n / 64;
    assert n == 64 * k;
    assert n / 4 == 16 * k;
  }

  lemma LengthFieldEndsBlock(n: nat)
    requires n % 64 == 56
    ensures (n + 8) % 64 == 0
  {
  }

  function VarsBytes(v: Vars): (bs: seq<Byte>)
    ensures |bs| == 32
  {
    ToBigEndian(v.a, 4) + ToBigEndian(v.b, 4) + ToBigEndian(v.c, 4) + ToBigEndian(v.d, 4) +
    ToBigEndian(v.e, 4) + ToBigEndian(v.f, 4) + ToBigEndian(v.g, 4) + ToBigEndian(v.h, 4)
  }

  /** Section 5.3.3. */
  const H0: Vars := Vars(0x6a09e667, 0xbb67ae85, 0x3c6ef372, 0xa54ff53a,
                         0x510e527f, 0x9b05688c, 0x1f83d9ab, 0x5be0cd19)

  /** Section 4.2.2, sixteen constants a quarter. */
  function K0(): (k: seq<Word>)
    ensures |k| == 16
  {
    [0x428a2f98, 0x71374491, 0xb5c0fbcf, 0xe9b5dba5,
     0x3956c25b, 0x59f111f1, 0x923f82a4, 0xab1c5ed5,
     0xd807aa98, 0x12835b01, 0x243185be, 0x550c7dc3,
     0x72be5d74, 0x80deb1fe, 0x9bdc06a7, 0xc19bf174]
  }

  function K1(): (k: seq<Word>)
    ensures |k| == 16
  {
    [0xe49b69c1, 0xefbe4786, 0x0fc19dc6, 0x240ca1cc,
     0x2de92c6f, 0x4a7484aa, 0x5cb0a9dc, 0x76f988da,
     0x983e5152, 0xa831c66d, 0xb00327c8, 0xbf597fc7,
     0xc6e00bf3, 0xd5a79147, 0x06ca6351, 0x14292967]
  }

  function K2(): (k: seq<Word>)
    ensures |k| == 16
  {
    [0x27b70a85, 0x2e1b2138, 0x4d2c6dfc, 0x53380d13,
     0x650a7354, 0x766a0abb, 0x81c2c92e, 0x92722c85,
     0xa2bfe8a1, 0xa81a664b, 0xc24b8b70, 0xc76c51a3,
     0xd192e819, 0xd6990624, 0xf40e3585, 0x106aa070]
  }

  function K3(): (k: seq<Word>)
    ensures |k| == 16
  {
    [0x19a4c116, 0x1e376c08, 0x2748774c, 0x34b0bcb5,
     0x391c0cb3, 0x4ed8aa4a, 0x5b9cca4f, 0x682e6ff3,
     0x748f82ee, 0x78a5636f, 0x84c87814, 0x8cc70208,
     0x90befffa, 0xa4506ceb, 0xbef9a3f7, 0xc67178f2]
  }

  function K(): (k: seq<Word>)
    ensures |k| == 64
  {
    K0() + K1() + K2() + K3()
  }

  function Digest(message: seq<Byte>): seq<Byte> {
    var ws := PaddedWords(message);
    VarsBytes(HashBlocks(H0, ws, K(), |ws| / 16))
  }
}
