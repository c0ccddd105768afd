/** The signed offer on the wire: signMessage of the client against _raw_to_der and verify_signature of the agent. */
module SignedOffer {
  import opened Base64
  import opened Bytes
  import opened Sha256Padding
  import opened Wrappers
  import Fips180
  import Pem

  // ---- Client: signMessage after the library has produced (r, s) ----

  /** Copies r and s into the two halves of a buffer, makes a binary string of it and encodes that. */
  method EncodeSignature(r: nat, s: nat) returns (text: string)
    requires r < Pow256(32) && s < Pow256(32)
    ensures text == Encode(ToBigEndian(r, 32) + ToBigEndian(s, 32))
  {
    hide ToBigEndian, Encode;
    var rawSig := new Byte[64];
    var rBytes, sBytes := ToBigEndian(r, 32), ToBigEndian(s, 32);
    Pem.Set(rawSig, rBytes, 0);
    assert rawSig[..32] == rBytes && rawSig[64..] == [];
    Pem.Set(rawSig, sBytes, 32);
    assert rawSig[..] == ToBigEndian(r, 32) + ToBigEndian(s, 32);
    var binary: seq<Byte> := [];
    var i := 0;
    while i < rawSig.Length
      invariant 0 <= i <= rawSig.Length && binary == rawSig[..i]
    {
      binary := binary + [rawSig[i]];
      i := i + 1;
    }
    assert binary == rawSig[..];
    text := Encode(binary);
  }

  // ---- Agent ----

  /** What the library is asked to verify: a pair of integers, or bytes taken for DER already. */
  datatype Signature = Raw(r: nat, s: nat) | Der(bytes: seq<Byte>)

  function RawToDer(bytes: seq<Byte>): Signature {
    if |bytes| != 64 then Der(bytes) else Raw(FromBigEndian(bytes[..32]), FromBigEndian(bytes[32..]))
  }

  /** The library's verdict on a key, a SHA-256 digest and a signature; an exception counts as false. */
  datatype Library = Library(accepts: (string, seq<Byte>, Signature) -> bool)

  /** The paired clients and verify_signature. */
  predicate VerifySignature(library: Library, paired: map<string, string>, clientId: Option<string>,
                            message: seq<Byte>, signature: seq<Byte>)
  {
    && clientId.Some? && clientId.value in paired && paired[clientId.value] != ""
    && library.accepts(paired[clientId.value], Fips180.Digest(message), RawToDer(signature))
  }

  /** The agent recovers the client's r and s, through the 64-byte branch. */
  lemma SignatureRoundTrip(r: nat, s: nat)
    requires r < Pow256(32) && s < Pow256(32)
    ensures var decoded := DecodeLenient(Encode(ToBigEndian(r, 32) + ToBigEndian(s, 32)));
            decoded.Some? && |decoded.value| == 64 && RawToDer(decoded.value) == Raw(r, s)
  {
    var bytes := ToBigEndian(r, 32) + ToBigEndian(s, 32);
    RoundTrip(bytes);
    LenientExtends(Encode(bytes));
    BigEndianRoundTrip(r, 32);
    BigEndianRoundTrip(s, 32);
    assert bytes[..32] == ToBigEndian(r, 32) && bytes[32..] == ToBigEndian(s, 32);
  }

  /** Exactly 64 bytes are read as a pair, other signatures are passed on as they are, and nothing is confused. */
  lemma RawInjective(a: seq<Byte>, b: seq<Byte>)
    ensures RawToDer(a).Raw? <==> |a| == 64
    ensures |a| != 64 ==> RawToDer(a).bytes == a
    ensures RawToDer(a) == RawToDer(b) ==> a == b
  {
    if |a| == 64 && RawToDer(a) == RawToDer(b) {
      BigEndianInjective(a[..32], b[..32]);
      BigEndianInjective(a[32..], b[32..]);
      assert a == a[..32] + a[32..] && b == b[..32] + b[32..];
    }
  }

  // ---- Which bytes are hashed ----

  /** A code point of a Python string; below 65536 these are the code units. */
  type CodePoint = x: int | 0 <= x < 0x11_0000

  /** UTF-8, section 3 of RFC 3629. */
  function Utf8Char(c: CodePoint): seq<Byte> {
    if c < 0x80 then [c]
    else if c < 0x800 then [0xc0 + c / 64, 0x80 + c % 64]
    else if c < 0x1_0000 then [0xe0 + c / 4096, 0x80 + c / 64 % 64, 0x80 + c % 64]
    else [0xf0 + c / 262144, 0x80 + c / 4096 % 64, 0x80 + c / 64 % 64, 0x80 + c % 64]
  }

  /** Python's encoder raises on a surrogate. */
  predicate Encodable(text: seq<CodePoint>) {
    forall i :: 0 <= i < |text| ==> !(0xd800 <= text[i] < 0xe000)
  }

  function Utf8(text: seq<CodePoint>): seq<Byte> {
    if |text| == 0 then [] else Utf8Char(text[0]) + Utf8(text[1..])
  }

  predicate IsTail(b: Byte) {
    0x80 <= b < 0xc0
  }

  /** The decoder of section 4 of RFC 3629: only the shortest forms, and no surrogates. */
  function FromUtf8(bs: seq<Byte>): Option<seq<CodePoint>> {
    if |bs| == 0 then Some([])
    else if bs[0] < 0x80 then Prepended(bs[0], FromUtf8(bs[1..]))
    else if 0xc2 <= bs[0] < 0xe0 && |bs| >= 2 && IsTail(bs[1]) then
      Prepended((bs[0] as int - 0xc0) * 0x40 + bs[1] as int - 0x80, FromUtf8(bs[2..]))
    else if 0xe0 <= bs[0] < 0xf0 && |bs| >= 3 && IsTail(bs[1]) && IsTail(bs[2]) then
      var c := (bs[0] as int - 0xe0) * 0x1000 + (bs[1] as int - 0x80) * 0x40 + bs[2] as int - 0x80;
      if c < 0x800 || 0xd800 <= c < 0xe000 then None else Prepended(c, FromUtf8(bs[3..]))
    else if 0xf0 <= bs[0] < 0xf5 && |bs| >= 4 && IsTail(bs[1]) && IsTail(bs[2]) && IsTail(bs[3]) then
      var c := (bs[0] as int - 0xf0) * 0x4_0000 + (bs[1] as int - 0x80) * 0x1000 + (bs[2] as int - 0x80) * 0x40
               + bs[3] as int - 0x80;
      if c < 0x1_0000 || c >= 0x11_0000 then None else Prepended(c, FromUtf8(bs[4..]))
    else None
  }

  function Prepended(c: CodePoint, rest: Option<seq<CodePoint>>): Option<seq<CodePoint>> {
    match rest case None => None case Some(text) => Some([c] + text)
  }

  /** The encoding is the one of RFC 3629: its decoder gives the text back. */
  lemma {:induction false} Utf8RoundTrip(text: seq<CodePoint>)
    requires Encodable(text)
    ensures FromUtf8(Utf8(text)) == Some(text)
  {
    if |text| > 0 {
      Utf8RoundTrip(text[1..]);
      CharDecodes(text[0], Utf8(text[1..]));
      assert text == [text[0]] + text[1..];
    }
  }

  lemma CharDecodes(c: CodePoint, rest: seq<Byte>)
    requires !(0xd800 <= c < 0xe000)
    ensures FromUtf8(Utf8Char(c) + rest) == Prepended(c, FromUtf8(rest))
  {
    var bs := Utf8Char(c) + rest;
    if c < 0x80 {
      assert bs[1..] == rest;
    } else if c < 0x800 {
      assert bs[2..] == rest;
    } else if c < 0x1_0000 {
      ThreeDigits(c);
      assert bs[3..] == rest;
    } else {
      FourDigits(c);
      assert bs[4..] == rest;
    }
  }

  lemma ThreeDigits(c: CodePoint)
    ensures c / 4096 * 0x1000 + c / 64 % 64 * 0x40 + c % 64 == c
  {
  }

  lemma FourDigits(c: CodePoint)
    ensures c / 262144 * 0x4_0000 + c / 4096 % 64 * 0x1000 + c / 64 % 64 * 0x40 + c % 64 == c
  {
    ThreeDigits(c);
  }

  predicate IsAscii(text: seq<CodePoint>) {
    forall i :: 0 <= i < |text| ==> text[i] < 128
  }

  lemma {:induction false} Utf8Length(text: seq<CodePoint>)
    ensures |Utf8(text)| >= |text|
    ensures |Utf8(text)| == |text| <==> IsAscii(text)
  {
    if |text| > 0 {
      Utf8Length(text[1..]);
      assert text == [text[0]] + text[1..];
      assert IsAscii(text) <==> text[0] < 128 && IsAscii(text[1..]);
    }
  }

  lemma {:induction false} Utf8Ascii(text: seq<CodeUnit>)
    requires IsAscii(text)
    ensures Utf8(text) == BytesOf(text)
  {
    if |text| > 0 {
      Utf8Ascii(text[1..]);
      assert BytesOf(text) == [text[0]] + BytesOf(text[1..]);
    }
  }

  /** The client hashes character codes and the agent UTF-8: the bytes agree exactly for ASCII text. */
  lemma HashedBytesAgreeIff(text: seq<CodeUnit>)
    requires IsBinary(text)
    ensures BytesOf(text) == Utf8(text) <==> IsAscii(text)
  {
    Utf8Length(text);
    if IsAscii(text) {
      Utf8Ascii(text);
    }
  }

  /** One accented letter already separates them. */
  lemma AccentDisagrees()
    ensures BytesOf([0xe9]) == [0xe9] && Utf8([0xe9]) == [0xc3, 0xa9]
  {
    assert Utf8([0xe9]) == Utf8Char(0xe9) + Utf8([]);
  }

  /**
   * End to end: for ASCII text the agent's check of the transmitted signature is the library's verdict on the stored
   * key, the digest the client signed and the client's own (r, s).
   */
  lemma OfferChecked(library: Library, paired: map<string, string>, clientId: string,
                     text: seq<CodeUnit>, r: nat, s: nat)
    requires IsAscii(text) && r < Pow256(32) && s < Pow256(32)
    requires clientId in paired && paired[clientId] != ""
    ensures var wire := DecodeLenient(Encode(ToBigEndian(r, 32) + ToBigEndian(s, 32)));
            wire.Some? &&
            (VerifySignature(library, paired, Some(clientId), Utf8(text), wire.value) <==>
             library.accepts(paired[clientId], Fips180.Digest(BytesOf(text)), Raw(r, s)))
  {
    SignatureRoundTrip(r, s);
    Utf8Ascii(text);
  }
}
