/** exportPublicKeyPEM: a fixed DER header, base 64, lines of 64 characters and the markers of RFC 7468. */
module Pem {
  import opened Base64
  import opened Bytes
  import opened Wrappers

  const BEGIN := "-----BEGIN PUBLIC KEY-----"
  const END := "-----END PUBLIC KEY-----"

  /** The AlgorithmIdentifier contents: the object identifiers of EC public keys and of P-256. */
  const ALGORITHM: seq<Byte> :=
    [0x06, 0x07, 0x2a, 0x86, 0x48, 0xce, 0x3d, 0x02, 0x01, 0x06, 0x08, 0x2a, 0x86, 0x48, 0xce, 0x3d, 0x03, 0x01, 0x07]

  const HEADER: seq<Byte> := [0x30, 0x59, 0x30, 0x13] + ALGORITHM + [0x03, 0x42, 0x00]

  // ---- Lines ----

  /** The pieces of at most 64 characters of a text without line breaks. */
  function Lines(text: string): seq<string> {
    if |text| == 0 then [] else if |text| <= 64 then [text] else [text[..64]] + Lines(text[64..])
  }

  function Concat(lines: seq<string>): string {
    if |lines| == 0 then "" else lines[0] + Concat(lines[1..])
  }

  lemma {:induction false} LinesShape(text: string)
    ensures Concat(Lines(text)) == text
    ensures forall i :: 0 <= i < |Lines(text)| ==> 1 <= |Lines(text)[i]| <= 64
    ensures forall i :: 0 <= i < |Lines(text)| - 1 ==> |Lines(text)[i]| == 64
    ensures AllBase64(text) ==> forall i :: 0 <= i < |Lines(text)| ==> AllBase64(Lines(text)[i])
  {
    if 0 < |text| <= 64 {
      assert Concat([text]) == text;
    } else if |text| > 64 {
      LinesShape(text[64..]);
      assert text == text[..64] + text[64..];
      assert AllBase64(text) ==> AllBase64(text[64..]);
    }
  }

  function Join(lines: seq<string>): string {
    if |lines| == 0 then "" else if |lines| == 1 then lines[0] else lines[0] + "\n" + Join(lines[1..])
  }

  /** The lines of a text, without their breaks. */
  function Split(text: string): (lines: seq<string>)
    ensures |lines| > 0
  {
    if |text| == 0 then [""]
    else
      var rest := Split(text[1..]);
      if text[0] == '\n' then [""] + rest else [[text[0]] + rest[0]] + rest[1..]
  }

  predicate Unbroken(line: string) {
    forall i :: 0 <= i < |line| ==> line[i] != '\n'
  }

  lemma {:induction false} SplitLine(line: string, rest: string)
    requires Unbroken(line)
    ensures Split(line) == [line]
    ensures Split(line + "\n" + rest) == [line] + Split(rest)
  {
    var text := line + "\n" + rest;
    if |line| == 0 {
      assert text[1..] == rest;
    } else {
      SplitLine(line[1..], rest);
      assert text[1..] == line[1..] + "\n" + rest;
      assert [line[0]] + line[1..] == line;
    }
  }

  lemma {:induction false} SplitJoin(lines: seq<string>)
    requires |lines| > 0 && forall i :: 0 <= i < |lines| ==> Unbroken(lines[i])
    ensures Split(Join(lines)) == lines
  {
    hide Split, Unbroken;
    SplitLine(lines[0], Join(lines[1..]));
    if |lines| > 1 {
      SplitJoin(lines[1..]);
      assert lines == [lines[0]] + lines[1..];
    } else {
      assert lines == [lines[0]];
    }
  }

  // ---- Export ----

  method Export(pubBytes: seq<Byte>) returns (pem: string)
    ensures pem == BEGIN + "\n" + Join(Lines(Encode(HEADER + pubBytes))) + "\n" + END
  {
    var spki := new Byte[|HEADER| + |pubBytes|];
    Set(spki, HEADER, 0);
    Set(spki, pubBytes, |HEADER|);
    assert spki[..] == HEADER + pubBytes;
    var binary: seq<Byte> := [];
    var i := 0;
    while i < spki.Length
      invariant 0 <= i <= spki.Length && binary == spki[..i]
    {
      binary := binary + [spki[i]];
      i := i + 1;
    }
    assert binary == spki[..];
    pem := BEGIN + "\n" + Join(Lines(Encode(binary))) + "\n" + END;
  }

  /** Uint8Array.set: copies a list into an array from an offset on. */
  method Set(a: array<Byte>, values: seq<Byte>, offset: nat)
    requires offset + |values| <= a.Length
    modifies a
    ensures a[..] == old(a[..offset]) + values + old(a[offset + |values|..])
  {
    var i := 0;
    while i < |values|
      invariant 0 <= i <= |values|
      invariant a[..] == old(a[..offset]) + values[..i] + old(a[offset + i..])
    {
      a[offset + i] := values[i];
      i := i + 1;
    }
  }

  // ---- Reading ----

  /** An encapsulation boundary of section 2 of RFC 7468. */
  function Boundary(kind: string, name: string): string {
    "-----" + kind + " " + name + "-----"
  }

  /** The bytes between the boundaries: section 2 of RFC 7468. */
  function Read(pem: string): Option<seq<Byte>> {
    var lines := Split(pem);
    if |lines| < 2 || lines[0] != Boundary("BEGIN", "PUBLIC KEY") || lines[|lines| - 1] != Boundary("END", "PUBLIC KEY")
    then None
    else Decode(Concat(lines[1..|lines| - 1]))
  }

  lemma BreakLess(s: string)
    requires AllBase64(s)
    ensures Unbroken(s)
  {
    forall i | 0 <= i < |s| ensures s[i] != '\n' {
      assert IsBase64Char(s[i]);
      assert CharDigit('\n') == None;
    }
  }

  lemma {:induction false} JoinEnds(first: string, middle: seq<string>, last: string)
    requires |middle| > 0
    ensures first + "\n" + Join(middle) + "\n" + last == Join([first] + middle + [last])
  {
    var all := [first] + middle + [last];
    assert all[1..] == middle + [last];
    JoinLast(middle, last);
  }

  lemma {:induction false} JoinLast(middle: seq<string>, last: string)
    requires |middle| > 0
    ensures Join(middle + [last]) == Join(middle) + "\n" + last
  {
    var all := middle + [last];
    if |middle| == 1 {
      assert all[1..] == [last];
    } else {
      JoinLast(middle[1..], last);
      assert all[1..] == middle[1..] + [last];
    }
  }

  lemma NoLines(text: string)
    ensures |text| > 0 ==> |Lines(text)| > 0
  {
  }

  /** Reading an exported key gives the header and the key back, whatever the key bytes are. */
  lemma ReadExported(pubBytes: seq<Byte>, pem: string)
    requires pem == BEGIN + "\n" + Join(Lines(Encode(HEADER + pubBytes))) + "\n" + END
    ensures Read(pem) == Some(HEADER + pubBytes)
  {
    hide Encode, Lines, Join, Split;
    assert Boundary("BEGIN", "PUBLIC KEY") == BEGIN && Boundary("END", "PUBLIC KEY") == END;
    var text := Encode(HEADER + pubBytes);
    var lines := Lines(text);
    EncodedChars(HEADER + pubBytes);
    EncodedLength(HEADER + pubBytes);
    LinesShape(text);
    NoLines(text);
    var all := [BEGIN] + lines + [END];
    JoinEnds(BEGIN, lines, END);
    forall i | 0 <= i < |all| ensures Unbroken(all[i]) {
      if 0 < i < |all| - 1 {
        BreakLess(lines[i - 1]);
        assert all[i] == lines[i - 1];
      }
    }
    SplitJoin(all);
    assert all[1..|all| - 1] == lines;
    RoundTrip(HEADER + pubBytes);
  }

  // ---- DER ----

  /**
   * SubjectPublicKeyInfo with one-byte lengths: a sequence of an algorithm sequence and a bit string without unused
   * bits, each filling its container exactly. The result is the algorithm contents and the key bits.
   */
  function ReadSpki(b: seq<Byte>): Option<(seq<Byte>, seq<Byte>)> {
    if |b| < 4 || b[0] != 0x30 || b[1] >= 0x80 || b[1] as int != |b| - 2 || b[2] != 0x30 || b[3] >= 0x80 then None
    else
      var bits := 4 + b[3] as int;
      if |b| < bits + 3 || b[bits] != 0x03 || b[bits + 1] >= 0x80 || b[bits + 1] as int != |b| - bits - 2
         || b[bits + 2] != 0
      then None
      else Some((b[4..bits], b[bits + 3..]))
  }

  /** The fixed lengths of the header are right exactly for the 65 bytes of an uncompressed point. */
  lemma HeaderFitsIff(pubBytes: seq<Byte>)
    ensures ReadSpki(HEADER + pubBytes) == if |pubBytes| == 65 then Some((ALGORITHM, pubBytes)) else None
  {
    var b := HEADER + pubBytes;
    assert |HEADER| == 26 && b[..26] == HEADER;
    assert b[0] == 0x30 && b[1] == 0x59 && b[2] == 0x30 && b[3] == 0x13;
    assert b[23] == HEADER[23] && b[24] == HEADER[24] && b[25] == HEADER[25];
    assert HEADER[4..23] == ALGORITHM;
    assert b[4..23] == ALGORITHM && b[26..] == pubBytes;
  }

  // ---- Object identifiers ----

  /** Base-128 numbers, most significant digit first, with the top bit set on all digits but the last. */
  function SubIdentifiers(b: seq<Byte>, high: nat, open: bool): Option<seq<nat>> {
    if |b| == 0 then if open then None else Some([])
    else if b[0] >= 128 then SubIdentifiers(b[1..], high * 128 + b[0] - 128, true)
    else
      match SubIdentifiers(b[1..], 0, false)
      case None => None
      case Some(rest) => Some([high * 128 + b[0]] + rest)
  }

  /** The arcs of an object identifier; the first number stands for two. Section 8.19 of X.690. */
  function Arcs(b: seq<Byte>): Option<seq<nat>> {
    match SubIdentifiers(b, 0, false)
    case None => None
    case Some(ids) =>
      if |ids| == 0 then None
      else if ids[0] < 40 then Some([0, ids[0]] + ids[1..])
      else if ids[0] < 80 then Some([1, ids[0] - 40] + ids[1..])
      else Some([2, ids[0] - 80] + ids[1..])
  }

  /** An object identifier with tag 6 and a one-byte length, and what follows it. */
  function ReadOid(b: seq<Byte>): Option<(seq<nat>, seq<Byte>)> {
    if |b| < 2 || b[0] != 6 || b[1] >= 0x80 || |b| < 2 + b[1] as int then None
    else
      match Arcs(b[2..2 + b[1] as int])
      case None => None
      case Some(arcs) => Some((arcs, b[2 + b[1] as int..]))
  }

  /** The two object identifiers of an elliptic curve's AlgorithmIdentifier: section 2.1.1 of RFC 5480. */
  function ReadCurve(b: seq<Byte>): Option<(seq<nat>, seq<nat>)> {
    match ReadOid(b)
    case None => None
    case Some((algorithm, rest)) =>
      match ReadOid(rest)
      case None => None
      case Some((curve, tail)) => if |tail| == 0 then Some((algorithm, curve)) else None
  }

  predicate HasNumbers(b: seq<Byte>, ids: seq<nat>) {
    var read := SubIdentifiers(b, 0, false);
    read.Some? && read.value == ids
  }

  predicate HasArcs(b: seq<Byte>, arcs: seq<nat>) {
    var read := Arcs(b);
    read.Some? && read.value == arcs
  }

  /** One number of one digit, or of two. */
  lemma NextNumber(b: seq<Byte>, rest: seq<Byte>, x: Byte, y: Byte, ids: seq<nat>, all: seq<nat>)
    requires HasNumbers(rest, ids) && y < 128
    requires if x < 128 then b == [x] + rest && all == [x as nat] + ids
             else b == [x, y] + rest && all == [(x - 128) * 128 + y] + ids
    ensures HasNumbers(b, all)
  {
    if x < 128 {
      assert b[1..] == rest;
    } else {
      assert b[1..] == [y] + rest && b[1..][1..] == rest;
    }
  }

  lemma NoNumbers()
    ensures HasNumbers([], [])
  {
  }

  lemma CurveNumbers()
    ensures HasNumbers([0x02, 0x01], [2, 1]) && HasNumbers([0x03, 0x01, 0x07], [3, 1, 7])
  {
    hide HasNumbers;
    NoNumbers();
    NextNumber([0x01], [], 0x01, 0, [], [1]);
    NextNumber([0x02, 0x01], [0x01], 0x02, 0, [1], [2, 1]);
    NextNumber([0x07], [], 0x07, 0, [], [7]);
    NextNumber([0x01, 0x07], [0x07], 0x01, 0, [7], [1, 7]);
    NextNumber([0x03, 0x01, 0x07], [0x01, 0x07], 0x03, 0, [1, 7], [3, 1, 7]);
  }

  /** Both object identifiers are under 1.2.840.10045. */
  lemma CommonArcs(rest: seq<Byte>, ids: seq<nat>)
    requires HasNumbers(rest, ids)
    ensures HasArcs([0x2a, 0x86, 0x48, 0xce, 0x3d] + rest, [1, 2, 840, 10045] + ids)
  {
    NextNumber([0xce, 0x3d] + rest, rest, 0xce, 0x3d, ids, [10045] + ids);
    NextNumber([0x86, 0x48, 0xce, 0x3d] + rest, [0xce, 0x3d] + rest, 0x86, 0x48, [10045] + ids, [840, 10045] + ids);
    NextNumber([0x2a, 0x86, 0x48, 0xce, 0x3d] + rest, [0x86, 0x48, 0xce, 0x3d] + rest, 0x2a, 0,
               [840, 10045] + ids, [42, 840, 10045] + ids);
    hide SubIdentifiers;
  }

  lemma CurveArcs()
    ensures HasArcs([0x2a, 0x86, 0x48, 0xce, 0x3d, 0x02, 0x01], [1, 2, 840, 10045, 2, 1])
    ensures HasArcs([0x2a, 0x86, 0x48, 0xce, 0x3d, 0x03, 0x01, 0x07], [1, 2, 840, 10045, 3, 1, 7])
  {
    hide HasArcs, HasNumbers;
    var common: seq<Byte> := [0x2a, 0x86, 0x48, 0xce, 0x3d];
    CurveNumbers();
    CommonArcs([0x02, 0x01], [2, 1]);
    CommonArcs([0x03, 0x01, 0x07], [3, 1, 7]);
    assert common + [0x02, 0x01] == [0x2a, 0x86, 0x48, 0xce, 0x3d, 0x02, 0x01];
    assert common + [0x03, 0x01, 0x07] == [0x2a, 0x86, 0x48, 0xce, 0x3d, 0x03, 0x01, 0x07];
    assert [1, 2, 840, 10045] + [2, 1] == [1, 2, 840, 10045, 2, 1];
    assert [1, 2, 840, 10045] + [3, 1, 7] == [1, 2, 840, 10045, 3, 1, 7];
  }

  /** An elliptic curve public key, 1.2.840.10045.2.1, on P-256, 1.2.840.10045.3.1.7. */
  predicate OnP256(algorithm: seq<Byte>) {
    var curve := ReadCurve(algorithm);
    curve.Some? && curve.value.0 == [1, 2, 840, 10045, 2, 1] && curve.value.1 == [1, 2, 840, 10045, 3, 1, 7]
  }

  lemma AlgorithmIsP256()
    ensures OnP256(ALGORITHM)
  {
    CurveArcs();
    hide Arcs;
    var first: seq<Byte> := [0x2a, 0x86, 0x48, 0xce, 0x3d, 0x02, 0x01];
    var second: seq<Byte> := [0x2a, 0x86, 0x48, 0xce, 0x3d, 0x03, 0x01, 0x07];
    assert ALGORITHM == [0x06, 0x07] + first + ([0x06, 0x08] + second);
    OidFollows([0x06, 0x07] + first + ([0x06, 0x08] + second), first, [0x06, 0x08] + second);
    OidFollows([0x06, 0x08] + second + [], second, []);
    assert [0x06, 0x08] + second + [] == [0x06, 0x08] + second;
  }

  lemma OidFollows(b: seq<Byte>, oid: seq<Byte>, rest: seq<Byte>)
    requires |oid| < 0x80 && b == [0x06, |oid|] + oid + rest && Arcs(oid).Some?
    ensures ReadOid(b) == Some((Arcs(oid).value, rest))
  {
    hide Arcs;
    assert b[2..2 + |oid|] == oid && b[2 + |oid|..] == rest;
  }

  /** Whoever reads an exported 65-byte key finds a key on P-256 and those bytes; keys of other lengths are refused. */
  lemma ExportedKeyRead(pubBytes: seq<Byte>, pem: string)
    requires pem == BEGIN + "\n" + Join(Lines(Encode(HEADER + pubBytes))) + "\n" + END
    ensures Read(pem).Some?
    ensures ReadSpki(Read(pem).value).Some? <==> |pubBytes| == 65
    ensures |pubBytes| == 65 ==>
              OnP256(ReadSpki(Read(pem).value).value.0) && ReadSpki(Read(pem).value).value.1 == pubBytes
  {
    hide Read, ReadSpki, OnP256, Join, Lines, Encode;
    ReadExported(pubBytes, pem);
    HeaderFitsIff(pubBytes);
    AlgorithmIsP256();
  }
}
