/** Base 64 as section 4 of RFC 4648 defines it. */
module Base64 {
  import opened Bytes
  import opened Wrappers

  type Digit = d: int | 0 <= d < 64

  function DigitChar(d: Digit): char {
    if d < 26 then (65 + d) as char
    else if d < 52 then (71 + d) as char
    else if d < 62 then (d - 4) as char
    else if d == 62 then '+' else '/'
  }

  function CharDigit(c: char): Option<Digit> {
    var x := c as int;
    if 65 <= x <= 90 then Some(x - 65)
    else if 97 <= x <= 122 then Some(x - 71)
    else if 48 <= x <= 57 then Some(x + 4)
    else if c == '+' then Some(62)
    else if c == '/' then Some(63)
    else None
  }

  lemma DigitRoundTrip(d: Digit)
    ensures CharDigit(DigitChar(d)) == Some(d)
    ensures DigitChar(d) != '='
  {
  }

  function Quad(a: Byte, b: Byte, c: Byte): (q: string)
    ensures |q| == 4
  {
    [DigitChar(a / 4), DigitChar((a % 4) * 16 + b / 16), DigitChar((b % 16) * 4 + c / 64), DigitChar(c % 64)]
  }

  function Encode(bs: seq<Byte>): string {
    if |bs| == 0 then ""
    else if |bs| == 1 then Quad(bs[0], 0, 0)[..2] + "=="
    else if |bs| == 2 then Quad(bs[0], bs[1], 0)[..3] + "="
    else Quad(bs[0], bs[1], bs[2]) + Encode(bs[3..])
  }

  /** The three bytes of four digits. */
  function Triple(p: Digit, q: Digit, r: Digit, s: Digit): seq<Byte> {
    [p * 4 + q / 16, (q % 16) * 16 + r / 4, (r % 4) * 64 + s]
  }

  function Decode(text: string): Option<seq<Byte>> {
    if |text| == 0 then Some([])
    else if |text| < 4 then None
    else
      var p, q := CharDigit(text[0]), CharDigit(text[1]);
      if p.None? || q.None? then None
      else if text[2..] == "==" then Some(Triple(p.value, q.value, 0, 0)[..1])
      else
        var r := CharDigit(text[2]);
        if r.None? then None
        else if text[3..] == "=" then Some(Triple(p.value, q.value, r.value, 0)[..2])
        else
          var s, rest := CharDigit(text[3]), Decode(text[4..]);
          if s.None? || rest.None? then None
          else Some(Triple(p.value, q.value, r.value, s.value) + rest.value)
  }

  lemma TripleOfQuad(a: Byte, b: Byte, c: Byte)
    ensures Triple(a / 4, (a % 4) * 16 + b / 16, (b % 16) * 4 + c / 64, c % 64) == [a, b, c]
  {
  }

  lemma {:induction false} RoundTrip(bs: seq<Byte>)
    ensures Decode(Encode(bs)) == Some(bs)
  {
    hide Decode;
    if |bs| == 0 {
      EmptyRoundTrip();
    } else if |bs| > 2 {
      RoundTrip(bs[3..]);
      LongRoundTrip(bs[0], bs[1], bs[2], bs[3..]);
      assert bs == [bs[0], bs[1], bs[2]] + bs[3..];
    } else if |bs| == 2 {
      TwoBytesRoundTrip(bs[0], bs[1]);
      assert bs == [bs[0], bs[1]];
    } else if |bs| == 1 {
      OneByteRoundTrip(bs[0]);
      assert bs == [bs[0]];
    }
  }

  lemma EmptyRoundTrip()
    ensures Decode("") == Some([])
  {
  }

  lemma OneByteRoundTrip(a: Byte)
    ensures Decode(Quad(a, 0, 0)[..2] + "==") == Some([a])
  {
    TripleOfQuad(a, 0, 0);
    QuadDigits(a, 0, 0);
    hide DigitChar, CharDigit, Triple, Quad;
    var text := Quad(a, 0, 0)[..2] + "==";
    assert text[2..] == "==";
    assert text[0] == Quad(a, 0, 0)[0] && text[1] == Quad(a, 0, 0)[1];
    assert [a, 0, 0][..1] == [a];
  }

  lemma TwoBytesRoundTrip(a: Byte, b: Byte)
    ensures Decode(Quad(a, b, 0)[..3] + "=") == Some([a, b])
  {
    TripleOfQuad(a, b, 0);
    QuadDigits(a, b, 0);
    hide DigitChar, CharDigit, Triple, Quad;
    var text := Quad(a, b, 0)[..3] + "=";
    assert text[3..] == "=" && text[2] == Quad(a, b, 0)[2] && text[2..][0] == text[2];
    assert text[0] == Quad(a, b, 0)[0] && text[1] == Quad(a, b, 0)[1];
    assert [a, b, 0][..2] == [a, b];
  }

  lemma LongRoundTrip(a: Byte, b: Byte, c: Byte, rest: seq<Byte>)
    requires Decode(Encode(rest)) == Some(rest)
    ensures Decode(Quad(a, b, c) + Encode(rest)) == Some([a, b, c] + rest)
  {
    TripleOfQuad(a, b, c);
    QuadDigits(a, b, c);
    hide DigitChar, CharDigit, Triple, Quad, Encode;
    var text := Quad(a, b, c) + Encode(rest);
    assert text[4..] == Encode(rest) && text[..4] == Quad(a, b, c);
    assert text[2] != '=' && text[3] != '=';
  }

  lemma QuadDigits(a: Byte, b: Byte, c: Byte)
    ensures var q := Quad(a, b, c);
            && CharDigit(q[0]) == Some(a / 4) && CharDigit(q[1]) == Some((a % 4) * 16 + b / 16)
            && CharDigit(q[2]) == Some((b % 16) * 4 + c / 64) && CharDigit(q[3]) == Some(c % 64)
            && q[2] != '=' && q[3] != '='
  {
    DigitRoundTrip(a / 4);
    DigitRoundTrip((a % 4) * 16 + b / 16);
    DigitRoundTrip((b % 16) * 4 + c / 64);
    DigitRoundTrip(c % 64);
    hide DigitChar, CharDigit;
  }

  predicate IsBase64Char(c: char) {
    CharDigit(c).Some? || c == '='
  }

  lemma {:induction false} EncodedLength(bs: seq<Byte>)
    ensures |Encode(bs)| == 4 * ((|bs| + 2) / 3)
  {
    hide Quad;
    if |bs| > 2 {
      EncodedLength(bs[3..]);
    }
  }

  predicate AllBase64(s: string) {
    forall i :: 0 <= i < |s| ==> IsBase64Char(s[i])
  }

  lemma {:induction false} EncodedChars(bs: seq<Byte>)
    ensures AllBase64(Encode(bs))
  {
    if |bs| > 0 {
      QuadChars(bs[0], if |bs| > 1 then bs[1] else 0, if |bs| > 2 then bs[2] else 0);
      hide CharDigit, Quad;
      if |bs| > 2 {
        EncodedChars(bs[3..]);
      }
    }
  }

  lemma QuadChars(a: Byte, b: Byte, c: Byte)
    ensures AllBase64(Quad(a, b, c))
  {
    QuadDigits(a, b, c);
    hide DigitChar, CharDigit;
  }

  // ---- The alphabet ----

  /** Table 1 of RFC 4648, in both directions. */
  lemma AlphabetIs(d: Digit, c: char)
    ensures d < 26 ==> DigitChar(d) as int == 'A' as int + d
    ensures 26 <= d < 52 ==> DigitChar(d) as int == 'a' as int + d - 26
    ensures 52 <= d < 62 ==> DigitChar(d) as int == '0' as int + d - 52
    ensures d == 62 ==> DigitChar(d) == '+'
    ensures d == 63 ==> DigitChar(d) == '/'
    ensures CharDigit(c) == Some(d) <==> c == DigitChar(d)
  {
  }

  /** The number that two to four characters stand for. */
  function Value(text: string): Option<nat> {
    if |text| == 0 then Some(0)
    else
      match (Value(text[..|text| - 1]), CharDigit(text[|text| - 1]))
      case (Some(v), Some(d)) => Some(64 * v + d)
      case _ => None
  }

  lemma ValueAppend(text: string, c: char, d: Digit, v: nat)
    requires Value(text) == Some(v) && CharDigit(c) == Some(d)
    ensures Value(text + [c]) == Some(64 * v + d)
  {
    assert (text + [c])[..|text|] == text;
  }

  lemma QuadValue(a: Byte, b: Byte, c: Byte)
    ensures var q := Quad(a, b, c);
            && Value(q) == Some(65536 * a + 256 * b + c)
            && Value(q[..3]) == Some(1024 * a + 4 * b + c / 64) && Value(q[..2]) == Some(16 * a + b / 16)
  {
    hide Quad, CharDigit, Value;
    var q := Quad(a, b, c);
    QuadDigits(a, b, c);
    ValueNothing();
    ValueAppend([], q[0], a / 4, 0);
    ValueAppend([] + [q[0]], q[1], (a % 4) * 16 + b / 16, a / 4);
    assert q[..2] == [] + [q[0]] + [q[1]];
    ValueAppend(q[..2], q[2], (b % 16) * 4 + c / 64, 16 * a + b / 16);
    assert q[..3] == q[..2] + [q[2]];
    ValueAppend(q[..3], q[3], c % 64, 1024 * a + 4 * b + c / 64);
    assert q == q[..3] + [q[3]];
  }

  lemma ValueNothing()
    ensures Value("") == Some(0)
  {
  }

  /** Three bytes are four characters of the same number; one or two are followed by zero bits, and by padding. */
  lemma GroupValues(a: Byte, b: Byte, c: Byte)
    ensures Value(Encode([a, b, c])) == Some(65536 * a + 256 * b + c)
    ensures Encode([a, b])[3..] == "=" && Value(Encode([a, b])[..3]) == Some((256 * a + b) * 4)
    ensures Encode([a])[2..] == "==" && Value(Encode([a])[..2]) == Some(a * 16)
  {
    hide Quad, Value;
    QuadValue(a, b, c);
    QuadValue(a, b, 0);
    QuadValue(a, 0, 0);
    assert Encode([a, b, c]) == Quad(a, b, c) by {
      assert [a, b, c][3..] == [];
    }
    assert Encode([a, b])[..3] == Quad(a, b, 0)[..3] && Encode([a])[..2] == Quad(a, 0, 0)[..2];
  }

  /** Whole groups are encoded on their own. */
  lemma {:induction false} EncodeConcat(x: seq<Byte>, y: seq<Byte>)
    requires |x| % 3 == 0
    ensures Encode(x + y) == Encode(x) + Encode(y)
  {
    hide Encode, Quad;
    if |x| == 0 {
      EncodeNothing();
      assert x + y == y;
    } else {
      EncodeConcat(x[3..], y);
      EncodeGroup(x);
      EncodeGroup(x + y);
      assert (x + y)[3..] == x[3..] + y;
    }
  }

  lemma EncodeNothing()
    ensures Encode([]) == ""
  {
  }

  lemma EncodeGroup(bs: seq<Byte>)
    requires |bs| >= 3
    ensures Encode(bs) == Quad(bs[0], bs[1], bs[2]) + Encode(bs[3..])
  {
  }

  // ---- Python's decoder ----

  predicate IsAsciiText(text: string) {
    forall c :: c in text ==> c as int < 128
  }

  /**
   * The scan of `base64.b64decode` without validation: `quad` digits of a group are read and `left` holds the bits of
   * the last one. Characters outside the alphabet and misplaced padding are skipped, complete padding ends the text,
   * and an incomplete group is an error.
   */
  function Scan(text: string, quad: nat, left: nat, pads: nat): Option<seq<Byte>>
    requires quad < 4 && (quad == 0 || (quad == 1 && left < 64) || (quad == 2 && left < 16) || (quad == 3 && left < 4))
  {
    if |text| == 0 then if quad == 0 then Some([]) else None
    else if text[0] == '=' then
      if quad >= 2 && quad + pads + 1 >= 4 then Some([])
      else Scan(text[1..], quad, left, if quad >= 2 then pads + 1 else pads)
    else
      match CharDigit(text[0])
      case None => Scan(text[1..], quad, left, pads)
      case Some(d) =>
        if quad == 0 then Scan(text[1..], 1, d, 0)
        else if quad == 1 then Prepend(left * 4 + d / 16, Scan(text[1..], 2, d % 16, 0))
        else if quad == 2 then Prepend(left * 16 + d / 4, Scan(text[1..], 3, d % 4, 0))
        else Prepend(left * 64 + d, Scan(text[1..], 0, 0, 0))
  }

  function Prepend(b: Byte, rest: Option<seq<Byte>>): Option<seq<Byte>> {
    match rest case None => None case Some(bs) => Some([b] + bs)
  }

  /** `base64.b64decode` of a string; text that is not ASCII is an error. */
  function DecodeLenient(text: string): Option<seq<Byte>> {
    if IsAsciiText(text) then Scan(text, 0, 0, 0) else None
  }

  /** The characters that count. */
  function Kept(text: string): string {
    if |text| == 0 then "" else (if IsBase64Char(text[0]) then [text[0]] else "") + Kept(text[1..])
  }

  lemma {:induction false} ScanSkips(text: string, quad: nat, left: nat, pads: nat)
    requires quad < 4 && (quad == 0 || (quad == 1 && left < 64) || (quad == 2 && left < 16) || (quad == 3 && left < 4))
    ensures Scan(text, quad, left, pads) == Scan(Kept(text), quad, left, pads)
  {
    if |text| > 0 {
      var rest := text[1..];
      assert !IsBase64Char(text[0]) ==> Kept(text) == Kept(rest);
      assert IsBase64Char(text[0]) ==> Kept(text)[0] == text[0] && Kept(text)[1..] == Kept(rest);
      hide CharDigit, Prepend;
      if text[0] == '=' {
        ScanSkips(rest, quad, left, if quad >= 2 then pads + 1 else pads);
      } else {
        match CharDigit(text[0])
        case None => ScanSkips(rest, quad, left, pads);
        case Some(d) =>
          var bits := if quad == 0 then d else if quad == 1 then d % 16 else if quad == 2 then d % 4 else 0;
          ScanSkips(rest, (quad + 1) % 4, bits, 0);
      }
    }
  }

  lemma ScanDigit(text: string, quad: nat, left: nat, pads: nat, d: Digit)
    requires quad < 4 && (quad == 0 || (quad == 1 && left < 64) || (quad == 2 && left < 16) || (quad == 3 && left < 4))
    requires |text| > 0 && CharDigit(text[0]) == Some(d)
    ensures text[0] as int < 128 && text[0] != '='
    ensures Scan(text, quad, left, pads) ==
            if quad == 0 then Scan(text[1..], 1, d, 0)
            else if quad == 1 then Prepend(left * 4 + d / 16, Scan(text[1..], 2, d % 16, 0))
            else if quad == 2 then Prepend(left * 16 + d / 4, Scan(text[1..], 3, d % 4, 0))
            else Prepend(left * 64 + d, Scan(text[1..], 0, 0, 0))
  {
  }

  lemma ScanPadding(text: string, left: nat)
    ensures left < 16 && text == "==" ==> Scan(text, 2, left, 0) == Some([])
    ensures left < 4 && text == "=" ==> Scan(text, 3, left, 0) == Some([])
  {
  }

  /** The lenient decoder agrees with the strict one on all text that decodes strictly. */
  lemma {:induction false} LenientExtends(text: string)
    requires Decode(text).Some?
    ensures DecodeLenient(text) == Decode(text)
  {
    ScanStrict(text);
  }

  lemma {:induction false} ScanStrict(text: string)
    requires Decode(text).Some?
    ensures Scan(text, 0, 0, 0) == Decode(text) && IsAsciiText(text)
  {
    hide CharDigit, Scan, Triple;
    if |text| == 0 {
      ScanNothing();
    } else {
      var p, q := CharDigit(text[0]).value, CharDigit(text[1]).value;
      var t1, t2, t3, t4 := text[1..], text[2..], text[3..], text[4..];
      assert t1[1..] == t2 && t2[1..] == t3 && t3[1..] == t4;
      assert t1[0] == text[1] && t2[0] == text[2] && t3[0] == text[3];
      ScanDigit(text, 0, 0, 0, p);
      ScanDigit(t1, 1, p, 0, q);
      ScanPadding(t2, q % 16);
      if t2 != "==" {
        var r := CharDigit(text[2]).value;
        ScanDigit(t2, 2, q % 16, 0, r);
        ScanPadding(t3, r % 4);
        if t3 != "=" {
          var s := CharDigit(text[3]).value;
          ScanDigit(t3, 3, r % 4, 0, s);
          ScanStrict(t4);
          PrependTriple(p, q, r, s, Decode(t4).value);
          assert text == [text[0], text[1], text[2], text[3]] + t4;
        } else {
          PrependTriple(p, q, r, 0, []);
          assert text == [text[0], text[1], text[2], '='];
        }
      } else {
        PrependTriple(p, q, 0, 0, []);
        assert text == [text[0], text[1], '=', '='];
      }
    }
  }

  lemma ScanNothing()
    ensures Scan("", 0, 0, 0) == Some([])
  {
  }

  lemma PrependTriple(p: Digit, q: Digit, r: Digit, s: Digit, rest: seq<Byte>)
    ensures Triple(p, q, r, s)[..1] == [p * 4 + q / 16] + []
    ensures Triple(p, q, r, s)[..2] == [p * 4 + q / 16] + ([q % 16 * 16 + r / 4] + [])
    ensures Triple(p, q, r, s) + rest == [p * 4 + q / 16] + ([q % 16 * 16 + r / 4] + ([r % 4 * 64 + s] + rest))
  {
  }

  /** Line breaks and other stray ASCII characters in an encoding do not change what is decoded. */
  lemma LenientRoundTrip(bs: seq<Byte>, text: string)
    requires (forall i :: 0 <= i < |text| ==> text[i] as int < 128) && Kept(text) == Encode(bs)
    ensures DecodeLenient(text) == Some(bs)
  {
    hide Scan, Decode;
    ScanSkips(text, 0, 0, 0);
    RoundTrip(bs);
    ScanStrict(Encode(bs));
  }

  // ---- What the lenient decoder refuses ----

  predicate AllDigits(text: string) {
    forall i :: 0 <= i < |text| ==> CharDigit(text[i]).Some?
  }

  function Padding(n: nat): (p: string)
    ensures |p| == n
  {
    seq(n, _ => '=')
  }

  lemma {:induction false} ScanPads(n: nat, quad: nat, left: nat, pads: nat)
    requires quad < 4 && (quad == 0 || (quad == 1 && left < 64) || (quad == 2 && left < 16) || (quad == 3 && left < 4))
    requires quad >= 2 ==> quad + pads < 4
    ensures Scan(Padding(n), quad, left, pads).Some? <==> quad == 0 || (quad >= 2 && quad + pads + n >= 4)
  {
    if n > 0 {
      assert Padding(n)[1..] == Padding(n - 1);
      if quad < 2 || quad + pads + 1 < 4 {
        ScanPads(n - 1, quad, left, if quad >= 2 then pads + 1 else pads);
      }
    }
  }

  lemma {:induction false} ScanDigitsThenPads(text: string, n: nat, quad: nat, left: nat)
    requires quad < 4 && (quad == 0 || (quad == 1 && left < 64) || (quad == 2 && left < 16) || (quad == 3 && left < 4))
    requires AllDigits(text)
    ensures var q := (quad + |text|) % 4;
            Scan(text + Padding(n), quad, left, 0).Some? <==> q == 0 || (q == 2 && n >= 2) || (q == 3 && n >= 1)
  {
    hide CharDigit, Scan;
    if |text| == 0 {
      assert text + Padding(n) == Padding(n);
      ScanPads(n, quad, left, 0);
    } else {
      var d := CharDigit(text[0]).value;
      ScanDigit(text + Padding(n), quad, left, 0, d);
      assert (text + Padding(n))[1..] == text[1..] + Padding(n);
      var bits := if quad == 0 then d else if quad == 1 then d % 16 else if quad == 2 then d % 4 else 0;
      ScanDigitsThenPads(text[1..], n, (quad + 1) % 4, bits);
    }
  }

  /**
   * Digits and then n padding characters are accepted if and only if the last group is whole, or has two digits and two
   * padding characters, or three and one; more padding is ignored.
   */
  lemma LenientAccepts(text: string, n: nat)
    requires AllDigits(text)
    ensures DecodeLenient(text + Padding(n)).Some? <==>
              |text| % 4 == 0 || (|text| % 4 == 2 && n >= 2) || (|text| % 4 == 3 && n >= 1)
  {
    ScanDigitsThenPads(text, n, 0, 0);
    forall c | c in text + Padding(n) ensures c as int < 128 {
      if c in text {
        var i :| 0 <= i < |text| && text[i] == c;
        assert CharDigit(text[i]).Some?;
      }
    }
  }

  /** Text with a character outside ASCII is refused. */
  lemma NotAsciiRefused(text: string, i: nat)
    requires i < |text| && text[i] as int >= 128
    ensures DecodeLenient(text) == None
  {
    assert text[i] in text;
  }
}
