/**
 * Wake-on-LAN packets. The beacon repeats the digits and then decodes them; the iOS client decodes and then
 * repeats the bytes.
 */
module WakePacket {
  import opened Wrappers
  import opened Bytes

  // ---- Hexadecimal text ----

  predicate IsHex(c: char) {
    '0' <= c <= '9' || 'a' <= c <= 'f' || 'A' <= c <= 'F'
  }

  function HexValue(c: char): (v: int)
    requires IsHex(c)
    ensures 0 <= v < 16
  {
    if c <= '9' then c as int - '0' as int
    else if c <= 'F' then c as int - 'A' as int + 10
    else c as int - 'a' as int + 10
  }

  /** ASCII white space, which `bytes.fromhex` skips between bytes. */
  predicate IsSpace(c: char) {
    c == ' ' || '\t' <= c <= '\r'
  }

  function Pair(high: char, low: char): Byte
    requires IsHex(high) && IsHex(low)
  {
    16 * HexValue(high) + HexValue(low)
  }

  /** Python's decoder of hexadecimal text. */
  function FromHex(s: string): Option<seq<Byte>> {
    if |s| == 0 then Some([])
    else if IsSpace(s[0]) then FromHex(s[1..])
    else if |s| == 1 || !IsHex(s[0]) || !IsHex(s[1]) then None
    else
      match FromHex(s[2..])
      case None => None
      case Some(rest) => Some([Pair(s[0], s[1])] + rest)
  }

  /** Swift's `UInt8(_:radix:)` on two characters: a sign may stand before a digit. */
  function ParseByte(high: char, low: char): Option<Byte> {
    if !IsHex(low) then None
    else if IsHex(high) then Some(Pair(high, low))
    else if high == '+' || (high == '-' && low == '0') then Some(HexValue(low))
    else None
  }

  function Repeat<T>(s: seq<T>, n: nat): seq<T> {
    if n == 0 then [] else s + Repeat(s, n - 1)
  }

  // ---- The two builders ----

  const SYNC: seq<Byte> := [255, 255, 255, 255, 255, 255]

  function Remove(s: string, c: char): string {
    if |s| == 0 then "" else (if s[0] == c then "" else [s[0]]) + Remove(s[1..], c)
  }

  /** The address without its separators. */
  function Clean(mac: string): string {
    Remove(Remove(mac, ':'), '-')
  }

  /** The packet the beacon sends; `None` is the `ValueError`. */
  function BeaconPacket(mac: string): Option<seq<Byte>> {
    if |Clean(mac)| != 12 then None else FromHex("FFFFFFFFFFFF" + Repeat(Clean(mac), 16))
  }

  /** The bytes of the pairs that parse; a pair that does not parse is skipped. */
  function ParsedPairs(s: string): seq<Byte>
    requires |s| % 2 == 0
  {
    if |s| == 0 then [] else
      ParsedPair(s[0], s[1]) + ParsedPairs(s[2..])
  }

  /** What the client sends, as a function of the address text. */
  function ClientBytes(mac: string): Option<seq<Byte>> {
    if |Clean(mac)| != 12 then None else Some(SYNC + Repeat(ParsedPairs(Clean(mac)), 16))
  }

  /** What one pair contributes. */
  function ParsedPair(high: char, low: char): seq<Byte> {
    match ParseByte(high, low) case Some(b) => [b] case None => []
  }

  /** The packet the iOS client broadcasts; `None` when the length check fails. */
  method ClientPacket(mac: string) returns (packet: Option<seq<Byte>>)
    ensures packet == ClientBytes(mac)
  {
    hide Clean, Repeat, ParsedPairs, ParseByte;
    var clean := Clean(mac);
    if |clean| != 12 {
      return None;
    }
    var bytes: seq<Byte> := SYNC;
    var macBytes: seq<Byte> := [];
    var index := 0;
    assert clean[0..] == clean;
    while index < |clean|
      invariant 0 <= index <= |clean| && index % 2 == 0
      invariant ParsedPairs(clean) == macBytes + ParsedPairs(clean[index..])
    {
      var parsed := ParseByte(clean[index], clean[index + 1]);
      PairsNext(clean, index);
      if parsed.Some? {
        macBytes := macBytes + [parsed.value];
      }
      index := index + 2;
    }
    PairsEnd(clean);
    assert macBytes == ParsedPairs(clean);
    RepeatNone(macBytes);
    for i := 0 to 16
      invariant bytes == SYNC + Repeat(macBytes, i)
    {
      RepeatLast(macBytes, i);
      bytes := bytes + macBytes;
    }
    packet := Some(bytes);
  }

  lemma PairsNext(s: string, index: nat)
    requires |s| % 2 == 0 && index % 2 == 0 && index < |s|
    ensures ParsedPairs(s[index..]) == ParsedPair(s[index], s[index + 1]) + ParsedPairs(s[index + 2..])
  {
    assert s[index..][2..] == s[index + 2..];
  }

  lemma PairsEnd(s: string)
    requires |s| % 2 == 0
    ensures ParsedPairs(s[|s|..]) == []
  {
  }

  lemma RepeatNone<T>(s: seq<T>)
    ensures Repeat(s, 0) == []
  {
  }

  lemma {:induction false} RepeatLast<T>(s: seq<T>, n: nat)
    ensures Repeat(s, n + 1) == Repeat(s, n) + s
  {
    if n > 0 {
      RepeatLast(s, n - 1);
      assert Repeat(s, n) + s == s + (Repeat(s, n - 1) + s);
    }
  }

  // ---- Decoding ----

  /** Decoding distributes over concatenation after a decodable prefix. */
  lemma {:induction false} FromHexConcat(a: string, b: string)
    requires FromHex(a).Some?
    ensures FromHex(a + b) == match FromHex(b) case None => None case Some(y) => Some(FromHex(a).value + y)
  {
    hide IsSpace, IsHex, Pair;
    if |a| == 0 {
      assert a + b == b;
      assert forall y: seq<Byte> :: [] + y == y;
    } else {
      var k := if IsSpace(a[0]) then 1 else 2;
      FromHexConcat(a[k..], b);
      assert (a + b)[0] == a[0] && (a + b)[k..] == a[k..] + b;
      if k == 2 {
        assert (a + b)[1] == a[1];
        var p, x := [Pair(a[0], a[1])], FromHex(a[2..]).value;
        assert forall y :: p + (x + y) == (p + x) + y;
      }
    }
  }

  lemma {:induction false} FromHexRepeat(s: string, n: nat)
    requires FromHex(s).Some?
    ensures FromHex(Repeat(s, n)) == Some(Repeat(FromHex(s).value, n))
  {
    if n > 0 {
      FromHexRepeat(s, n - 1);
      FromHexConcat(s, Repeat(s, n - 1));
    }
  }

  function HexCount(s: string): nat {
    if |s| == 0 then 0 else (if IsHex(s[0]) then 1 else 0) + HexCount(s[1..])
  }

  lemma {:induction false} HexCountConcat(a: string, b: string)
    ensures HexCount(a + b) == HexCount(a) + HexCount(b)
  {
    if |a| == 0 {
      assert a + b == b;
    } else {
      HexCountConcat(a[1..], b);
      assert (a + b)[1..] == a[1..] + b;
    }
  }

  /** Decodable text is digits and white space, and gives a byte for every two digits. */
  lemma {:induction false} FromHexShape(s: string)
    requires FromHex(s).Some?
    ensures 2 * |FromHex(s).value| == HexCount(s)
    ensures forall c :: c in s ==> IsHex(c) || IsSpace(c)
  {
    if |s| > 0 {
      FromHexShape(s[if IsSpace(s[0]) then 1 else 2..]);
    }
  }

  // ---- The packet ----

  /** Six FF bytes and then the address sixteen times. */
  predicate IsMagic(packet: seq<Byte>, address: seq<Byte>) {
    && |address| == 6 && |packet| == 102
    && (forall i :: 0 <= i < 6 ==> packet[i] == 255)
    && (forall i :: 6 <= i < 102 ==> packet[i] == address[(i - 6) % 6])
  }

  predicate AllHex(s: string) {
    forall c :: c in s ==> IsHex(c)
  }

  /** The address named by twelve digits: byte i is digits 2i and 2i + 1. */
  predicate Names(digits: string, address: seq<Byte>) {
    && |digits| == 12 && AllHex(digits) && |address| == 6
    && forall i :: 0 <= i < 6 ==> address[i] == 16 * HexValue(digits[2 * i]) + HexValue(digits[2 * i + 1])
  }

  lemma {:induction false} RepeatAt<T>(s: seq<T>, n: nat)
    ensures |Repeat(s, n)| == n * |s|
    ensures |s| == 6 ==> forall i :: 0 <= i < 6 * n ==> Repeat(s, n)[i] == s[i % 6]
  {
    if n > 0 {
      RepeatAt(s, n - 1);
      assert n * |s| == (n - 1) * |s| + |s|;
    }
  }

  /** Every aligned pair is two digits or two white space characters. */
  predicate PairsAligned(s: string)
    requires |s| % 2 == 0
  {
    forall i :: 0 <= i < |s| / 2 ==>
      (IsHex(s[2 * i]) && IsHex(s[2 * i + 1])) || (IsSpace(s[2 * i]) && IsSpace(s[2 * i + 1]))
  }

  /** On aligned text both ways of decoding agree. */
  lemma {:induction false} AlignedDecodes(s: string)
    requires |s| % 2 == 0 && PairsAligned(s)
    ensures FromHex(s) == Some(ParsedPairs(s))
  {
    if |s| > 0 {
      var t := s[2..];
      forall i | 0 <= i < |t| / 2
        ensures (IsHex(t[2 * i]) && IsHex(t[2 * i + 1])) || (IsSpace(t[2 * i]) && IsSpace(t[2 * i + 1]))
      {
        assert t[2 * i] == s[2 * (i + 1)] && t[2 * i + 1] == s[2 * (i + 1) + 1];
      }
      AlignedDecodes(t);
      assert s[2 * 0] == s[0] && s[2 * 0 + 1] == s[1];
      assert s[1..][1..] == t;
      if IsSpace(s[0]) {
        assert FromHex(s[1..]) == FromHex(t);
        assert ParsedPair(s[0], s[1]) == [];
        assert [] + ParsedPairs(t) == ParsedPairs(t);
      } else {
        assert FromHex(s) == Some([Pair(s[0], s[1])] + FromHex(t).value);
      }
    }
  }

  /** On digits and white space no more pairs parse than there are pairs of digits, and as many only if aligned. */
  lemma {:induction false} PairsCounted(s: string)
    requires |s| % 2 == 0 && forall c :: c in s ==> IsHex(c) || IsSpace(c)
    ensures 2 * |ParsedPairs(s)| <= HexCount(s)
    ensures 2 * |ParsedPairs(s)| == HexCount(s) ==> PairsAligned(s)
  {
    if |s| > 0 {
      var t := s[2..];
      PairsCounted(t);
      assert s[1..][1..] == t && s[0] in s && s[1] in s;
      if 2 * |ParsedPairs(s)| == HexCount(s) {
        forall i | 0 <= i < |s| / 2
          ensures (IsHex(s[2 * i]) && IsHex(s[2 * i + 1])) || (IsSpace(s[2 * i]) && IsSpace(s[2 * i + 1]))
        {
          if i > 0 {
            assert t[2 * (i - 1)] == s[2 * i] && t[2 * (i - 1) + 1] == s[2 * i + 1];
          }
        }
      }
    }
  }

  lemma BeaconDecodes(mac: string)
    requires |Clean(mac)| == 12 && PairsAligned(Clean(mac))
    ensures BeaconPacket(mac) == ClientBytes(mac)
  {
    hide FromHex, Clean, PairsAligned, ParsedPairs, Repeat;
    var clean := Clean(mac);
    AlignedDecodes(clean);
    FromHexRepeat(clean, 16);
    SixFF();
    FromHexConcat("FFFFFFFFFFFF", Repeat(clean, 16));
  }

  lemma SixFF()
    ensures FromHex("FFFFFFFFFFFF") == Some(SYNC)
  {
    hide FromHex;
    assert "FF" + "FF" == "FFFF" && "FFFF" + "FF" == "FFFFFF" && "FFFFFF" + "FFFFFF" == "FFFFFFFFFFFF";
    OneFF();
    FromHexConcat("FF", "FF");
    FromHexConcat("FFFF", "FF");
    FromHexConcat("FFFFFF", "FFFFFF");
    var f: seq<Byte> := [255];
    assert (f + f + f) + (f + f + f) == SYNC;
  }

  lemma OneFF()
    ensures FromHex("FF") == Some([255])
  {
    AlignedDecodes("FF");
    PairsOfDigits("FF");
    assert ParsedPairs("FF")[0] == 255;
    var f: seq<Byte> := [255];
    assert ParsedPairs("FF") == f;
  }

  /** The two builders agree exactly when the length is wrong or every aligned pair is two digits or two spaces. */
  lemma BuildersAgreeIff(mac: string)
    ensures BeaconPacket(mac) == ClientBytes(mac) <==> |Clean(mac)| != 12 || PairsAligned(Clean(mac))
  {
    hide FromHex, ParsedPairs, PairsAligned, Clean, Repeat;
    var clean := Clean(mac);
    if |clean| == 12 {
      if PairsAligned(clean) {
        BeaconDecodes(mac);
      } else if BeaconPacket(mac).Some? {
        BeaconLength(mac);
        RepeatAt(ParsedPairs(clean), 16);
        PairsCounted(clean);
      }
    }
  }

  /** Text the beacon accepts is digits and white space, and the packet has a byte for every two digits. */
  lemma BeaconLength(mac: string)
    requires BeaconPacket(mac).Some?
    ensures |BeaconPacket(mac).value| == 6 + 8 * HexCount(Clean(mac))
    ensures forall c :: c in Clean(mac) ==> IsHex(c) || IsSpace(c)
  {
    hide FromHex, Clean, IsHex, IsSpace;
    var clean, sixteen := Clean(mac), Repeat(Clean(mac), 16);
    FromHexShape("FFFFFFFFFFFF" + sixteen);
    HexCountConcat("FFFFFFFFFFFF", sixteen);
    HexCountRepeat(clean, 16);
    TwelveDigits();
    forall c | c in clean ensures IsHex(c) || IsSpace(c) {
      assert sixteen == clean + Repeat(clean, 15);
      assert c in "FFFFFFFFFFFF" + sixteen;
    }
  }

  lemma TwelveDigits()
    ensures HexCount("FFFFFFFFFFFF") == 12
  {
    HexCountConcat("FFFFFF", "FFFFFF");
    assert "FFFFFF" + "FFFFFF" == "FFFFFFFFFFFF";
  }

  lemma {:induction false} HexCountRepeat(s: string, n: nat)
    ensures HexCount(Repeat(s, n)) == n * HexCount(s)
  {
    if n > 0 {
      HexCountRepeat(s, n - 1);
      HexCountConcat(s, Repeat(s, n - 1));
      assert n * HexCount(s) == (n - 1) * HexCount(s) + HexCount(s);
    }
  }

  lemma {:induction false} HexCountFull(s: string)
    ensures HexCount(s) <= |s| && (HexCount(s) == |s| <==> AllHex(s))
  {
    if |s| > 0 {
      HexCountFull(s[1..]);
    }
  }

  lemma {:induction false} PairsOfDigits(s: string)
    requires |s| % 2 == 0 && AllHex(s)
    ensures |ParsedPairs(s)| == |s| / 2
    ensures forall i :: 0 <= i < |s| / 2 ==> ParsedPairs(s)[i] == 16 * HexValue(s[2 * i]) + HexValue(s[2 * i + 1])
  {
    if |s| > 0 {
      var t := s[2..];
      PairsOfDigits(t);
      forall i | 0 <= i < |s| / 2
        ensures ParsedPairs(s)[i] == 16 * HexValue(s[2 * i]) + HexValue(s[2 * i + 1])
      {
        if i > 0 {
          assert t[2 * (i - 1)] == s[2 * i] && t[2 * (i - 1) + 1] == s[2 * i + 1];
        }
      }
    }
  }

  lemma DigitsAligned(s: string)
    requires |s| % 2 == 0 && AllHex(s)
    ensures PairsAligned(s)
  {
  }

  /**
   * For twelve digits, whatever their case and whatever separators stood between them, both builders give six FF bytes
   * and then the address sixteen times.
   */
  lemma BothMagic(mac: string, address: seq<Byte>)
    requires Names(Clean(mac), address)
    ensures BeaconPacket(mac) == ClientBytes(mac) && BeaconPacket(mac).Some?
    ensures IsMagic(BeaconPacket(mac).value, address)
  {
    hide FromHex, Clean, IsHex, HexValue, BeaconPacket, Repeat, ParsedPairs;
    var digits := Clean(mac);
    DigitsAligned(digits);
    BuildersAgreeIff(mac);
    PairsOfDigits(digits);
    assert ParsedPairs(digits) == address;
    RepeatAt(address, 16);
  }

  /** The beacon's packet has its full 102 bytes exactly when the address is twelve digits. */
  lemma FullPacketIff(mac: string)
    ensures (BeaconPacket(mac).Some? && |BeaconPacket(mac).value| == 102)
       <==> (|Clean(mac)| == 12 && AllHex(Clean(mac)))
  {
    hide FromHex, Clean, IsHex;
    HexCountFull(Clean(mac));
    if BeaconPacket(mac).Some? {
      BeaconLength(mac);
    }
    if |Clean(mac)| == 12 && AllHex(Clean(mac)) {
      var address := ParsedPairs(Clean(mac));
      PairsOfDigits(Clean(mac));
      BothMagic(mac, address);
    }
  }

  /** Without twelve characters neither side sends anything. */
  lemma WrongLengthSendsNothing(mac: string)
    ensures |Clean(mac)| != 12 ==> BeaconPacket(mac) == ClientBytes(mac) == None
    ensures ClientBytes(mac) == None <==> |Clean(mac)| != 12
  {
  }

  /** A pair that the client takes: two digits, a plus sign and a digit, or minus zero. */
  predicate Taken(high: char, low: char) {
    IsHex(low) && (IsHex(high) || high == '+' || (high == '-' && low == '0'))
  }

  predicate AllTaken(s: string)
    requires |s| % 2 == 0
  {
    forall i :: 0 <= i < |s| / 2 ==> Taken(s[2 * i], s[2 * i + 1])
  }

  lemma TakenFirst(s: string)
    requires |s| % 2 == 0 && |s| > 0
    ensures AllTaken(s) ==> Taken(s[0], s[1]) && AllTaken(s[2..])
    ensures Taken(s[0], s[1]) && AllTaken(s[2..]) ==> AllTaken(s)
  {
    hide Taken;
    var t := s[2..];
    assert forall i :: 0 <= i < |t| / 2 ==> t[2 * i] == s[2 * (i + 1)] && t[2 * i + 1] == s[2 * (i + 1) + 1];
    if AllTaken(s) {
      assert Taken(s[2 * 0], s[2 * 0 + 1]);
      forall i | 0 <= i < |t| / 2 ensures Taken(t[2 * i], t[2 * i + 1]) {
        assert Taken(s[2 * (i + 1)], s[2 * (i + 1) + 1]);
      }
    }
    if Taken(s[0], s[1]) && AllTaken(t) {
      forall i | 0 <= i < |s| / 2 ensures Taken(s[2 * i], s[2 * i + 1]) {
        if i > 0 {
          assert Taken(t[2 * (i - 1)], t[2 * (i - 1) + 1]);
        }
      }
    }
  }

  lemma {:induction false} PairsTaken(s: string)
    requires |s| % 2 == 0
    ensures |ParsedPairs(s)| <= |s| / 2
    ensures |ParsedPairs(s)| == |s| / 2 <==> AllTaken(s)
  {
    if |s| > 0 {
      hide AllTaken;
      PairsTaken(s[2..]);
      TakenFirst(s);
    }
  }

  /** The client's packet has its full 102 bytes exactly when all six pairs are taken. */
  lemma ClientFullIff(mac: string)
    ensures (ClientBytes(mac).Some? && |ClientBytes(mac).value| == 102)
       <==> (|Clean(mac)| == 12 && AllTaken(Clean(mac)))
  {
    hide Clean, ParsedPairs, Repeat, AllTaken;
    if |Clean(mac)| == 12 {
      PairsTaken(Clean(mac));
      RepeatAt(ParsedPairs(Clean(mac)), 16);
    }
  }

  // ---- Characters ----

  /** What the digits stand for, and white space: tab, line feed, vertical tab, form feed, return and space. */
  lemma DigitValues(c: char)
    ensures '0' <= c <= '9' ==> IsHex(c) && HexValue(c) == c as int - 48
    ensures 'a' <= c <= 'f' ==> IsHex(c) && HexValue(c) == c as int - 97 + 10
    ensures 'A' <= c <= 'F' ==> IsHex(c) && HexValue(c) == c as int - 65 + 10
    ensures IsHex(c) <==> c in "0123456789abcdefABCDEF"
    ensures IsSpace(c) <==> c as int in {9, 10, 11, 12, 13, 32}
  {
  }

  /** Cleaning drops colons and dashes and keeps every other character, in order. */
  lemma CleanExactly(a: string, c: char, b: string)
    ensures Clean(a + [c] + b) == Clean(a) + (if c == ':' || c == '-' then "" else [c]) + Clean(b)
    ensures Clean("") == ""
  {
    hide Remove;
    RemoveConcat(a + [c], b, ':');
    RemoveConcat(a, [c], ':');
    RemoveConcat(Remove(a + [c], ':'), Remove(b, ':'), '-');
    RemoveConcat(Remove(a, ':'), Remove([c], ':'), '-');
    RemoveOne(c, ':');
    RemoveOne(c, '-');
  }

  lemma RemoveOne(x: char, c: char)
    ensures Remove([x], c) == if x == c then "" else [x]
    ensures Remove("", c) == ""
  {
    assert [x][1..] == "";
  }

  // ---- Writing an address down ----

  function HexDigit(v: int, upper: bool): char
    requires 0 <= v < 16
  {
    if v < 10 then '0' + v as char else if upper then 'A' + (v - 10) as char else 'a' + (v - 10) as char
  }

  /** The usual written form, with a separator or none, in either case. */
  function Written(address: seq<Byte>, separator: string, upper: bool): string {
    if |address| == 0 then "" else
      var pair := [HexDigit(address[0] / 16, upper), HexDigit(address[0] % 16, upper)];
      pair + if |address| == 1 then "" else separator + Written(address[1..], separator, upper)
  }

  /** Whichever way a six-byte address is written, both builders send its packet. */
  lemma WrittenRoundTrip(address: seq<Byte>, separator: string, upper: bool)
    requires |address| == 6 && separator in {"", ":", "-"}
    ensures var mac := Written(address, separator, upper);
            && BeaconPacket(mac) == ClientBytes(mac) && BeaconPacket(mac).Some?
            && IsMagic(BeaconPacket(mac).value, address)
  {
    hide Clean;
    var mac := Written(address, separator, upper);
    CleanWritten(address, separator, upper);
    WrittenNames(address, upper);
    BothMagic(mac, address);
  }

  /** Cleaning removes the separators. */
  lemma {:induction false} CleanWritten(address: seq<Byte>, separator: string, upper: bool)
    requires separator in {"", ":", "-"}
    ensures Clean(Written(address, separator, upper)) == Written(address, "", upper)
  {
    hide Clean, HexDigit, IsHex, Written;
    assert Written([], separator, upper) == Written([], "", upper) == "" by { WrittenNothing(separator, upper); }
    assert Clean("") == "" by { CleanEmpty(); }
    if |address| > 0 {
      DigitsAreHex(address[0], upper);
      var h, l := HexDigit(address[0] / 16, upper), HexDigit(address[0] % 16, upper);
      CleanWritten(address[1..], separator, upper);
      var more := |address| > 1;
      var rest := if more then Written(address[1..], separator, upper) else "";
      CleanPair(h, l, if more then separator else "", rest);
      WrittenStep(address, separator, upper);
      WrittenStep(address, "", upper);
    }
  }

  lemma WrittenNothing(separator: string, upper: bool)
    ensures Written([], separator, upper) == Written([], "", upper) == ""
  {
  }

  lemma WrittenStep(address: seq<Byte>, separator: string, upper: bool)
    requires |address| > 0
    ensures var pair := [HexDigit(address[0] / 16, upper), HexDigit(address[0] % 16, upper)];
            Written(address, separator, upper)
            == if |address| > 1 then pair + separator + Written(address[1..], separator, upper) else pair + "" + ""
  {
  }

  lemma CleanEmpty()
    ensures Clean("") == ""
  {
  }

  lemma DigitsAreHex(b: Byte, upper: bool)
    ensures IsHex(HexDigit(b / 16, upper)) && HexValue(HexDigit(b / 16, upper)) == b / 16
    ensures IsHex(HexDigit(b % 16, upper)) && HexValue(HexDigit(b % 16, upper)) == b % 16
  {
  }

  lemma CleanPair(h: char, l: char, separator: string, rest: string)
    requires IsHex(h) && IsHex(l) && separator in {"", ":", "-"}
    ensures Clean([h, l] + separator + rest) == [h, l] + Clean(rest)
  {
    var s := [h, l] + separator;
    RemoveConcat(s, rest, ':');
    RemoveConcat(Remove(s, ':'), Remove(rest, ':'), '-');
    RemoveConcat([h, l], separator, ':');
    RemoveConcat([h, l], Remove(separator, ':'), '-');
    assert Remove([h, l], ':') == [h, l] && Remove([h, l], '-') == [h, l];
    assert Remove(Remove(separator, ':'), '-') == "";
  }

  lemma {:induction false} RemoveConcat(a: string, b: string, c: char)
    ensures Remove(a + b, c) == Remove(a, c) + Remove(b, c)
  {
    if |a| == 0 {
      assert a + b == b;
    } else {
      var first, x, y := if a[0] == c then "" else [a[0]], Remove(a[1..], c), Remove(b, c);
      RemoveConcat(a[1..], b, c);
      assert (a + b)[0] == a[0] && (a + b)[1..] == a[1..] + b;
      assert first + (x + y) == (first + x) + y;
    }
  }

  lemma {:induction false} WrittenNames(address: seq<Byte>, upper: bool)
    ensures var s := Written(address, "", upper);
            && |s| == 2 * |address| && AllHex(s)
            && forall i :: 0 <= i < |address| ==> address[i] == 16 * HexValue(s[2 * i]) + HexValue(s[2 * i + 1])
  {
    hide HexDigit, HexValue, IsHex;
    if |address| > 0 {
      var rest, s := Written(address[1..], "", upper), Written(address, "", upper);
      var pair := [HexDigit(address[0] / 16, upper), HexDigit(address[0] % 16, upper)];
      WrittenNames(address[1..], upper);
      DigitsAreHex(address[0], upper);
      assert s == pair + rest;
      forall i | 0 <= i < |address| ensures address[i] == 16 * HexValue(s[2 * i]) + HexValue(s[2 * i + 1]) {
        if i > 0 {
          assert address[i] == address[1..][i - 1];
          assert s[2 * i] == rest[2 * (i - 1)] && s[2 * i + 1] == rest[2 * (i - 1) + 1];
        }
      }
    }
  }
}
