/** The SNMP SetRequest frame of the edge bridge: the encoder, a decoder written from
  X.690 and RFC 3416, and exactly when the two agree.

  Octets are numbers below 256.  Building `bytes` from a number outside that range
  raises an error, which is None here.
 */
module Snmp {
  import opened Wrappers
  import opened Sequences

  type Octet = x: int | 0 <= x < 256

  // ----- Sub-identifiers in base 128 (X.690 section 8.19.2) -----

  // The digits of v, most significant first, all with the continuation bit.
  function Marked(v: nat): seq<Octet> {
    if v == 0 then [] else Marked(v / 128) + [v % 128 + 128]
  }

  function Base128(v: nat): seq<Octet> {
    Marked(v / 128) + [v % 128]
  }

  // The digits of v, least significant first, as the encoding loop collects them.
  function Digits(v: nat): (ds: seq<Octet>)
    ensures forall i :: 0 <= i < |ds| ==> ds[i] < 128
  {
    if v == 0 then [] else [v % 128] + Digits(v / 128)
  }

  lemma {:induction false} MarkedDigits(v: nat)
    ensures |Marked(v)| == |Digits(v)|
    ensures forall i :: 0 <= i < |Digits(v)| ==> Marked(v)[i] == Digits(v)[|Digits(v)| - 1 - i] + 128
  {
    if v > 0 {
      MarkedDigits(v / 128);
    }
  }

  lemma Base128OfDigits(v: nat, ds: seq<Octet>, octets: seq<Octet>)
    requires v >= 128 && ds == Digits(v) && |octets| == |ds|
    requires forall i :: 0 <= i < |ds| - 1 ==> octets[i] == ds[|ds| - 1 - i] + 128
    requires octets[|ds| - 1] == ds[0]
    ensures octets == Base128(v)
  {
    MarkedDigits(v / 128);
    assert ds == [v % 128] + Digits(v / 128);
    assert |Base128(v)| == |octets|;
    forall i | 0 <= i < |octets| ensures octets[i] == Base128(v)[i] {
      if i < |octets| - 1 {
        assert Base128(v)[i] == Marked(v / 128)[i];
        assert ds[|ds| - 1 - i] == Digits(v / 128)[|ds| - 2 - i];
      }
    }
  }

  // Decode one sub-identifier; acc is the value of the octets before.
  function DecodeSub(s: seq<Octet>, acc: nat): Option<(nat, seq<Octet>)> {
    if s == [] then None
    else if s[0] < 128 then Some((acc * 128 + s[0], s[1..]))
    else DecodeSub(s[1..], acc * 128 + s[0] - 128)
  }

  lemma {:induction false} DecodeMarked(v: nat, tail: seq<Octet>)
    ensures DecodeSub(Marked(v) + tail, 0) == DecodeSub(tail, v)
  {
    if v == 0 {
      assert Marked(v) + tail == tail;
    } else {
      var last := [v % 128 + 128];
      DecodeMarked(v / 128, last + tail);
      assert Marked(v) + tail == Marked(v / 128) + (last + tail);
      assert (last + tail)[1..] == tail;
    }
  }

  // Every sub-identifier decodes to itself.
  lemma Base128RoundTrip(v: nat, tail: seq<Octet>)
    ensures DecodeSub(Base128(v) + tail, 0) == Some((v, tail))
  {
    var high, low := v / 128, v % 128;
    DecodeMarked(high, [low] + tail);
    assert Base128(v) + tail == Marked(high) + ([low] + tail);
    LastDigit(high, low, tail);
  }

  lemma LastDigit(acc: nat, digit: Octet, tail: seq<Octet>)
    requires digit < 128
    ensures DecodeSub([digit] + tail, acc) == Some((acc * 128 + digit, tail))
  {
    assert ([digit] + tail)[1..] == tail;
  }

  lemma DigitAppended(acc: nat, d: nat)
    requires d < 128
    ensures acc > 0 || d > 0 ==> Marked(acc * 128 + d) == Marked(acc) + [d + 128]
    ensures Base128(acc * 128 + d) == Marked(acc) + [d]
  {
  }

  // m is what has been read so far, acc its value.
  lemma {:induction false} OnlyCanonical(s: seq<Octet>, acc: nat, v: nat, m: seq<Octet>)
    requires DecodeSub(s, acc) == Some((v, [])) && (acc > 0 || s[0] != 128) && m == Marked(acc)
    ensures m + s == Base128(v)
    decreases |s|
  {
    if s[0] < 128 {
      DigitAppended(acc, s[0]);
      assert s == [s[0]] && v == acc * 128 + s[0];
    } else {
      var next := acc * 128 + s[0] - 128;
      DigitAppended(acc, s[0] - 128);
      OnlyCanonical(s[1..], next, v, m + [s[0]]);
      assert m + s == (m + [s[0]]) + s[1..];
    }
  }

  lemma {:induction false} MarkedLeading(v: nat)
    ensures v > 0 ==> Marked(v) != [] && Marked(v)[0] != 128
  {
    if v > 0 {
      MarkedLeading(v / 128);
    }
  }

  // Base128 is the only encoding of v that does not start with the padding octet 80h.
  lemma Base128IsMinimal(v: nat, s: seq<Octet>)
    ensures s == Base128(v) <==> DecodeSub(s, 0) == Some((v, [])) && s[0] != 128
  {
    Base128RoundTrip(v, []);
    assert Base128(v) + [] == Base128(v);
    MarkedLeading(v / 128);
    if DecodeSub(s, 0) == Some((v, [])) && s[0] != 128 {
      OnlyCanonical(s, 0, v, []);
      assert [] + s == s;
    }
  }

  // ----- Object identifiers -----

  function SubIdentifiers(parts: seq<nat>): seq<Octet> {
    if parts == [] then [] else Base128(parts[0]) + SubIdentifiers(parts[1..])
  }

  // The parts after the second, if none is negative.
  predicate AllNatural(parts: seq<int>) {
    forall i :: 0 <= i < |parts| ==> parts[i] >= 0
  }

  // What encode_oid returns for the numbers of a dotted string.
  function EncodeOid(parts: seq<int>): Option<seq<Octet>> {
    if |parts| < 2 || !(0 <= parts[0] * 40 + parts[1] < 256) || !AllNatural(parts[2..]) then None
    else
      var encoded: seq<Octet> := [parts[0] * 40 + parts[1]] + SubIdentifiers(parts[2..]);
      if |encoded| > 255 then None else Some([0x06, |encoded|] + encoded)
  }

  // The loop that collects the digits, least significant first.
  method CollectDigits(val: nat) returns (octets: seq<Octet>)
    ensures octets == Digits(val)
  {
    octets := [];
    var v := val;
    while v > 0
      invariant v >= 0 && Digits(val) == octets + Digits(v)
      decreases v
    {
      DigitsOnce(octets, v, v % 128, v / 128);
      octets := octets + [v % 128];
      v := v / 128;
    }
  }

  lemma DigitsOnce(octets: seq<Octet>, v: nat, digit: Octet, rest: nat)
    requires v > 0 && digit == v % 128 && rest == v / 128
    ensures octets + Digits(v) == (octets + [digit]) + Digits(rest)
  {
  }

  // The octets of one sub-identifier, as the loops over `octets` build them.
  method EncodeSub(val: nat) returns (r: seq<Octet>)
    ensures r == Base128(val)
  {
    if val < 128 {
      assert Marked(0) == [];
      return [val];
    }
    var digits := CollectDigits(val);
    var octets := MarkOctets(digits);
    Base128OfDigits(val, digits, octets);
    r := octets;
  }

  // Reverse the digits and or 80h into all but the last.
  method MarkOctets(digits: seq<Octet>) returns (octets: seq<Octet>)
    requires forall k :: 0 <= k < |digits| ==> digits[k] < 128
    ensures |octets| == |digits|
    ensures forall k :: 0 <= k < |digits| ==> octets[k] == digits[|digits| - 1 - k] + if k < |digits| - 1 then 128 else 0
  {
    octets := Reverse(digits);
    if octets == [] {
      return;
    }
    for i := 0 to |octets| - 1
      invariant |octets| == |digits|
      invariant forall k :: 0 <= k < i ==> octets[k] == digits[|digits| - 1 - k] + 128
      invariant forall k :: i <= k < |digits| ==> octets[k] == digits[|digits| - 1 - k]
    {
      octets := octets[i := octets[i] + 128];
    }
  }

  method EncodeOidOctets(parts: seq<int>) returns (r: Option<seq<Octet>>)
    ensures r == EncodeOid(parts)
  {
    if |parts| < 2 || !(0 <= parts[0] * 40 + parts[1] < 256) {
      return None;
    }
    var encoded: seq<Octet> := [parts[0] * 40 + parts[1]];
    for i := 2 to |parts|
      invariant AllNatural(parts[2..i])
      invariant encoded == [parts[0] * 40 + parts[1]] + SubIdentifiers(parts[2..i])
    {
      assert parts[2..i + 1] == parts[2..i] + [parts[i]];
      if parts[i] < 0 {
        assert parts[2..][i - 2] < 0;
        return None;
      }
      var octets := EncodeSub(parts[i]);
      SubIdentifiersAppend(parts[2..i], parts[i]);
      encoded := encoded + octets;
    }
    assert parts[2..|parts|] == parts[2..];
    r := if |encoded| > 255 then None else Some([0x06, |encoded|] + encoded);
  }

  lemma {:induction false} SubIdentifiersAppend(parts: seq<nat>, v: nat)
    ensures SubIdentifiers(parts + [v]) == SubIdentifiers(parts) + Base128(v)
  {
    if parts == [] {
      assert (parts + [v])[1..] == [];
    } else {
      SubIdentifiersAppend(parts[1..], v);
      assert (parts + [v])[1..] == parts[1..] + [v];
    }
  }

  function DecodeSubs(s: seq<Octet>): Option<seq<nat>>
    decreases |s|
  {
    if s == [] then Some([])
    else match DecodeSub(s, 0)
      case None => None
      case Some((v, rest)) =>
        DecodeSubShrinks(s, 0);
        match DecodeSubs(rest)
        case None => None
        case Some(vs) => Some([v] + vs)
  }

  lemma {:induction false} DecodeSubShrinks(s: seq<Octet>, acc: nat)
    requires DecodeSub(s, acc).Some?
    ensures |DecodeSub(s, acc).value.1| < |s|
  {
    if s[0] >= 128 {
      DecodeSubShrinks(s[1..], acc * 128 + s[0] - 128);
    }
  }

  // X.690 section 8.19.4: the first sub-identifier holds the first two arcs.
  function DecodeOid(contents: seq<Octet>): Option<seq<int>> {
    match DecodeSubs(contents)
    case None => None
    case Some(subs) =>
      if subs == [] then None else Some(FirstArcs(subs[0]) + subs[1..])
  }

  function FirstArcs(sub: nat): seq<int> {
    if sub < 40 then [0, sub] else if sub < 80 then [1, sub - 40] else [2, sub - 80]
  }

  lemma {:induction false} SubIdentifiersRoundTrip(parts: seq<nat>)
    ensures DecodeSubs(SubIdentifiers(parts)) == Some(parts)
  {
    if parts != [] {
      Base128RoundTrip(parts[0], SubIdentifiers(parts[1..]));
      SubIdentifiersRoundTrip(parts[1..]);
      assert [parts[0]] + parts[1..] == parts;
    }
  }

  // Every sub-identifier ends in one octet below 128.
  function Ends(s: seq<Octet>): nat {
    if s == [] then 0 else (if s[0] < 128 then 1 else 0) + Ends(s[1..])
  }

  lemma {:induction false} EndsOfSub(s: seq<Octet>, acc: nat)
    requires DecodeSub(s, acc).Some?
    ensures Ends(s) == 1 + Ends(DecodeSub(s, acc).value.1)
  {
    if s[0] >= 128 {
      EndsOfSub(s[1..], acc * 128 + s[0] - 128);
    }
  }

  lemma {:induction false} EndsOfSubs(s: seq<Octet>)
    requires DecodeSubs(s).Some?
    ensures |DecodeSubs(s).value| == Ends(s)
    decreases |s|
  {
    if s != [] {
      EndsOfSub(s, 0);
      DecodeSubShrinks(s, 0);
      EndsOfSubs(DecodeSub(s, 0).value.1);
    }
  }

  // The arcs X.660 allows, as far as a single first octet can carry them.
  predicate OneOctetArcs(x: int, y: int) {
    0 <= x <= 2 && 0 <= y && (x < 2 ==> y < 40) && x * 40 + y < 128
  }

  lemma ShortFirstOctet(first: Octet, others: seq<nat>)
    requires first < 128
    ensures DecodeSubs([first] + SubIdentifiers(others)) == Some([first] + others)
  {
    var contents := [first] + SubIdentifiers(others);
    SubIdentifiersRoundTrip(others);
    assert contents[1..] == SubIdentifiers(others);
    assert DecodeSub(contents, 0) == Some((0 + first, SubIdentifiers(others)));
  }

  // A first octet with the continuation bit swallows the next sub-identifier.
  lemma LongFirstOctet(first: Octet, others: seq<nat>)
    requires first >= 128
    ensures var subs := DecodeSubs([first] + SubIdentifiers(others));
            subs.Some? ==> |subs.value| == |others|
  {
    var contents := [first] + SubIdentifiers(others);
    SubIdentifiersRoundTrip(others);
    EndsOfSubs(SubIdentifiers(others));
    assert contents[1..] == SubIdentifiers(others);
    if DecodeSubs(contents).Some? {
      EndsOfSubs(contents);
    }
  }

  lemma FirstArcsIff(x: int, y: int)
    requires 0 <= x * 40 + y < 128
    ensures FirstArcs(x * 40 + y) == [x, y] <==> OneOctetArcs(x, y)
  {
  }

  lemma ShortOidDecodes(first: Octet, others: seq<nat>)
    requires first < 128
    ensures DecodeOid([first] + SubIdentifiers(others)) == Some(FirstArcs(first) + others)
  {
    ShortFirstOctet(first, others);
    assert ([first] + others)[1..] == others;
  }

  // The object identifier decodes to itself exactly when its first two arcs are standard
  // and fit one octet without continuation bit.
  lemma OidRoundTripIff(parts: seq<int>)
    requires EncodeOid(parts).Some?
    ensures DecodeOid(EncodeOid(parts).value[2..]) == Some(parts) <==> OneOctetArcs(parts[0], parts[1])
  {
    var first: Octet := parts[0] * 40 + parts[1];
    var others: seq<nat> := parts[2..];
    assert EncodeOid(parts).value[2..] == [first] + SubIdentifiers(others);
    if first < 128 {
      ShortOidDecodes(first, others);
      FirstArcsIff(parts[0], parts[1]);
      assert (FirstArcs(first) + others)[..2] == FirstArcs(first);
      assert parts == [parts[0], parts[1]] + others && parts[..2] == [parts[0], parts[1]];
    } else {
      LongFirstOctet(first, others);
    }
  }

  // The arcs 1.40 come back as 2.0.
  lemma FortiethArcComesBackWrong(parts: seq<int>)
    requires parts == [1, 40]
    ensures EncodeOid(parts).Some? && DecodeOid(EncodeOid(parts).value[2..]) == Some([2, 0])
  {
    var first: Octet := 80;
    ShortOidDecodes(first, []);
    assert parts[2..] == [];
    assert EncodeOid(parts).value[2..] == [first] + SubIdentifiers([]);
    assert FirstArcs(80) + [] == [2, 0];
  }

  // ----- Tag, length, value (X.690 sections 8.1.3 and 8.3) -----

  // A tag, one length octet and the contents.
  function Tlv(tag: Octet, contents: seq<Octet>): Option<seq<Octet>> {
    if |contents| > 255 then None else Some([tag, |contents|] + contents)
  }

  function BigEndian(s: seq<Octet>): nat {
    if s == [] then 0 else BigEndian(s[..|s| - 1]) * 256 + s[|s| - 1]
  }

  function FourOctets(n: int): Option<seq<Octet>> {
    if 0 <= n < 0x1_0000_0000 then Some([n / 256 / 256 / 256, n / 256 / 256 % 256, n / 256 % 256, n % 256]) else None
  }

  // Two's complement.
  function Signed(s: seq<Octet>): int
    requires s != []
  {
    if s[0] < 128 then BigEndian(s) else BigEndian(s) - Power256(|s|)
  }

  function Power256(n: nat): nat {
    if n == 0 then 1 else 256 * Power256(n - 1)
  }

  // Contents and rest after a definite length in short or long form.
  function DecodeTlv(s: seq<Octet>, tag: Octet): Option<(seq<Octet>, seq<Octet>)> {
    if |s| < 2 || s[0] != tag || s[1] == 128 then None
    else if s[1] < 128 then
      if |s| < 2 + s[1] then None else Some((s[2..2 + s[1]], s[2 + s[1]..]))
    else
      var k := s[1] - 128;
      if |s| < 2 + k then None
      else
        var length := BigEndian(s[2..2 + k]);
        if |s| < 2 + k + length then None else Some((s[2 + k..2 + k + length], s[2 + k + length..]))
  }

  lemma ShortTlvRoundTrip(tag: Octet, contents: seq<Octet>, rest: seq<Octet>)
    requires |contents| < 128
    ensures DecodeTlv([tag, |contents|] + contents + rest, tag) == Some((contents, rest))
  {
  }

  lemma {:induction false} BigEndianAtLeast(s: seq<Octet>)
    requires |s| >= 2
    ensures BigEndian(s) >= 256 * s[0] as int
    decreases |s|
  {
    var t := s[..|s| - 1];
    if |t| == 1 {
      assert t[..0] == [];
      assert BigEndian(t) == 0 * 256 + t[0];
    } else {
      BigEndianAtLeast(t);
    }
  }

  // A length octet of 128 or more does not announce the length it was made from, so a
  // longer body that starts with an INTEGER tag is never the whole contents.
  lemma LongTlvFails(tag: Octet, contents: seq<Octet>)
    requires 128 <= |contents| < 256 && contents[0] == 2
    ensures match DecodeTlv([tag, |contents|] + contents, tag)
            case None => true
            case Some((c, rest)) => rest != []
  {
    var s := [tag, |contents|] + contents;
    var k := |contents| - 128;
    if k >= 1 {
      var lengthOctets := s[2..2 + k];
      assert lengthOctets[0] == 2;
      if k >= 2 {
        BigEndianAtLeast(lengthOctets);
      } else {
        assert lengthOctets == [2];
        assert BigEndian([2]) == BigEndian([2][..0]) * 256 + 2;
      }
    }
  }

  // ----- The SetRequest message (RFC 3416 section 3) -----

  datatype Message = Message(version: int, community: seq<Octet>, requestId: int, errorStatus: int,
                             errorIndex: int, oid: seq<int>, value: int)

  function AsciiOctets(s: string): Option<seq<Octet>> {
    if forall i :: 0 <= i < |s| ==> s[i] < 128 as char
    then Some(seq(|s|, i requires 0 <= i < |s| => Ascii(s[i])))
    else None
  }

  function Ascii(c: char): Octet {
    if c < 128 as char then c as int else 0
  }

  function Varbinds(oid: seq<Octet>, value: int): Option<seq<Octet>> {
    var varbind :- Tlv(0x30, oid + [0x02, 1, value % 256]);
    Tlv(0x30, varbind)
  }

  function Pdu(requestId: seq<Octet>, varbinds: seq<Octet>): Option<seq<Octet>> {
    Tlv(0xA3, [0x02, 4] + requestId + [0x02, 1, 0] + [0x02, 1, 0] + varbinds)
  }

  function Body(community: seq<Octet>, pdu: seq<Octet>): Option<seq<Octet>> {
    var name :- Tlv(0x04, community);
    Some([0x02, 1, 1] + name + pdu)
  }

  // build_snmp_set_request, for the numbers of the dotted object identifier.
  function BuildSetRequest(parts: seq<int>, value: int, community: string, requestId: int): Option<seq<Octet>> {
    var body :- SetRequestBody(parts, value, community, requestId);
    Tlv(0x30, body)
  }

  function SetRequestBody(parts: seq<int>, value: int, community: string, requestId: int): Option<seq<Octet>> {
    var oid :- EncodeOid(parts);
    var varbinds :- Varbinds(oid, value);
    var id :- FourOctets(requestId);
    var pdu :- Pdu(id, varbinds);
    var name :- AsciiOctets(community);
    Body(name, pdu)
  }

  function DecodeInteger(contents: seq<Octet>): Option<int> {
    if contents == [] then None else Some(Signed(contents))
  }

  function DecodeVarbinds(s: seq<Octet>): Option<(seq<int>, int)> {
    var (list, after) :- DecodeTlv(s, 0x30);
    var (varbind, more) :- DecodeTlv(list, 0x30);
    var (oid, rest) :- DecodeTlv(varbind, 0x06);
    var (value, end) :- DecodeTlv(rest, 0x02);
    var parts :- DecodeOid(oid);
    var v :- DecodeInteger(value);
    if after == [] && more == [] && end == [] then Some((parts, v)) else None
  }

  function DecodePdu(s: seq<Octet>): Option<(int, int, int, seq<int>, int)> {
    var (pdu, after) :- DecodeTlv(s, 0xA3);
    var (id, r1) :- DecodeTlv(pdu, 0x02);
    var (status, r2) :- DecodeTlv(r1, 0x02);
    var (index, r3) :- DecodeTlv(r2, 0x02);
    var i :- DecodeInteger(id);
    var es :- DecodeInteger(status);
    var ei :- DecodeInteger(index);
    var (oid, value) :- DecodeVarbinds(r3);
    if after == [] then Some((i, es, ei, oid, value)) else None
  }

  function DecodeMessage(frame: seq<Octet>): Option<Message> {
    var (body, after) :- DecodeTlv(frame, 0x30);
    if after != [] then None
    else
      var (version, r1) :- DecodeTlv(body, 0x02);
      var (community, r2) :- DecodeTlv(r1, 0x04);
      var v :- DecodeInteger(version);
      var (id, es, ei, oid, value) :- DecodePdu(r2);
      Some(Message(v, community, id, es, ei, oid, value))
  }

  // ----- What each layer decodes to -----

  lemma OneOctet(b: Octet)
    ensures Signed([b]) == if b < 128 then b as int else b - 256
  {
    assert [b][..0] == [];
    assert BigEndian([b]) == 0 * 256 + b;
    assert Power256(1) == 256 * Power256(0);
  }

  lemma {:induction false} FourOctetsValue(n: int)
    requires FourOctets(n).Some?
    ensures Signed(FourOctets(n).value) == if n < 0x8000_0000 then n else n - 0x1_0000_0000
  {
    var s := FourOctets(n).value;
    assert n == 256 * (n / 256) + n % 256;
    assert n / 256 == 256 * (n / 256 / 256) + n / 256 % 256;
    assert n / 256 / 256 == 256 * (n / 256 / 256 / 256) + n / 256 / 256 % 256;
    BigEndianOfFour(s[0], s[1], s[2], s[3]);
    assert s == [s[0], s[1], s[2], s[3]];
    assert Power256(4) == 256 * (256 * (256 * (256 * Power256(0))));
  }

  lemma BigEndianOfFour(a: Octet, b: Octet, c: Octet, d: Octet)
    ensures BigEndian([a, b, c, d]) == ((a * 256 as int + b) * 256 + c) * 256 + d
  {
    assert [a][..0] == [] && [a, b][..1] == [a] && [a, b, c][..2] == [a, b] && [a, b, c, d][..3] == [a, b, c];
    assert BigEndian([a]) == a as int;
    assert BigEndian([a, b]) == BigEndian([a]) * 256 + b;
    assert BigEndian([a, b, c]) == BigEndian([a, b]) * 256 + c;
  }

  lemma LastTlvRoundTrip(tag: Octet, contents: seq<Octet>)
    requires |contents| < 128
    ensures DecodeTlv([tag, |contents|] + contents, tag) == Some((contents, []))
  {
    ShortTlvRoundTrip(tag, contents, []);
    assert [tag, |contents|] + contents + [] == [tag, |contents|] + contents;
  }

  ghost function DecodedVarbind(oid: seq<Octet>, value: int): Option<(seq<int>, int)> {
    match DecodeOid(oid)
    case None => None
    case Some(parts) => Some((parts, Signed([value % 256])))
  }

  lemma VarbindsDecode(oid: seq<Octet>, value: int)
    requires |oid| < 118
    ensures var tlv := [0x06, |oid|] + oid;
            && Varbinds(tlv, value).Some? && |Varbinds(tlv, value).value| == |oid| + 9
            && DecodeVarbinds(Varbinds(tlv, value).value) == DecodedVarbind(oid, value)
  {
    var tlv: seq<Octet> := [0x06, |oid|] + oid;
    var integer: seq<Octet> := [0x02, 1] + [value % 256];
    var varbind := tlv + integer;
    assert varbind == tlv + [0x02, 1, value % 256];
    var list: seq<Octet> := [0x30, |varbind|] + varbind;
    LastTlvRoundTrip(0x30, list);
    LastTlvRoundTrip(0x30, varbind);
    ShortTlvRoundTrip(0x06, oid, integer);
    LastTlvRoundTrip(0x02, [value % 256]);
  }

  lemma PduDecodes(id: seq<Octet>, varbinds: seq<Octet>)
    requires |id| == 4 && |varbinds| < 116
    ensures Pdu(id, varbinds).Some? && |Pdu(id, varbinds).value| == |varbinds| + 14
    ensures DecodePdu(Pdu(id, varbinds).value) ==
              match DecodeVarbinds(varbinds)
              case None => None
              case Some((parts, value)) => Some((Signed(id), 0, 0, parts, value))
  {
    var zero: seq<Octet> := [0x02, 1] + [0];
    var r3 := varbinds;
    var r2 := zero + r3;
    var r1 := zero + r2;
    var contents := [0x02, 4] + id + r1;
    assert contents == [0x02, 4] + id + [0x02, 1, 0] + [0x02, 1, 0] + varbinds;
    LastTlvRoundTrip(0xA3, contents);
    ShortTlvRoundTrip(0x02, id, r1);
    ShortTlvRoundTrip(0x02, [0], r2);
    ShortTlvRoundTrip(0x02, [0], r3);
    OneOctet(0);
  }

  lemma BodyDecodes(community: seq<Octet>, pdu: seq<Octet>)
    requires |community| < 123
    requires Body(community, pdu).Some?
    ensures var body := Body(community, pdu).value;
            |body| < 128 ==>
              DecodeMessage([0x30, |body|] + body) ==
                match DecodePdu(pdu)
                case None => None
                case Some((id, es, ei, parts, value)) => Some(Message(1, community, id, es, ei, parts, value))
  {
    var body := Body(community, pdu).value;
    if |body| < 128 {
      var name: seq<Octet> := [0x04, |community|] + community;
      var r1 := name + pdu;
      assert body == [0x02, 1] + [1] + r1;
      LastTlvRoundTrip(0x30, body);
      ShortTlvRoundTrip(0x02, [1], r1);
      ShortTlvRoundTrip(0x04, community, pdu);
      OneOctet(1);
    }
  }

  lemma SetRequestBodyLength(parts: seq<int>, value: int, community: string, requestId: int)
    requires SetRequestBody(parts, value, community, requestId).Some?
    ensures |SetRequestBody(parts, value, community, requestId).value| == |community| + |EncodeOid(parts).value| + 26
  {
  }

  // A frame whose body is short decodes layer by layer; a longer one does not decode.
  lemma SetRequestDecodes(parts: seq<int>, value: int, community: string, requestId: int)
    requires BuildSetRequest(parts, value, community, requestId).Some?
    ensures var frame := BuildSetRequest(parts, value, community, requestId).value;
            var body := SetRequestBody(parts, value, community, requestId).value;
            DecodeMessage(frame) ==
              if |body| >= 128 then None
              else match DecodedVarbind(EncodeOid(parts).value[2..], value)
                case None => None
                case Some((oid, v)) =>
                  Some(Message(1, AsciiOctets(community).value, Signed(FourOctets(requestId).value), 0, 0, oid, v))
  {
    var body := SetRequestBody(parts, value, community, requestId).value;
    if |body| >= 128 {
      LongTlvFails(0x30, body);
    } else {
      var tlv := EncodeOid(parts).value;
      var oid := tlv[2..];
      assert tlv == [0x06, |oid|] + oid;
      var name := AsciiOctets(community).value;
      var id := FourOctets(requestId).value;
      VarbindsDecode(oid, value);
      var varbinds := Varbinds(tlv, value).value;
      PduDecodes(id, varbinds);
      BodyDecodes(name, Pdu(id, varbinds).value);
    }
  }

  lemma OctetValueIff(value: int)
    ensures Signed([value % 256]) == value <==> -128 <= value < 128
  {
    OneOctet(value % 256);
  }

  lemma RequestIdIff(requestId: int)
    requires FourOctets(requestId).Some?
    ensures Signed(FourOctets(requestId).value) == requestId <==> requestId < 0x8000_0000
  {
    FourOctetsValue(requestId);
  }

  // The whole frame carries the request back exactly when its body is shorter than 128
  // octets, the first arcs fit one octet, the value fits one signed octet and the request
  // id four signed ones.
  lemma SetRequestRoundTripIff(parts: seq<int>, value: int, community: string, requestId: int)
    requires BuildSetRequest(parts, value, community, requestId).Some?
    ensures DecodeMessage(BuildSetRequest(parts, value, community, requestId).value)
              == Some(Message(1, AsciiOctets(community).value, requestId, 0, 0, parts, value))
            <==>
            && |SetRequestBody(parts, value, community, requestId).value| < 128
            && OneOctetArcs(parts[0], parts[1])
            && -128 <= value < 128
            && requestId < 0x8000_0000
  {
    var oid := DecodeOid(EncodeOid(parts).value[2..]);
    var body := SetRequestBody(parts, value, community, requestId).value;
    SetRequestDecodes(parts, value, community, requestId);
    OidRoundTripIff(parts);
    OctetValueIff(value);
    RequestIdIff(requestId);
    if |body| < 128 && oid.Some? {
      assert oid == Some(parts) <==> oid.value == parts;
    }
  }

  // ----- The octets themselves -----

  // 1206, the arc of the NEMA, takes two octets.
  lemma NemaArc()
    ensures Base128(1206) == [0x89, 0x36]
  {
    assert Marked(9) == [0x89];
  }

  // An object identifier is its tag, its length, both first arcs in one octet, and the rest.
  lemma OidOctets(parts: seq<int>)
    requires EncodeOid(parts).Some?
    ensures var s := SubIdentifiers(parts[2..]);
            |parts| >= 2 && 0 <= parts[0] * 40 + parts[1] < 256 && |s| < 255
            && EncodeOid(parts).value == [0x06, 1 + |s|, parts[0] * 40 + parts[1]] + s
  {
  }

  // The most significant octet comes first.
  lemma FourOctetsBigEndian(n: int)
    requires 0 <= n < 0x1_0000_0000
    ensures FourOctets(n).Some? && |FourOctets(n).value| == 4
    ensures var o := FourOctets(n).value;
            ((o[0] as int * 256 + o[1]) * 256 + o[2]) * 256 + o[3] == n
  {
  }

  lemma AsciiOctetsMean(text: string)
    ensures AsciiOctets(text).Some? <==> forall i :: 0 <= i < |text| ==> text[i] < 128 as char
    ensures AsciiOctets(text).Some? ==>
              |AsciiOctets(text).value| == |text| && forall i :: 0 <= i < |text| ==> AsciiOctets(text).value[i] == text[i] as int
  {
  }

  // The frame, octet by octet: a message of version, community and SetRequest, which holds
  // the request id, two zeros, and a list of one binding of the identifier to the value.
  lemma SetRequestLayout(parts: seq<int>, value: int, community: string, requestId: int)
    requires BuildSetRequest(parts, value, community, requestId).Some?
    ensures EncodeOid(parts).Some? && AsciiOctets(community).Some? && FourOctets(requestId).Some?
    ensures var oid, name, id := EncodeOid(parts).value, AsciiOctets(community).value, FourOctets(requestId).value;
            && |name| + |oid| + 26 < 256
            && BuildSetRequest(parts, value, community, requestId).value ==
                 [0x30, |name| + |oid| + 26] + ([0x02, 1, 1] + ([0x04, |name|] + name)
                 + ([0xA3, |oid| + 19] + ([0x02, 4] + id + [0x02, 1, 0] + [0x02, 1, 0]
                    + ([0x30, |oid| + 5] + ([0x30, |oid| + 3] + (oid + [0x02, 1, value % 256]))))))
  {
    SetRequestBodyLength(parts, value, community, requestId);
  }
}
