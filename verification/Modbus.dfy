/** The Write Multiple Coils frame of the edge bridge (section 6.11 of the MODBUS
  Application Protocol V1.1b3), its decoder, and the bits in between.
 */
module Modbus {
  import opened Wrappers
  import opened Snmp

  // ----- Bits of an octet -----

  function Pow2(n: nat): nat {
    if n == 0 then 1 else 2 * Pow2(n - 1)
  }

  predicate Bit(b: nat, j: nat) {
    if j == 0 then b % 2 == 1 else Bit(b / 2, j - 1)
  }

  // b | (1 << j)
  function OrBit(b: nat, j: nat): nat {
    if Bit(b, j) then b else b + Pow2(j)
  }

  // The number whose bits are s, least significant first.
  function Byte(s: seq<bool>): nat {
    if s == [] then 0 else (if s[0] then 1 else 0) + 2 * Byte(s[1..])
  }

  lemma {:induction false} ByteBelow(s: seq<bool>)
    ensures Byte(s) < Pow2(|s|)
  {
    if s != [] {
      ByteBelow(s[1..]);
    }
  }

  lemma HalfOfByte(s: seq<bool>)
    requires s != []
    ensures Byte(s) / 2 == Byte(s[1..]) && (Byte(s) % 2 == 1 <==> s[0])
  {
  }

  lemma {:induction false} BitOfByte(s: seq<bool>, j: nat)
    ensures Bit(Byte(s), j) <==> j < |s| && s[j]
  {
    if s == [] {
      NoBits(j);
    } else {
      HalfOfByte(s);
      if j > 0 {
        BitOfByte(s[1..], j - 1);
      }
    }
  }

  lemma {:induction false} NoBits(j: nat)
    ensures !Bit(0, j)
  {
    if j > 0 {
      NoBits(j - 1);
    }
  }

  lemma {:induction false} BitsDetermine(a: nat, b: nat, n: nat)
    requires a < Pow2(n) && b < Pow2(n)
    requires forall j :: 0 <= j < n ==> Bit(a, j) == Bit(b, j)
    ensures a == b
  {
    if n > 0 {
      assert Bit(a, 0) == Bit(b, 0);
      forall j | 0 <= j < n - 1 ensures Bit(a / 2, j) == Bit(b / 2, j) {
        assert Bit(a, j + 1) == Bit(b, j + 1);
      }
      BitsDetermine(a / 2, b / 2, n - 1);
    }
  }

  lemma {:induction false} ByteAppend(s: seq<bool>, x: bool)
    ensures Byte(s + [x]) == Byte(s) + if x then Pow2(|s|) else 0
  {
    if s == [] {
      assert (s + [x])[1..] == [];
      assert Byte([x]) == (if x then 1 else 0) + 2 * Byte([]);
    } else {
      ByteAppend(s[1..], x);
      assert (s + [x])[1..] == s[1..] + [x];
    }
  }

  // Or-ing the next bit into the octet built so far.
  lemma OrNextBit(s: seq<bool>, x: bool)
    ensures Byte(s + [x]) == if x then OrBit(Byte(s), |s|) else Byte(s)
  {
    ByteAppend(s, x);
    BitOfByte(s, |s|);
  }

  lemma EightBits(s: seq<bool>)
    requires |s| <= 8
    ensures Byte(s) < 256
  {
    ByteBelow(s);
    assert Pow2(8) == 256 by {
      assert Pow2(4) == 16;
      assert Pow2(8) == 2 * (2 * (2 * (2 * Pow2(4))));
    }
    Pow2Grows(|s|, 8);
  }

  lemma {:induction false} Pow2Grows(m: nat, n: nat)
    requires m <= n
    ensures Pow2(m) <= Pow2(n)
    decreases n - m
  {
    if m < n {
      Pow2Grows(m + 1, n);
    }
  }

  // ----- Coils packed eight to an octet -----

  function OctetsFor(coils: nat): nat {
    (coils + 7) / 8
  }

  // The coils that go into octet k.
  function Slice(states: seq<bool>, k: nat): (r: seq<bool>)
    ensures |r| <= 8
    ensures forall j :: 0 <= j < |r| ==> 8 * k + j < |states| && r[j] == states[8 * k + j]
    ensures |r| == if |states| <= 8 * k then 0 else if |states| < 8 * k + 8 then |states| - 8 * k else 8
  {
    if |states| <= 8 * k then []
    else if |states| < 8 * k + 8 then states[8 * k..]
    else states[8 * k..8 * k + 8]
  }

  function PackedOctet(states: seq<bool>, k: nat): Octet {
    EightBits(Slice(states, k));
    Byte(Slice(states, k))
  }

  function Pack(states: seq<bool>): seq<Octet> {
    seq(OctetsFor(|states|), k requires 0 <= k => PackedOctet(states, k))
  }

  // Coil i sits in bit i % 8 of octet i / 8.
  function CoilAt(octets: seq<Octet>, i: nat): bool
    requires i < 8 * |octets|
  {
    Bit(octets[i / 8], i % 8)
  }

  function Unpack(octets: seq<Octet>, count: nat): seq<bool>
    requires count <= 8 * |octets|
  {
    seq(count, i requires 0 <= i < count => CoilAt(octets, i))
  }

  lemma PackedCoil(states: seq<bool>, i: nat)
    requires i < 8 * OctetsFor(|states|)
    ensures CoilAt(Pack(states), i) <==> i < |states| && states[i]
  {
    BitOfByte(Slice(states, i / 8), i % 8);
    assert 8 * (i / 8) + i % 8 == i;
  }

  ghost predicate ZeroPadding(octets: seq<Octet>, count: nat) {
    forall i :: count <= i < 8 * |octets| ==> !CoilAt(octets, i)
  }

  // Unpacking gives the coils back, and every padding bit is zero.
  lemma UnpackPack(states: seq<bool>)
    ensures Unpack(Pack(states), |states|) == states && ZeroPadding(Pack(states), |states|)
  {
    forall i | 0 <= i < 8 * OctetsFor(|states|) ensures CoilAt(Pack(states), i) <==> i < |states| && states[i] {
      PackedCoil(states, i);
    }
  }

  // Octets whose padding is zero come back when what they unpack to is packed again.
  lemma PackUnpack(octets: seq<Octet>, count: nat)
    requires |octets| == OctetsFor(count) && ZeroPadding(octets, count)
    ensures Pack(Unpack(octets, count)) == octets
  {
    var states := Unpack(octets, count);
    forall k | 0 <= k < |octets| ensures Pack(states)[k] == octets[k] {
      forall j | 0 <= j < 8 ensures Bit(Pack(states)[k], j) == Bit(octets[k], j) {
        var i := 8 * k + j;
        assert i / 8 == k && i % 8 == j;
        PackedCoil(states, i);
        assert CoilAt(octets, i) == Bit(octets[k], j);
      }
      EightBitsDetermine(Pack(states)[k], octets[k]);
    }
  }

  lemma EightBitsDetermine(a: Octet, b: Octet)
    requires forall j :: 0 <= j < 8 ==> Bit(a, j) == Bit(b, j)
    ensures a == b
  {
    assert Pow2(4) == 16;
    assert Pow2(8) == 2 * (2 * (2 * (2 * Pow2(4))));
    BitsDetermine(a, b, 8);
  }

  // ----- The frame -----

  function TwoOctets(n: int): Option<seq<Octet>> {
    if 0 <= n < 0x1_0000 then Some([n / 256, n % 256]) else None
  }

  datatype CoilWrite = CoilWrite(transaction: int, unit: int, start: int, states: seq<bool>)

  // struct.pack raises an error for a field that does not fit, which is None here.
  function BuildWriteMultipleCoils(w: CoilWrite): Option<seq<Octet>> {
    var start :- TwoOctets(w.start);
    var count :- TwoOctets(|w.states|);
    var transaction :- TwoOctets(w.transaction);
    if OctetsFor(|w.states|) > 255 || !(0 <= w.unit < 256) then None
    else
      var pdu: seq<Octet> := [0x0F] + start + count + [OctetsFor(|w.states|)] + Pack(w.states);
      var length :- TwoOctets(|pdu| + 1);
      Some(transaction + [0, 0] + length + [w.unit] + pdu)
  }

  function Word(high: Octet, low: Octet): nat {
    256 * high + low
  }

  function DecodeWriteMultipleCoils(f: seq<Octet>): Option<CoilWrite> {
    if |f| < 13 then None
    else
      var count := Word(f[10], f[11]);
      if f[2] == 0 && f[3] == 0 && Word(f[4], f[5]) == |f| - 6
         && f[7] == 0x0F && f[12] == OctetsFor(count) && |f| - 13 == f[12]
         && forall i :: count <= i < 8 * |f[13..]| ==> !CoilAt(f[13..], i)
      then Some(CoilWrite(Word(f[0], f[1]), f[6], Word(f[8], f[9]), Unpack(f[13..], count)))
      else None
  }

  lemma TwoOctetsWord(n: int)
    requires TwoOctets(n).Some?
    ensures |TwoOctets(n).value| == 2 && Word(TwoOctets(n).value[0], TwoOctets(n).value[1]) == n
  {
  }

  lemma WordTwoOctets(high: Octet, low: Octet)
    ensures TwoOctets(Word(high, low)) == Some([high, low])
  {
  }

  // What the encoder writes, octet by octet.
  lemma FrameLayout(w: CoilWrite)
    requires BuildWriteMultipleCoils(w).Some?
    ensures var f := BuildWriteMultipleCoils(w).value;
            && |f| == 13 + OctetsFor(|w.states|)
            && TwoOctets(w.transaction) == Some([f[0], f[1]]) && f[2] == f[3] == 0
            && TwoOctets(|f| - 6) == Some([f[4], f[5]]) && f[6] == w.unit as Octet && f[7] == 0x0F
            && TwoOctets(w.start) == Some([f[8], f[9]]) && TwoOctets(|w.states|) == Some([f[10], f[11]])
            && f[12] as int == OctetsFor(|w.states|) && f[13..] == Pack(w.states)
  {
    var f := BuildWriteMultipleCoils(w).value;
    var packed := Pack(w.states);
    assert f[13..] == packed;
  }

  lemma EncodedDecodes(w: CoilWrite)
    requires BuildWriteMultipleCoils(w).Some?
    ensures DecodeWriteMultipleCoils(BuildWriteMultipleCoils(w).value) == Some(w)
  {
    var f := BuildWriteMultipleCoils(w).value;
    FrameLayout(w);
    TwoOctetsWord(w.transaction);
    TwoOctetsWord(|f| - 6);
    TwoOctetsWord(w.start);
    TwoOctetsWord(|w.states|);
    UnpackPack(w.states);
  }

  lemma DecodedEncodes(f: seq<Octet>)
    requires DecodeWriteMultipleCoils(f).Some?
    ensures BuildWriteMultipleCoils(DecodeWriteMultipleCoils(f).value) == Some(f)
  {
    var w := DecodeWriteMultipleCoils(f).value;
    WordTwoOctets(f[0], f[1]);
    WordTwoOctets(f[4], f[5]);
    WordTwoOctets(f[8], f[9]);
    WordTwoOctets(f[10], f[11]);
    PackUnpack(f[13..], Word(f[10], f[11]));
    assert f == [f[0], f[1]] + [0, 0] + [f[4], f[5]] + [f[6]]
                + ([0x0F] + [f[8], f[9]] + [f[10], f[11]] + [f[12]] + f[13..]);
  }

  // A frame is what the encoder writes for w exactly when it decodes to w; in particular
  // all coils come back, the padding is zero, and the length counts what follows it.
  lemma FrameRoundTripIff(w: CoilWrite, f: seq<Octet>)
    ensures BuildWriteMultipleCoils(w) == Some(f) <==> DecodeWriteMultipleCoils(f) == Some(w)
  {
    if BuildWriteMultipleCoils(w) == Some(f) {
      EncodedDecodes(w);
    }
    if DecodeWriteMultipleCoils(f) == Some(w) {
      DecodedEncodes(f);
    }
  }

  // The loop that ors one coil at a time into the byte array.
  method PackInto(states: seq<bool>, coilBytes: array<Octet>)
    requires coilBytes.Length == OctetsFor(|states|)
    requires forall k :: 0 <= k < coilBytes.Length ==> coilBytes[k] == 0
    modifies coilBytes
    ensures coilBytes[..] == Pack(states)
  {
    for i := 0 to |states|
      invariant forall k :: 0 <= k < coilBytes.Length ==> coilBytes[k] as int == Byte(Slice(states[..i], k))
    {
      SliceStep(states, i);
      var k := i / 8;
      OrNextBit(Slice(states[..i], k), states[i]);
      EightBits(Slice(states[..i + 1], k));
      if states[i] {
        coilBytes[k] := OrBit(coilBytes[k], i % 8);
      }
    }
    assert states[..|states|] == states;
  }

  method WriteMultipleCoils(w: CoilWrite) returns (r: Option<seq<Octet>>)
    ensures r == BuildWriteMultipleCoils(w)
  {
    var byteCount := OctetsFor(|w.states|);
    var coilBytes := new Octet[byteCount](_ => 0);
    PackInto(w.states, coilBytes);
    if !(0 <= w.start < 0x1_0000) || |w.states| >= 0x1_0000 || byteCount > 255 {
      return None;
    }
    var pdu: seq<Octet> :=
      [0x0F] + TwoOctets(w.start).value + TwoOctets(|w.states|).value + [byteCount] + coilBytes[..];
    if !(0 <= w.transaction < 0x1_0000) || |pdu| + 1 >= 0x1_0000 || !(0 <= w.unit < 256) {
      return None;
    }
    r := Some(TwoOctets(w.transaction).value + [0, 0] + TwoOctets(|pdu| + 1).value + [w.unit] + pdu);
  }

  // One more coil extends the slice of its own octet and no other.
  lemma SliceStep(states: seq<bool>, i: nat)
    requires i < |states|
    ensures |Slice(states[..i], i / 8)| == i % 8
    ensures Slice(states[..i + 1], i / 8) == Slice(states[..i], i / 8) + [states[i]]
    ensures forall k: nat :: k != i / 8 ==> Slice(states[..i + 1], k) == Slice(states[..i], k)
  {
  }

  // The more significant octet comes first.
  lemma TwoOctetsBigEndian(n: int)
    ensures TwoOctets(n).Some? <==> 0 <= n < 0x1_0000
    ensures TwoOctets(n).Some? ==> |TwoOctets(n).value| == 2 && TwoOctets(n).value[0] as int * 256 + TwoOctets(n).value[1] == n
  {
  }
}
