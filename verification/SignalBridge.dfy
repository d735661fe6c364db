/** The virtual signal cabinet and the gateway that drives it: every command becomes an
  SNMP frame and a Modbus frame, and then changes the cabinet's lamp coils.

  Actions are given as the upper-cased names the code compares with.
 */
module SignalBridge {
  import opened Wrappers
  import Snmp
  import Modbus

  datatype Action = FlashAllRed | HoldGreen | ExtendGreen | PhaseSkip | Other(name: string) {

    // The actions that switch cabinet coils.
    predicate Switches() {
      FlashAllRed? || PhaseSkip?
    }
  }

  datatype Command = Command(action: Action, value: int)

  // ----- Lamps -----

  // Twelve coils: North, East, South and West, each red, amber, green.
  const ALL_RED: seq<bool> := [true, false, false, true, false, false, true, false, false, true, false, false]
  const EAST_WEST: seq<bool> := [true, false, false, false, false, true, true, false, false, false, false, true]
  const NORTH_SOUTH: seq<bool> := [false, false, true, true, false, false, false, false, true, true, false, false]

  predicate OneLamp(coils: seq<bool>, approach: nat)
    requires |coils| == 12 && approach < 4
  {
    var r, a, g := coils[3 * approach], coils[3 * approach + 1], coils[3 * approach + 2];
    (r || a || g) && !(r && a) && !(a && g) && !(r && g)
  }

  // Exactly one lamp per approach, and never green for crossing approaches.
  predicate Safe(coils: seq<bool>) {
    && |coils| == 12
    && OneLamp(coils, 0) && OneLamp(coils, 1) && OneLamp(coils, 2) && OneLamp(coils, 3)
    && !((coils[2] || coils[8]) && (coils[5] || coils[11]))
  }

  // The coil states put into the Modbus frame.
  function FrameLamps(action: Action): seq<bool> {
    match action
    case FlashAllRed => ALL_RED
    case PhaseSkip => EAST_WEST
    case _ => NORTH_SOUTH
  }

  // The cabinet coils after an override.
  function CabinetLamps(coils: seq<bool>, action: Action): seq<bool> {
    match action
    case FlashAllRed => ALL_RED
    case PhaseSkip => EAST_WEST
    case _ => coils
  }

  datatype Aspect = Red | Amber | Green

  // What the cabinet reports; aspects are those of North, East, South and West.
  datatype Response =
    | Switched(mode: Action, relaysActive: seq<nat>, aspects: seq<Aspect>)
    | Holding(mode: Action, holdSeconds: int, aspects: seq<Aspect>)
    | UnknownAction

  function ResponseTo(c: Command): Response {
    match c.action
    case FlashAllRed => Switched(FlashAllRed, [0, 3, 6, 9], [Red, Red, Red, Red])
    case PhaseSkip => Switched(PhaseSkip, [0, 5, 6, 11], [Red, Green, Red, Green])
    case Other(_) => UnknownAction
    case _ => Holding(c.action, if c.value == 0 then 15 else c.value, [Green, Red, Green, Red])
  }

  // The lamp that an approach shows.
  function AspectAt(coils: seq<bool>, approach: nat): Aspect
    requires |coils| == 12 && approach < 4
  {
    if coils[3 * approach] then Red else if coils[3 * approach + 1] then Amber else Green
  }

  function AspectsOf(coils: seq<bool>): seq<Aspect>
    requires |coils| == 12
  {
    [AspectAt(coils, 0), AspectAt(coils, 1), AspectAt(coils, 2), AspectAt(coils, 3)]
  }

  // The relays reported as active are exactly the coils that are on.
  lemma RelaysAreCoils(coils: seq<bool>, c: Command, i: nat)
    requires c.action.Switches() && i < 12
    ensures i in ResponseTo(c).relaysActive <==> CabinetLamps(coils, c.action)[i]
  {
  }

  lemma AspectsDetermine(coils: seq<bool>)
    requires Safe(coils)
    ensures AspectsOf(coils) == [Green, Red, Green, Red] <==> coils == NORTH_SOUTH
  {
    if AspectsOf(coils) == [Green, Red, Green, Red] {
      assert AspectsOf(coils)[0] == AspectAt(coils, 0) && AspectsOf(coils)[1] == AspectAt(coils, 1);
      assert AspectsOf(coils)[2] == AspectAt(coils, 2) && AspectsOf(coils)[3] == AspectAt(coils, 3);
    }
  }

  // The reported aspects are those of the coils if and only if the command switches coils,
  // or they are at north-south green already.
  lemma ResponseMatchesCoilsIff(coils: seq<bool>, c: Command)
    requires Safe(coils) && !c.action.Other?
    ensures ResponseTo(c).aspects == AspectsOf(CabinetLamps(coils, c.action)) <==> c.action.Switches() || coils == NORTH_SOUTH
  {
    AspectsDetermine(coils);
  }

  class VirtualCabinet {
    var coils: seq<bool>
    var flashMode: bool

    constructor ()
      ensures coils == NORTH_SOUTH && !flashMode
      ensures |coils| == 12 && forall i :: 0 <= i < 12 ==> (coils[i] <==> i in {2, 3, 8, 9})
    {
      var c := seq(12, _ => false);
      c := c[2 := true];
      c := c[8 := true];
      c := c[3 := true];
      c := c[9 := true];
      assert c == NORTH_SOUTH;
      coils := c;
      flashMode := false;
    }

    method ApplyOverride(c: Command) returns (r: Response)
      modifies this
      ensures coils == CabinetLamps(old(coils), c.action)
      ensures c.action.FlashAllRed? ==> |coils| == 12 && forall i :: 0 <= i < 12 ==> (coils[i] <==> i in {0, 3, 6, 9})
      ensures c.action.PhaseSkip? ==> |coils| == 12 && forall i :: 0 <= i < 12 ==> (coils[i] <==> i in {0, 5, 6, 11})
      ensures !c.action.FlashAllRed? && !c.action.PhaseSkip? ==> coils == old(coils)
      ensures flashMode == if c.action.Other? then old(flashMode) else c.action.FlashAllRed?
      ensures r == ResponseTo(c)
    {
      match c.action
      case FlashAllRed =>
        coils := seq(12, _ => false);
        coils := coils[0 := true];
        coils := coils[3 := true];
        coils := coils[6 := true];
        coils := coils[9 := true];
        flashMode := true;
        r := Switched(FlashAllRed, [0, 3, 6, 9], [Red, Red, Red, Red]);
      case PhaseSkip =>
        flashMode := false;
        coils := seq(12, _ => false);
        coils := coils[5 := true];
        coils := coils[11 := true];
        coils := coils[0 := true];
        coils := coils[6 := true];
        r := Switched(PhaseSkip, [0, 5, 6, 11], [Red, Green, Red, Green]);
      case Other(_) =>
        r := UnknownAction;
      case _ =>
        flashMode := false;
        r := Holding(c.action, if c.value == 0 then 15 else c.value, [Green, Red, Green, Red]);
    }
  }

  // ----- Frames -----

  // The entries of the object identifier table that the bridge uses.
  datatype Oids = Oids(ascUnitControl: seq<int>, ascPhaseHold: seq<int>) {

    function For(action: Action): seq<int> {
      if action.FlashAllRed? then ascUnitControl else ascPhaseHold
    }

    // Twelve arcs under iso.org, none of which needs more than two octets.
    ghost predicate AscShaped() {
      AscArcs(ascUnitControl) && AscArcs(ascPhaseHold)
    }
  }

  ghost predicate AscArcs(parts: seq<int>) {
    && |parts| == 12 && parts[0] == 1 && parts[1] == 3
    && forall i :: 2 <= i < |parts| ==> 0 <= parts[i] < 16384
  }

  const ASC_OIDS := Oids([1, 3, 6, 1, 4, 1, 1206, 4, 2, 1, 5, 1], [1, 3, 6, 1, 4, 1, 1206, 4, 2, 1, 1, 4])

  lemma AscTable()
    ensures ASC_OIDS.AscShaped()
  {
  }

  datatype Frames = Frames(ntcip: seq<Snmp.Octet>, modbus: seq<Snmp.Octet>)

  // 4 is flash; otherwise the value, with 1 in place of 0.
  function ValueFor(c: Command): int {
    if c.action.FlashAllRed? then 4 else if c.value == 0 then 1 else c.value
  }

  // None where struct.pack raises an error.
  function FramesFor(oids: Oids, c: Command, tx: int): Option<Frames> {
    var ntcip :- Snmp.BuildSetRequest(oids.For(c.action), ValueFor(c), "public", tx);
    var modbus :- Modbus.BuildWriteMultipleCoils(Modbus.CoilWrite(tx, 1, 0, FrameLamps(c.action)));
    Some(Frames(ntcip, modbus))
  }

  class SignalControllerBridge {
    var cabinet: VirtualCabinet?
    var txId: int
    const oids: Oids

    constructor (useVirtualCabinet: bool)
      ensures oids == ASC_OIDS && oids.AscShaped() && txId == 1 && (cabinet != null <==> useVirtualCabinet)
      ensures cabinet != null ==> fresh(cabinet) && cabinet.coils == NORTH_SOUTH && !cabinet.flashMode
    {
      if useVirtualCabinet {
        cabinet := new VirtualCabinet();
      } else {
        cabinet := null;
      }
      txId := 1;
      oids := ASC_OIDS;
      AscTable();
    }

    // A frame that cannot be built raises an error before the cabinet is touched.
    method DispatchCommand(c: Command) returns (r: Option<Frames>, diagnostics: Option<Response>)
      modifies this`txId, cabinet
      ensures txId == old(txId) + 1 && r == FramesFor(oids, c, txId)
      ensures diagnostics == if r.None? || cabinet == null then None else Some(ResponseTo(c))
      ensures cabinet != null ==>
                && cabinet.coils == (if r.None? then old(cabinet.coils) else CabinetLamps(old(cabinet.coils), c.action))
                && cabinet.flashMode == (if r.None? || c.action.Other? then old(cabinet.flashMode) else c.action.FlashAllRed?)
    {
      txId := txId + 1;
      var ntcip := Snmp.BuildSetRequest(oids.For(c.action), ValueFor(c), "public", txId);
      diagnostics := None;
      if ntcip.None? {
        return None, None;
      }
      var modbus := Modbus.WriteMultipleCoils(Modbus.CoilWrite(txId, 1, 0, FrameLamps(c.action)));
      if modbus.None? {
        return None, None;
      }
      if cabinet != null {
        var response := cabinet.ApplyOverride(c);
        diagnostics := Some(response);
      }
      r := Some(Frames(ntcip.value, modbus.value));
    }
  }

  // ----- What the frames carry -----

  lemma {:induction false} ShortSubIdentifiers(parts: seq<nat>)
    requires forall i :: 0 <= i < |parts| ==> parts[i] < 16384
    ensures |Snmp.SubIdentifiers(parts)| <= 2 * |parts|
  {
    if parts != [] {
      ShortSubIdentifiers(parts[1..]);
      var v := parts[0];
      assert Snmp.Marked(v / 128 / 128) == [];
      assert |Snmp.Marked(v / 128)| <= 1;
    }
  }

  lemma ShortOid(parts: seq<int>)
    requires AscArcs(parts)
    ensures Snmp.EncodeOid(parts).Some? && |Snmp.EncodeOid(parts).value| <= 23
    ensures Snmp.OneOctetArcs(parts[0], parts[1])
  {
    ShortSubIdentifiers(parts[2..]);
  }

  lemma RequestExistsIff(parts: seq<int>, value: int, tx: int)
    requires AscArcs(parts)
    ensures Snmp.BuildSetRequest(parts, value, "public", tx).Some? <==> 0 <= tx < 0x1_0000_0000
    ensures 0 <= tx < 0x1_0000_0000 ==> |Snmp.SetRequestBody(parts, value, "public", tx).value| < 128
  {
    ShortOid(parts);
    var oid := Snmp.EncodeOid(parts).value;
    Snmp.VarbindsDecode(oid[2..], value);
    assert oid == [0x06, |oid[2..]|] + oid[2..];
    if 0 <= tx < 0x1_0000_0000 {
      Snmp.PduDecodes(Snmp.FourOctets(tx).value, Snmp.Varbinds(oid, value).value);
      Snmp.SetRequestBodyLength(parts, value, "public", tx);
    }
  }

  // Frames can be built exactly as long as the transaction id fits two octets.
  lemma FramesExistIff(oids: Oids, c: Command, tx: int)
    requires oids.AscShaped()
    ensures FramesFor(oids, c, tx).Some? <==> 0 <= tx < 0x1_0000
  {
    RequestExistsIff(oids.For(c.action), ValueFor(c), tx);
  }

  // The Modbus frame decodes to the lamps of the action.
  lemma FrameCarriesLamps(oids: Oids, c: Command, tx: int)
    requires FramesFor(oids, c, tx).Some?
    ensures Modbus.DecodeWriteMultipleCoils(FramesFor(oids, c, tx).value.modbus)
              == Some(Modbus.CoilWrite(tx, 1, 0, FrameLamps(c.action)))
  {
    Modbus.EncodedDecodes(Modbus.CoilWrite(tx, 1, 0, FrameLamps(c.action)));
  }

  // The SNMP frame decodes to the request exactly when the value fits one signed octet.
  lemma FrameCarriesRequestIff(oids: Oids, c: Command, tx: int)
    requires oids.AscShaped() && FramesFor(oids, c, tx).Some?
    ensures Snmp.DecodeMessage(FramesFor(oids, c, tx).value.ntcip)
              == Some(Snmp.Message(1, Snmp.AsciiOctets("public").value, tx, 0, 0, oids.For(c.action), ValueFor(c)))
        <==> -128 <= ValueFor(c) < 128
  {
    FramesExistIff(oids, c, tx);
    ShortOid(oids.For(c.action));
    RequestExistsIff(oids.For(c.action), ValueFor(c), tx);
    Snmp.SetRequestRoundTripIff(oids.For(c.action), ValueFor(c), "public", tx);
  }

  // ----- All runs -----

  // The transaction id and the cabinet coils of a bridge with a cabinet.
  datatype State = State(txId: int, coils: seq<bool>)

  function Step(oids: Oids, s: State, c: Command): State {
    State(s.txId + 1, if FramesFor(oids, c, s.txId + 1).None? then s.coils else CabinetLamps(s.coils, c.action))
  }

  function After(oids: Oids, run: seq<Command>): State {
    if run == [] then State(1, NORTH_SOUTH) else Step(oids, After(oids, run[..|run| - 1]), run[|run| - 1])
  }

  lemma LampsAreSafe(coils: seq<bool>, action: Action)
    requires Safe(coils)
    ensures Safe(FrameLamps(action)) && Safe(CabinetLamps(coils, action))
  {
  }

  lemma CarriedLampsAreSafe(f: Frames, tx: int, action: Action)
    requires Modbus.DecodeWriteMultipleCoils(f.modbus) == Some(Modbus.CoilWrite(tx, 1, 0, FrameLamps(action)))
    ensures ShowsSafeLamps(f)
  {
    LampsAreSafe(NORTH_SOUTH, action);
  }

  lemma StepIsSafe(oids: Oids, s: State, c: Command, tx: int)
    requires oids.AscShaped() && Safe(s.coils) && 1 <= s.txId && tx == s.txId + 1
    ensures Step(oids, s, c) == State(tx, if tx < 0x1_0000 then CabinetLamps(s.coils, c.action) else s.coils)
    ensures Safe(Step(oids, s, c).coils)
    ensures FramesFor(oids, c, tx).Some? <==> tx < 0x1_0000
  {
    FramesExistIff(oids, c, tx);
    LampsAreSafe(s.coils, c.action);
  }

  // The coils decoded from the Modbus frame are safe.
  ghost predicate ShowsSafeLamps(f: Frames) {
    var sent := Modbus.DecodeWriteMultipleCoils(f.modbus);
    sent.Some? && Safe(sent.value.states)
  }

  // Every command of a run that gets frames shows safe lamps, on the wire and in the cabinet.
  lemma {:induction false} EveryRunIsSafe(oids: Oids, run: seq<Command>)
    requires oids.AscShaped()
    ensures After(oids, run).txId == 1 + |run| && Safe(After(oids, run).coils)
    ensures run != [] ==>
              var c, tx := run[|run| - 1], After(oids, run).txId;
              && (FramesFor(oids, c, tx).Some? <==> |run| <= 65534)
              && (FramesFor(oids, c, tx).Some? ==> ShowsSafeLamps(FramesFor(oids, c, tx).value))
  {
    if run != [] {
      var before := run[..|run| - 1];
      EveryRunIsSafe(oids, before);
      var c, tx := run[|run| - 1], After(oids, before).txId + 1;
      StepIsSafe(oids, After(oids, before), c, tx);
      if FramesFor(oids, c, tx).Some? {
        FrameCarriesLamps(oids, c, tx);
        CarriedLampsAreSafe(FramesFor(oids, c, tx).value, tx, c.action);
      }
    }
  }

  ghost predicate NeverSwitched(run: seq<Command>) {
    forall i :: 0 <= i < |run| ==> !run[i].action.Switches()
  }

  lemma StepSwitches(oids: Oids, run: seq<Command>)
    requires oids.AscShaped() && 0 < |run| <= 65534
    ensures After(oids, run).coils ==
              CabinetLamps(After(oids, run[..|run| - 1]).coils, run[|run| - 1].action)
  {
    var before := run[..|run| - 1];
    EveryRunIsSafe(oids, before);
    StepIsSafe(oids, After(oids, before), run[|run| - 1], After(oids, before).txId + 1);
  }

  lemma CabinetShowsNorthSouth(coils: seq<bool>, action: Action)
    ensures CabinetLamps(coils, action) == NORTH_SOUTH <==> coils == NORTH_SOUTH && !action.Switches()
  {
  }

  lemma {:induction false} UnswitchedIff(oids: Oids, run: seq<Command>)
    requires oids.AscShaped()
    requires |run| <= 65534
    ensures After(oids, run).coils == NORTH_SOUTH <==> NeverSwitched(run)
  {
    if run != [] {
      var before, c := run[..|run| - 1], run[|run| - 1];
      UnswitchedIff(oids, before);
      StepSwitches(oids, run);
      CabinetShowsNorthSouth(After(oids, before).coils, c.action);
      assert run == before + [c];
      assert NeverSwitched(run) <==> NeverSwitched(before) && !c.action.Switches() by {
        if NeverSwitched(run) {
          assert forall i :: 0 <= i < |before| ==> before[i] == run[i];
        }
      }
    }
  }

  // The lamps of the last frame are the cabinet's exactly when the last command switches
  // coils, or none has since the cabinet was built.
  lemma FrameMatchesCabinetIff(oids: Oids, run: seq<Command>)
    requires oids.AscShaped()
    requires 0 < |run| <= 65534
    ensures FrameLamps(run[|run| - 1].action) == After(oids, run).coils
        <==> run[|run| - 1].action.Switches() || NeverSwitched(run)
  {
    StepSwitches(oids, run);
    UnswitchedIff(oids, run);
  }

  // Holding green after a phase skip reports north-south green while the cabinet keeps
  // east-west green.
  lemma HoldAfterSkipDisagrees(oids: Oids)
    requires oids.AscShaped()
    ensures var run := [Command(PhaseSkip, 0), Command(HoldGreen, 0)];
            FrameLamps(HoldGreen) == NORTH_SOUTH && After(oids, run).coils == EAST_WEST
  {
    var run := [Command(PhaseSkip, 0), Command(HoldGreen, 0)];
    assert run[..1] == [Command(PhaseSkip, 0)];
    assert run[..1][..0] == [];
    FramesExistIff(oids, run[0], 2);
    assert After(oids, run[..1]) == State(2, EAST_WEST);
  }

  // The aspects last reported are the cabinet's exactly under the same condition.
  lemma DiagnosticsMatchCabinetIff(oids: Oids, run: seq<Command>)
    requires oids.AscShaped()
    requires 0 < |run| <= 65534 && !run[|run| - 1].action.Other?
    ensures |After(oids, run).coils| == 12
    ensures ResponseTo(run[|run| - 1]).aspects == AspectsOf(After(oids, run).coils)
        <==> run[|run| - 1].action.Switches() || NeverSwitched(run)
  {
    var before, c := run[..|run| - 1], run[|run| - 1];
    EveryRunIsSafe(oids, before);
    EveryRunIsSafe(oids, run);
    StepSwitches(oids, run);
    UnswitchedIff(oids, run);
    CabinetShowsNorthSouth(After(oids, before).coils, c.action);
    ResponseMatchesCoilsIff(After(oids, before).coils, c);
  }

  // A value of 200 comes back as -56.
  lemma LargeValueComesBackNegative(oids: Oids, action: Action, tx: int)
    requires oids.AscShaped() && !action.FlashAllRed? && 0 <= tx < 0x1_0000
    ensures var frames := FramesFor(oids, Command(action, 200), tx);
            && frames.Some?
            && Snmp.DecodeMessage(frames.value.ntcip) ==
                 Some(Snmp.Message(1, Snmp.AsciiOctets("public").value, tx, 0, 0, oids.For(action), -56))
  {
    var parts := oids.For(action);
    FramesExistIff(oids, Command(action, 200), tx);
    RequestExistsIff(parts, 200, tx);
    ShortOid(parts);
    Snmp.OidRoundTripIff(parts);
    Snmp.SetRequestDecodes(parts, 200, "public", tx);
    Snmp.RequestIdIff(tx);
    Snmp.OneOctet(200);
  }

  // With a community of 103 characters the frame can be built but not decoded.
  lemma LongCommunityIsLost(parts: seq<int>, value: int, tx: int)
    requires AscArcs(parts) && 0 <= tx < 0x1_0000
    ensures var frame := Snmp.BuildSetRequest(parts, value, seq(103, _ => 'c'), tx);
            frame.Some? && Snmp.DecodeMessage(frame.value) == None
  {
    var community := seq(103, _ => 'c');
    ShortOid(parts);
    var oid := Snmp.EncodeOid(parts).value;
    Snmp.VarbindsDecode(oid[2..], value);
    assert oid == [0x06, |oid[2..]|] + oid[2..];
    Snmp.PduDecodes(Snmp.FourOctets(tx).value, Snmp.Varbinds(oid, value).value);
    assert Snmp.SetRequestBody(parts, value, community, tx).Some?;
    Snmp.SetRequestBodyLength(parts, value, community, tx);
    Snmp.SetRequestDecodes(parts, value, community, tx);
  }

  // ----- Requests and lamps in plain numbers -----

  lemma PublicOctets()
    ensures Snmp.AsciiOctets("public") == Some([112, 117, 98, 108, 105, 99])
  {
    Snmp.AsciiOctetsMean("public");
    var o := Snmp.AsciiOctets("public").value;
    assert o == [o[0], o[1], o[2], o[3], o[4], o[5]];
  }

  // FLASH_ALL_RED sets the unit control to 4, whatever value is commanded with it.
  lemma FlashRequest(value: int, tx: int)
    requires 0 <= tx < 0x1_0000
    ensures var frames := FramesFor(ASC_OIDS, Command(FlashAllRed, value), tx);
            && frames.Some?
            && Snmp.DecodeMessage(frames.value.ntcip) ==
                 Some(Snmp.Message(1, [112, 117, 98, 108, 105, 99], tx, 0, 0, [1, 3, 6, 1, 4, 1, 1206, 4, 2, 1, 5, 1], 4))
  {
    var c := Command(FlashAllRed, value);
    AscTable();
    FramesExistIff(ASC_OIDS, c, tx);
    FrameCarriesRequestIff(ASC_OIDS, c, tx);
    PublicOctets();
  }

  // Every other action sets the phase hold to the commanded value, or to 1 instead of 0.
  lemma HoldRequest(action: Action, value: int, tx: int)
    requires 0 <= tx < 0x1_0000 && !action.FlashAllRed? && -128 <= value < 128
    ensures var frames := FramesFor(ASC_OIDS, Command(action, value), tx);
            && frames.Some?
            && Snmp.DecodeMessage(frames.value.ntcip) ==
                 Some(Snmp.Message(1, [112, 117, 98, 108, 105, 99], tx, 0, 0, [1, 3, 6, 1, 4, 1, 1206, 4, 2, 1, 1, 4],
                                   if value == 0 then 1 else value))
  {
    var c := Command(action, value);
    AscTable();
    FramesExistIff(ASC_OIDS, c, tx);
    FrameCarriesRequestIff(ASC_OIDS, c, tx);
    PublicOctets();
  }

  // Over every run of the bridge, the SNMP frame of the last command sets what its action is
  // for, under the number of the command plus one.
  lemma EveryRunRequests(run: seq<Command>)
    requires 0 < |run| <= 65534
    ensures var c, tx := run[|run| - 1], |run| + 1;
            var frames := FramesFor(ASC_OIDS, c, tx);
            && After(ASC_OIDS, run).txId == tx && frames.Some?
            && (c.action.FlashAllRed? ==>
                  Snmp.DecodeMessage(frames.value.ntcip) ==
                    Some(Snmp.Message(1, [112, 117, 98, 108, 105, 99], tx, 0, 0, [1, 3, 6, 1, 4, 1, 1206, 4, 2, 1, 5, 1], 4)))
            && (!c.action.FlashAllRed? && -128 <= c.value < 128 ==>
                  Snmp.DecodeMessage(frames.value.ntcip) ==
                    Some(Snmp.Message(1, [112, 117, 98, 108, 105, 99], tx, 0, 0, [1, 3, 6, 1, 4, 1, 1206, 4, 2, 1, 1, 4],
                                      if c.value == 0 then 1 else c.value)))
  {
    var c, tx := run[|run| - 1], |run| + 1;
    AscTable();
    EveryRunIsSafe(ASC_OIDS, run);
    FramesExistIff(ASC_OIDS, c, tx);
    if c.action.FlashAllRed? {
      FlashRequest(c.value, tx);
    } else if -128 <= c.value < 128 {
      HoldRequest(c.action, c.value, tx);
    }
  }

  // The coil octets on the wire: red everywhere is 49h 02h, east-west green 61h 08h, and
  // north-south green 0Ch 03h.
  lemma CoilOctets(action: Action)
    ensures Modbus.Pack(FrameLamps(action)) ==
              match action
              case FlashAllRed => [0x49, 0x02]
              case PhaseSkip => [0x61, 0x08]
              case _ => [0x0C, 0x03]
  {
    var lamps := FrameLamps(action);
    LampByte(lamps[..8]);
    LampByte(lamps[8..]);
    PackedTwelve(lamps);
  }

  lemma PackedTwelve(lamps: seq<bool>)
    requires |lamps| == 12
    ensures Modbus.Byte(lamps[..8]) < 256 && Modbus.Byte(lamps[8..]) < 256
    ensures Modbus.Pack(lamps) == [Modbus.Byte(lamps[..8]), Modbus.Byte(lamps[8..])]
  {
    Modbus.EightBits(lamps[..8]);
    Modbus.EightBits(lamps[8..]);
    assert Modbus.Slice(lamps, 0) == lamps[..8];
    assert Modbus.Slice(lamps, 1) == lamps[8..];
  }

  lemma LampByte(s: seq<bool>)
    requires |s| == 4 || |s| == 8
    ensures Modbus.Byte(s) ==
              (if s[0] then 1 else 0) + (if s[1] then 2 else 0) + (if s[2] then 4 else 0) + (if s[3] then 8 else 0)
              + (if |s| == 4 then 0
                 else (if s[4] then 16 else 0) + (if s[5] then 32 else 0) + (if s[6] then 64 else 0) + (if s[7] then 128 else 0))
  {
    FourBits(s);
    if |s| == 8 {
      FourBits(s[4..]);
      assert s[4..][0] == s[4] && s[4..][1] == s[5] && s[4..][2] == s[6] && s[4..][3] == s[7];
      assert Modbus.Byte([]) == 0;
    }
  }

  lemma FourBits(s: seq<bool>)
    requires |s| >= 4
    ensures Modbus.Byte(s) ==
              (if s[0] then 1 else 0) + (if s[1] then 2 else 0) + (if s[2] then 4 else 0) + (if s[3] then 8 else 0)
              + 16 * Modbus.Byte(s[4..])
  {
    assert s[1..][1..] == s[2..] && s[2..][1..] == s[3..] && s[3..][1..] == s[4..];
  }

  // The response names its action; a hold lasts the commanded seconds, or 15 instead of 0.
  lemma ResponseMeans(c: Command)
    ensures c.action.Other? <==> ResponseTo(c).UnknownAction?
    ensures c.action.Switches() ==> ResponseTo(c).Switched? && ResponseTo(c).mode == c.action
    ensures c.action.HoldGreen? || c.action.ExtendGreen? ==>
              && ResponseTo(c).Holding? && ResponseTo(c).mode == c.action
              && ResponseTo(c).holdSeconds == if c.value == 0 then 15 else c.value
  {
  }
}
