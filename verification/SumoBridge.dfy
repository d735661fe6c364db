/** The main loop of the live SUMO bridge: drain the queued dashboard commands, enforce
  the emergency hold, take a simulation step.

  TraCI calls are taken to succeed.  What the simulator does to the lights, both in a
  step and when a state string is forced on a light, is arbitrary: it is given by two
  functions nothing is known about.
 */
module SumoBridge {

  datatype Light = Light(phase: int, duration: real)

  type Lights = map<string, Light>

  datatype Override = FlashAllRed | PhaseSkip | ExtendGreen | ShortenGreen | UnknownOverride

  datatype Command =
    | EmergencyActivated
    | EmergencyDeactivated
    | SignalOverride(action: Override, value: real)
    | OtherCommand

  datatype Simulator = Simulator(flashed: Light -> Light, evolved: Lights -> Lights)

  datatype State = State(emergency: bool, lights: Lights)

  // ----- Commands -----

  function Held(l: Light): Light {
    Light(0, 9999.0)
  }

  function Overridden(sim: Simulator, l: Light, action: Override, value: real): Light {
    match action
    case FlashAllRed => sim.flashed(l)
    case PhaseSkip => l.(phase := (l.phase + 1) % 4)
    case ExtendGreen => l.(duration := l.duration + value)
    case ShortenGreen => l.(duration := if l.duration - value < 5.0 then 5.0 else l.duration - value)
    case UnknownOverride => l
  }

  // The light as a command leaves it.
  function Commanded(sim: Simulator, l: Light, c: Command): Light {
    match c
    case EmergencyActivated => Held(l)
    case EmergencyDeactivated => Light(0, 10.0)
    case SignalOverride(action, value) => Overridden(sim, l, action, value)
    case OtherCommand => l
  }

  function Applied(sim: Simulator, s: State, c: Command): State {
    State(if c.EmergencyActivated? then true else if c.EmergencyDeactivated? then false else s.emergency,
          map tl | tl in s.lights :: Commanded(sim, s.lights[tl], c))
  }

  function Drained(sim: Simulator, s: State, queue: seq<Command>): State
    decreases |queue|
  {
    if queue == [] then s else Drained(sim, Applied(sim, s, queue[0]), queue[1..])
  }

  // The hold is renewed after the commands and before the step.
  function Enforced(s: State): State {
    if s.emergency then s.(lights := map tl | tl in s.lights :: Held(s.lights[tl])) else s
  }

  // The states in which the simulation steps of a run are taken, one per batch of commands.
  function Steps(sim: Simulator, s: State, batches: seq<seq<Command>>): seq<State>
    decreases |batches|
  {
    if batches == [] then []
    else
      var now := Enforced(Drained(sim, s, batches[0]));
      [now] + Steps(sim, now.(lights := sim.evolved(now.lights)), batches[1..])
  }

  lemma StepsFrom(sim: Simulator, s: State, batches: seq<seq<Command>>)
    requires batches != []
    ensures var now := Enforced(Drained(sim, s, batches[0]));
            Steps(sim, s, batches) == [now] + Steps(sim, now.(lights := sim.evolved(now.lights)), batches[1..])
  {
  }

  // ----- The loop -----

  class SumoLiveBridge {
    const sim: Simulator
    var emergencyMode: bool
    var stepCount: nat
    var lights: Lights
    var commandQueue: seq<Command>

    constructor (sim: Simulator, lights: Lights)
      ensures this.sim == sim && this.lights == lights
      ensures !emergencyMode && stepCount == 0 && commandQueue == []
    {
      this.sim, this.lights := sim, lights;
      emergencyMode, stepCount, commandQueue := false, 0, [];
    }

    function View(): State
      reads this
    {
      State(emergencyMode, lights)
    }

    method SetEveryLight(c: Command)
      modifies this`lights
      ensures lights == map tl | tl in old(lights) :: Commanded(sim, old(lights)[tl], c)
    {
      var todo := lights.Keys;
      while todo != {}
        invariant todo <= old(lights).Keys == lights.Keys
        invariant forall tl :: tl in lights ==>
                    lights[tl] == if tl in todo then old(lights)[tl] else Commanded(sim, old(lights)[tl], c)
        decreases todo
      {
        var tl :| tl in todo;
        lights := lights[tl := Commanded(sim, lights[tl], c)];
        todo := todo - {tl};
      }
    }

    method DrainQueue()
      modifies this`emergencyMode, this`lights, this`commandQueue
      ensures View() == Drained(sim, old(View()), old(commandQueue)) && commandQueue == []
    {
      while commandQueue != []
        invariant Drained(sim, View(), commandQueue) == Drained(sim, old(View()), old(commandQueue))
        decreases |commandQueue|
      {
        var c := commandQueue[0];
        commandQueue := commandQueue[1..];
        if c.EmergencyActivated? {
          emergencyMode := true;
        } else if c.EmergencyDeactivated? {
          emergencyMode := false;
        }
        SetEveryLight(c);
      }
    }

    method EnforceHold()
      modifies this`lights
      ensures View() == Enforced(old(View()))
    {
      if emergencyMode {
        var todo := lights.Keys;
        while todo != {}
          invariant todo <= old(lights).Keys == lights.Keys
          invariant forall tl :: tl in lights ==>
                      lights[tl] == if tl in todo then old(lights)[tl] else Held(old(lights)[tl])
          decreases todo
        {
          var tl :| tl in todo;
          if lights[tl].phase != 0 {
            lights := lights[tl := lights[tl].(phase := 0)];
          }
          lights := lights[tl := lights[tl].(duration := 9999.0)];
          todo := todo - {tl};
        }
      }
    }

    // batches[k] is what the listener has queued before step k.
    method Start(batches: seq<seq<Command>>) returns (ghost taken: seq<State>, steps: nat)
      requires commandQueue == []
      modifies this
      ensures taken == Steps(sim, old(View()), batches)
      ensures steps == |batches| && stepCount == old(stepCount) + steps && commandQueue == []
    {
      taken, steps := [], 0;
      while steps < |batches|
        invariant steps <= |batches| && stepCount == old(stepCount) + steps && commandQueue == []
        invariant Steps(sim, old(View()), batches) == taken + Steps(sim, View(), batches[steps..])
      {
        StepsFrom(sim, View(), batches[steps..]);
        ghost var now := TakeStep(batches[steps]);
        taken := taken + [now];
        steps := steps + 1;
      }
    }

    // One round of the loop; now is the state in which the simulation step is taken.
    method TakeStep(batch: seq<Command>) returns (ghost now: State)
      requires commandQueue == []
      modifies this
      ensures now == Enforced(Drained(sim, old(View()), batch))
      ensures View() == now.(lights := sim.evolved(now.lights))
      ensures stepCount == old(stepCount) + 1 && commandQueue == []
    {
      commandQueue := commandQueue + batch;
      assert commandQueue == batch;
      DrainQueue();
      EnforceHold();
      now := View();
      lights := sim.evolved(lights);
      stepCount := stepCount + 1;
    }
  }

  // ----- The hold is in force at every step -----

  ghost predicate NoDeactivation(queue: seq<Command>, from: nat) {
    forall k :: from <= k < |queue| ==> !queue[k].EmergencyDeactivated?
  }

  ghost predicate ActivatedForGood(queue: seq<Command>, i: nat) {
    i < |queue| && queue[i].EmergencyActivated? && NoDeactivation(queue, i + 1)
  }

  // The last emergency command is an activation: one is followed by no deactivation, or
  // there is no deactivation at all and the mode was on before.
  ghost predicate LastActivated(queue: seq<Command>, before: bool) {
    (exists i :: ActivatedForGood(queue, i)) || (before && NoDeactivation(queue, 0))
  }

  lemma LastActivatedFirst(queue: seq<Command>, before: bool)
    requires queue != []
    ensures LastActivated(queue, before) <==>
              LastActivated(queue[1..], queue[0].EmergencyActivated? || (before && !queue[0].EmergencyDeactivated?))
  {
    var c, rest := queue[0], queue[1..];
    assert forall i :: 0 <= i < |rest| ==> rest[i] == queue[i + 1];
    assert forall i: nat :: ActivatedForGood(rest, i) ==> ActivatedForGood(queue, i + 1);
    assert forall i: nat :: i > 0 && ActivatedForGood(queue, i) ==> ActivatedForGood(rest, i - 1);
    assert NoDeactivation(rest, 0) <==> NoDeactivation(queue, 1);
    assert ActivatedForGood(queue, 0) <==> c.EmergencyActivated? && NoDeactivation(rest, 0);
  }

  // All commands up to and including batch k, in the order they are processed.
  function UpTo(batches: seq<seq<Command>>, k: int): seq<Command>
    requires k < |batches|
  {
    if k < 0 then [] else UpTo(batches, k - 1) + batches[k]
  }

  predicate AllHeld(s: State) {
    forall tl :: tl in s.lights ==> s.lights[tl].phase == 0 && s.lights[tl].duration == 9999.0
  }

  // After draining, the mode tells whether the last emergency command was an activation.
  lemma {:induction false} DrainedMode(sim: Simulator, s: State, queue: seq<Command>)
    ensures Drained(sim, s, queue).emergency <==> LastActivated(queue, s.emergency)
    decreases |queue|
  {
    if queue != [] {
      DrainedMode(sim, Applied(sim, s, queue[0]), queue[1..]);
      LastActivatedFirst(queue, s.emergency);
    }
  }

  lemma {:induction false} LastActivatedAppend(a: seq<Command>, b: seq<Command>, before: bool)
    ensures LastActivated(a + b, before) <==> LastActivated(b, LastActivated(a, before))
  {
    if a == [] {
      assert a + b == b;
    } else {
      assert (a + b)[1..] == a[1..] + b;
      LastActivatedAppend(a[1..], b, a[0].EmergencyActivated? || (before && !a[0].EmergencyDeactivated?));
      LastActivatedFirst(a, before);
      LastActivatedFirst(a + b, before);
    }
  }

  lemma {:induction false} UpToTail(batches: seq<seq<Command>>, k: nat)
    requires k < |batches|
    ensures UpTo(batches, k) == batches[0] + UpTo(batches[1..], k - 1)
  {
    if k == 0 {
      assert UpTo(batches, 0) == [] + batches[0] == batches[0] + [];
    } else {
      UpToTail(batches, k - 1);
      assert batches[1..][k - 1] == batches[k];
    }
  }

  // At step k the mode tells whether the last emergency command so far was an activation,
  // and if it was, every light is at phase 0, whatever came in between.
  lemma {:induction false} HoldInForce(sim: Simulator, s: State, batches: seq<seq<Command>>, k: nat)
    requires k < |batches|
    ensures |Steps(sim, s, batches)| == |batches|
    ensures var now := Steps(sim, s, batches)[k];
            && (now.emergency <==> LastActivated(UpTo(batches, k), s.emergency))
            && (now.emergency ==> AllHeld(now))
    decreases |batches|
  {
    var first := Enforced(Drained(sim, s, batches[0]));
    DrainedMode(sim, s, batches[0]);
    UpToTail(batches, k);
    if k == 0 {
      assert UpTo(batches[1..], -1) == [] && UpTo(batches, 0) == batches[0];
      StepsLength(sim, s, batches);
    } else {
      var next := first.(lights := sim.evolved(first.lights));
      HoldInForce(sim, next, batches[1..], k - 1);
      LastActivatedAppend(batches[0], UpTo(batches[1..], k - 1), s.emergency);
    }
  }

  lemma {:induction false} StepsLength(sim: Simulator, s: State, batches: seq<seq<Command>>)
    ensures |Steps(sim, s, batches)| == |batches|
    decreases |batches|
  {
    if batches != [] {
      var now := Enforced(Drained(sim, s, batches[0]));
      StepsLength(sim, now.(lights := sim.evolved(now.lights)), batches[1..]);
    }
  }

  // ----- Overrides outside emergencies -----

  // Commands that leave the emergency mode alone and force no state string.
  predicate Manual(c: Command) {
    c.OtherCommand? || (c.SignalOverride? && !c.action.FlashAllRed?)
  }

  function Skips(queue: seq<Command>): nat {
    if queue == [] then 0
    else (if queue[0].SignalOverride? && queue[0].action.PhaseSkip? then 1 else 0) + Skips(queue[1..])
  }

  lemma AroundFour(p: int, n: nat)
    ensures (p % 4 + n) % 4 == (p + n) % 4
  {
  }

  // Where n skips lead from a phase; the first one brings it below four.
  function Skipped(phase: int, n: nat): int {
    if n == 0 then phase else (phase + n) % 4
  }

  lemma SkippedTwice(phase: int, n: nat, k: nat)
    ensures Skipped(Skipped(phase, n), k) == Skipped(phase, n + k)
  {
    AroundFour(phase + n, k);
  }

  lemma OneManual(sim: Simulator, s: State, c: Command, tl: string)
    requires tl in s.lights && Manual(c)
    ensures var next := Applied(sim, s, c);
            && next.emergency == s.emergency && next.lights.Keys == s.lights.Keys
            && next.lights[tl].phase == Skipped(s.lights[tl].phase, Skips([c]))
  {
    assert [c][1..] == [];
  }

  // Only skips move the phase, each by one, round in a circle of four.
  lemma {:induction false} SkipsAdvance(sim: Simulator, s: State, queue: seq<Command>, tl: string)
    requires tl in s.lights && forall c :: c in queue ==> Manual(c)
    ensures var now := Drained(sim, s, queue);
            && now.emergency == s.emergency && now.lights.Keys == s.lights.Keys
            && now.lights[tl].phase == Skipped(s.lights[tl].phase, Skips(queue))
    decreases |queue|
  {
    if queue != [] {
      var c, rest := queue[0], queue[1..];
      OneManual(sim, s, c, tl);
      SkipsAdvance(sim, Applied(sim, s, c), rest, tl);
      assert [c][1..] == [];
      assert Skips(queue) == Skips([c]) + Skips(rest);
      SkippedTwice(s.lights[tl].phase, Skips([c]), Skips(rest));
    }
  }

  lemma {:induction false} DrainedAppend(sim: Simulator, s: State, a: seq<Command>, b: seq<Command>)
    ensures Drained(sim, s, a + b) == Drained(sim, Drained(sim, s, a), b)
    ensures Drained(sim, s, a).lights.Keys == s.lights.Keys
    decreases |a|
  {
    if a == [] {
      assert a + b == b;
    } else {
      assert (a + b)[1..] == a[1..] + b;
      DrainedAppend(sim, Applied(sim, s, a[0]), a[1..], b);
    }
  }

  // Whatever came before the last deactivation, after it the lights start from phase 0
  // again, and the next step finds them where the skips since then have put them.
  lemma ClearRestarts(sim: Simulator, s: State, earlier: seq<Command>, later: seq<Command>, tl: string)
    requires tl in s.lights && forall c :: c in later ==> Manual(c)
    ensures var now := Enforced(Drained(sim, s, earlier + ([EmergencyDeactivated] + later)));
            !now.emergency && tl in now.lights && now.lights[tl].phase == Skips(later) % 4
  {
    var before := Drained(sim, s, earlier);
    DrainedAppend(sim, s, earlier, [EmergencyDeactivated] + later);
    assert ([EmergencyDeactivated] + later)[1..] == later;
    SkipsAdvance(sim, Applied(sim, before, EmergencyDeactivated), later, tl);
  }

  // ----- What extensions and reductions add up to -----

  predicate Timing(c: Command) {
    c.OtherCommand? || (c.SignalOverride? && (c.action.ExtendGreen? || c.action.ShortenGreen? || c.action.UnknownOverride?))
  }

  predicate Shortens(c: Command) {
    c.SignalOverride? && c.action.ShortenGreen?
  }

  // The seconds added, less those taken off, as if there were no least duration.
  function Change(c: Command): real {
    if !c.SignalOverride? then 0.0
    else match c.action
      case ExtendGreen => c.value
      case ShortenGreen => -c.value
      case _ => 0.0
  }

  function Net(queue: seq<Command>): real {
    if queue == [] then 0.0 else Change(queue[0]) + Net(queue[1..])
  }

  // The duration that starts at five seconds with the reduction at k.
  ghost predicate RestsOn(d: real, queue: seq<Command>, k: nat) {
    k < |queue| && Shortens(queue[k]) && d == 5.0 + Net(queue[k + 1..])
  }

  // d is the largest of the start with all changes, and of five seconds with the changes
  // after any one reduction.
  ghost predicate LargestRest(d: real, start: real, queue: seq<Command>) {
    && d >= start + Net(queue)
    && (forall k :: 0 <= k < |queue| && Shortens(queue[k]) ==> d >= 5.0 + Net(queue[k + 1..]))
    && (d == start + Net(queue) || exists k :: RestsOn(d, queue, k))
  }

  lemma LargestRestFirst(d: real, start: real, next: real, queue: seq<Command>)
    requires queue != [] && Timing(queue[0]) && LargestRest(d, next, queue[1..])
    requires next == if Shortens(queue[0]) && start + Change(queue[0]) < 5.0 then 5.0 else start + Change(queue[0])
    ensures LargestRest(d, start, queue)
  {
    var rest := queue[1..];
    assert forall k :: 0 <= k < |rest| ==> rest[k] == queue[k + 1] && rest[k + 1..] == queue[k + 2..];
    forall k | 0 <= k < |queue| && Shortens(queue[k]) ensures d >= 5.0 + Net(queue[k + 1..]) {
      if k > 0 {
        assert Shortens(rest[k - 1]) && rest[k..] == queue[k + 1..];
      }
    }
    if d == next + Net(rest) {
      assert d == start + Net(queue) || RestsOn(d, queue, 0);
    } else {
      var k: nat :| RestsOn(d, rest, k);
      assert RestsOn(d, queue, k + 1);
    }
  }

  // Over any run of extensions and reductions, a light's duration is exactly that.
  lemma {:induction false} DurationAddsUp(sim: Simulator, s: State, queue: seq<Command>, tl: string)
    requires tl in s.lights && forall c :: c in queue ==> Timing(c)
    ensures tl in Drained(sim, s, queue).lights
    ensures LargestRest(Drained(sim, s, queue).lights[tl].duration, s.lights[tl].duration, queue)
    decreases |queue|
  {
    if queue != [] {
      var next := Applied(sim, s, queue[0]);
      assert Timing(queue[0]);
      DurationAddsUp(sim, next, queue[1..], tl);
      LargestRestFirst(Drained(sim, s, queue).lights[tl].duration, s.lights[tl].duration, next.lights[tl].duration, queue);
    }
  }

  // Whatever came before the last deactivation, after it the durations add up from ten seconds.
  lemma ClearedDuration(sim: Simulator, s: State, earlier: seq<Command>, later: seq<Command>, tl: string)
    requires tl in s.lights && forall c :: c in later ==> Timing(c)
    ensures var now := Drained(sim, s, earlier + ([EmergencyDeactivated] + later));
            tl in now.lights && LargestRest(now.lights[tl].duration, 10.0, later)
  {
    var before := Drained(sim, s, earlier);
    DrainedAppend(sim, s, earlier, [EmergencyDeactivated] + later);
    assert ([EmergencyDeactivated] + later)[1..] == later;
    DurationAddsUp(sim, Applied(sim, before, EmergencyDeactivated), later, tl);
  }

  // With nothing else to do, a single override changes a light in numbers like this.
  lemma OverrideMeans(sim: Simulator, l: Light, value: real)
    ensures Commanded(sim, l, SignalOverride(PhaseSkip, value)) == Light((l.phase + 1) % 4, l.duration)
    ensures Commanded(sim, l, SignalOverride(ExtendGreen, value)) == Light(l.phase, l.duration + value)
    ensures Commanded(sim, l, SignalOverride(ShortenGreen, value)) ==
              Light(l.phase, if l.duration - value > 5.0 then l.duration - value else 5.0)
    ensures Commanded(sim, l, EmergencyActivated) == Light(0, 9999.0)
    ensures Commanded(sim, l, EmergencyDeactivated) == Light(0, 10.0)
    ensures Commanded(sim, l, SignalOverride(UnknownOverride, value)) == l == Commanded(sim, l, OtherCommand)
  {
  }
}
