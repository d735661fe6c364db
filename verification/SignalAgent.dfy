/** The reinforcement-learning agent of one junction: masked action selection, the
  schedule of its training counters, and the episode loop that drives it.

  Networks, their outputs and all random draws are arguments; nothing is known about them.
 */
module SignalAgent {
  import opened Wrappers
  import opened Powers
  import opened Exploration

  const EXTEND := 0
  const SWITCH := 1

  const MIN_GREEN: nat := 10
  const MAX_GREEN: nat := 60

  // ----- Action masking -----

  function ValidActions(phaseElapsed: nat): seq<int> {
    if phaseElapsed < MIN_GREEN then [EXTEND]
    else if phaseElapsed >= MAX_GREEN then [SWITCH]
    else [EXTEND, SWITCH]
  }

  datatype Masked = NegInf | Value(q: real)

  predicate AtMost(a: Masked, b: Masked) {
    a.NegInf? || (b.Value? && a.q <= b.q)
  }

  // numpy.argmax: the first index of a largest entry.
  method ArgMax(values: seq<Masked>) returns (best: nat)
    requires values != []
    ensures best < |values|
    ensures forall i :: 0 <= i < |values| ==> AtMost(values[i], values[best])
    ensures forall i :: 0 <= i < best ==> !AtMost(values[best], values[i])
  {
    best := 0;
    for i := 1 to |values|
      invariant best < i
      invariant forall k :: 0 <= k < i ==> AtMost(values[k], values[best])
      invariant forall k :: 0 <= k < best ==> !AtMost(values[best], values[k])
    {
      if !AtMost(values[i], values[best]) {
        best := i;
      }
    }
  }

  // One random draw decides between exploring and exploiting, another picks among the
  // candidates when exploring.
  datatype Draw = Draw(uniform: real, pick: nat)

  // The candidates of a draw: the valid actions if any are given, else all.
  predicate Candidate(a: int, valid: Option<seq<int>>, actionDim: nat) {
    0 <= a < actionDim && (valid.Some? && valid.value != [] ==> a in valid.value)
  }

  method SelectAction(qValues: seq<real>, valid: Option<seq<int>>, epsilon: real, draw: Draw) returns (action: int)
    requires qValues != []
    requires valid.Some? ==> forall a :: a in valid.value ==> 0 <= a < |qValues|
    ensures Candidate(action, valid, |qValues|)
    ensures draw.uniform < epsilon ==>
              action == if valid.Some? && valid.value != [] then valid.value[draw.pick % |valid.value|]
                        else draw.pick % |qValues|
    ensures draw.uniform >= epsilon ==>
              && (forall a :: Candidate(a, valid, |qValues|) ==> qValues[a] <= qValues[action])
              && (forall a :: Candidate(a, valid, |qValues|) && a < action ==> qValues[a] < qValues[action])
  {
    var masked := valid.Some? && valid.value != [];
    if draw.uniform < epsilon {
      if masked {
        action := valid.value[draw.pick % |valid.value|];
        assert action in valid.value;
        return;
      }
      return draw.pick % |qValues|;
    }
    var values := seq(|qValues|, i requires 0 <= i < |qValues| => Value(qValues[i]));
    if masked {
      values := MaskedValues(qValues, valid.value);
      assert valid.value[0] in valid.value;
      assert values[valid.value[0]].Value?;
    }
    action := ArgMax(values);
    assert forall a :: Candidate(a, valid, |qValues|) ==> values[a] == Value(qValues[a]);
  }

  // Minus infinity everywhere but at the valid actions.
  method MaskedValues(qValues: seq<real>, valid: seq<int>) returns (values: seq<Masked>)
    requires forall a :: a in valid ==> 0 <= a < |qValues|
    ensures |values| == |qValues|
    ensures forall a :: 0 <= a < |qValues| ==> values[a] == if a in valid then Value(qValues[a]) else NegInf
  {
    values := seq(|qValues|, _ => NegInf);
    for i := 0 to |valid|
      invariant |values| == |qValues|
      invariant forall a :: 0 <= a < |qValues| ==> values[a] == if a in valid[..i] then Value(qValues[a]) else NegInf
    {
      assert valid[i] in valid;
      assert valid[..i + 1] == valid[..i] + [valid[i]];
      values := values[valid[i] := Value(qValues[valid[i]])];
    }
    assert valid[..|valid|] == valid;
  }

  // Extending is 0 and switching 1: before 10 seconds only the former is valid, from 60 on
  // only the latter, and both in between, in this order.
  lemma ValidActionsMean(phaseElapsed: nat)
    ensures phaseElapsed < 10 ==> ValidActions(phaseElapsed) == [0]
    ensures 10 <= phaseElapsed < 60 ==> ValidActions(phaseElapsed) == [0, 1]
    ensures phaseElapsed >= 60 ==> ValidActions(phaseElapsed) == [1]
  {
  }

  // ----- Green times over a run -----

  // Seconds since the last switch, before the next step.
  function Elapsed(actions: seq<int>): nat {
    if actions == [] || actions[|actions| - 1] == SWITCH then 0 else Elapsed(actions[..|actions| - 1]) + 1
  }

  // Every action was valid when it was taken.
  predicate RespectsMask(actions: seq<int>) {
    actions != [] ==>
      var before := actions[..|actions| - 1];
      RespectsMask(before) && actions[|actions| - 1] in ValidActions(Elapsed(before) + 1)
  }

  lemma {:induction false} ElapsedBounded(actions: seq<int>)
    requires RespectsMask(actions)
    ensures Elapsed(actions) < 60
  {
  }

  lemma {:induction false} PrefixRespects(actions: seq<int>, k: nat)
    requires RespectsMask(actions) && k < |actions|
    ensures RespectsMask(actions[..k]) && actions[k] in ValidActions(Elapsed(actions[..k]) + 1)
    decreases |actions|
  {
    var before := actions[..|actions| - 1];
    if k < |actions| - 1 {
      PrefixRespects(before, k);
      assert before[..k] == actions[..k];
    }
  }

  // Nothing was switched after index i and before index k.
  predicate NoSwitch(actions: seq<int>, i: int, k: nat)
    requires -1 <= i && k <= |actions|
  {
    forall m :: i < m < k ==> actions[m] != SWITCH
  }

  lemma {:induction false} ElapsedSince(actions: seq<int>, i: int, k: nat)
    requires -1 <= i < k <= |actions| && (i >= 0 ==> actions[i] == SWITCH) && NoSwitch(actions, i, k)
    ensures Elapsed(actions[..k]) == k - 1 - i
    decreases k
  {
    if k > i + 1 {
      ElapsedSince(actions, i, k - 1);
      assert actions[..k][..k - 1] == actions[..k - 1];
    } else if k > 0 {
      assert actions[..k][k - 1] == actions[i];
    }
  }

  // Whatever the policy does, consecutive switches are 10 to 60 steps apart, and so is the
  // first one from the start (i == -1); and no 60 steps go by without a switch.
  lemma SwitchesApart(actions: seq<int>, i: int, j: nat)
    requires RespectsMask(actions) && -1 <= i < j < |actions|
    requires (i >= 0 ==> actions[i] == SWITCH) && NoSwitch(actions, i, j)
    ensures j - i <= 60
    ensures actions[j] == SWITCH ==> 10 <= j - i
    ensures actions[j] != SWITCH ==> j - i < 60
  {
    PrefixRespects(actions, j);
    ElapsedSince(actions, i, j);
    ElapsedBounded(actions[..j]);
  }

  // The per-second loop of an episode, for any number of steps and any policy.
  method Episode(steps: nat, qValues: nat -> seq<real>, epsilons: nat -> real, draws: nat -> Draw)
    returns (actions: seq<int>)
    requires forall k: nat :: |qValues(k)| == 2
    ensures |actions| == steps && RespectsMask(actions)
    ensures forall k :: 0 <= k < steps ==> ChosenAt(actions, k, qValues(k), epsilons(k), draws(k))
  {
    actions := [];
    var phaseElapsed := 0;
    for step := 0 to steps
      invariant |actions| == step && RespectsMask(actions) && phaseElapsed == Elapsed(actions)
      invariant forall k :: 0 <= k < step ==> ChosenAt(actions, k, qValues(k), epsilons(k), draws(k))
    {
      phaseElapsed := phaseElapsed + 1;
      var action := ChooseAction(phaseElapsed, qValues(step), epsilons(step), draws(step));
      forall k | 0 <= k < step ensures ChosenAt(actions + [action], k, qValues(k), epsilons(k), draws(k)) {
        StillChosen(actions, action, k, qValues(k), epsilons(k), draws(k));
      }
      NewlyChosen(actions, action, qValues(step), epsilons(step), draws(step));
      assert (actions + [action])[..step] == actions;
      if action == SWITCH {
        phaseElapsed := 0;
      }
      actions := actions + [action];
    }
  }

  method ChooseAction(seconds: nat, q: seq<real>, epsilon: real, draw: Draw) returns (action: int)
    requires |q| == 2
    ensures action in ValidActions(seconds) && ChosenAs(seconds, action, q, epsilon, draw)
  {
    var valid := ValidActions(seconds);
    action := SelectAction(q, Some(valid), epsilon, draw);
    SelectedIsChosen(seconds, valid, action, q, epsilon, draw);
  }

  // Action k is that choice for the seconds since the last switch before it.
  ghost predicate ChosenAt(actions: seq<int>, k: nat, q: seq<real>, epsilon: real, draw: Draw)
    requires k < |actions| && |q| == 2
  {
    ChosenAs(Elapsed(actions[..k]) + 1, actions[k], q, epsilon, draw)
  }

  lemma StillChosen(actions: seq<int>, action: int, k: nat, q: seq<real>, epsilon: real, draw: Draw)
    requires k < |actions| && |q| == 2 && ChosenAt(actions, k, q, epsilon, draw)
    ensures ChosenAt(actions + [action], k, q, epsilon, draw)
  {
    assert (actions + [action])[..k] == actions[..k];
  }

  lemma NewlyChosen(actions: seq<int>, action: int, q: seq<real>, epsilon: real, draw: Draw)
    requires |q| == 2 && ChosenAs(Elapsed(actions) + 1, action, q, epsilon, draw)
    ensures ChosenAt(actions + [action], |actions|, q, epsilon, draw)
  {
    assert (actions + [action])[..|actions|] == actions;
  }

  // Between 10 and 60 seconds the agent switches when the draw says so or switching is worth
  // more; before it never does, and from 60 on always.
  ghost predicate ChosenAs(seconds: nat, action: int, q: seq<real>, epsilon: real, draw: Draw)
    requires |q| == 2
  {
    action == if seconds < 10 then 0 else if seconds >= 60 then 1
              else if draw.uniform < epsilon then draw.pick % 2
              else if q[1] > q[0] then 1 else 0
  }

  // In numbers, for the last switch i before action k, or -1 if there was none.
  lemma ChosenMeans(actions: seq<int>, i: int, k: nat, q: seq<real>, epsilon: real, draw: Draw)
    requires -1 <= i < k < |actions| && (i >= 0 ==> actions[i] == 1) && forall m :: i < m < k ==> actions[m] != 1
    requires |q| == 2 && ChosenAt(actions, k, q, epsilon, draw)
    ensures k - i < 10 ==> actions[k] == 0
    ensures k - i >= 60 ==> actions[k] == 1
    ensures 10 <= k - i < 60 && draw.uniform < epsilon ==> actions[k] == draw.pick % 2
    ensures 10 <= k - i < 60 && draw.uniform >= epsilon ==> actions[k] == if q[1] > q[0] then 1 else 0
  {
    ElapsedSince(actions, i, k);
  }

  // What the selection promises is that choice.
  lemma SelectedIsChosen(seconds: nat, valid: seq<int>, action: int, q: seq<real>, epsilon: real, draw: Draw)
    requires |q| == 2 && valid == ValidActions(seconds) && action in valid
    requires draw.uniform < epsilon ==> action == valid[draw.pick % |valid|]
    requires draw.uniform >= epsilon ==>
               && (forall a :: Candidate(a, Some(valid), 2) ==> q[a] <= q[action])
               && (forall a :: Candidate(a, Some(valid), 2) && a < action ==> q[a] < q[action])
    ensures ChosenAs(seconds, action, q, epsilon, draw)
  {
    ValidActionsMean(seconds);
    if draw.uniform >= epsilon && 10 <= seconds < 60 {
      assert 0 in [0, 1] && 1 in [0, 1];
      assert Candidate(0, Some(valid), 2) && Candidate(1, Some(valid), 2);
    } else if draw.uniform < epsilon && 10 <= seconds < 60 {
      assert |valid| == 2;
    }
  }

  // ----- The training schedule -----

  type Net = seq<real>

  datatype Config = Config(epsilonMin: real, epsilonDecay: real, batchSize: nat, targetUpdateFreq: nat)

  datatype Training = Training(policy: Net, target: Net, stepCounter: nat, epsilon: real)

  // A step that found enough transitions in memory; the optimizer gives the new policy.
  function Trained(c: Config, t: Training, policy: Net): Training
    requires c.targetUpdateFreq > 0
  {
    Training(policy,
             if (t.stepCounter + 1) % c.targetUpdateFreq == 0 then policy else t.target,
             t.stepCounter + 1,
             Larger(c.epsilonMin, Times(t.epsilon, c.epsilonDecay)))
  }

  class MARLAgent {
    const config: Config
    var policyNet: Net
    var targetNet: Net
    var stepCounter: nat
    var epsilon: real
    var losses: seq<real>
    var epsilonHistory: seq<real>

    constructor (config: Config, policy: Net, epsilon: real)
      ensures this.config == config && View() == Training(policy, policy, 0, epsilon)
      ensures losses == [] && epsilonHistory == []
    {
      this.config := config;
      policyNet, targetNet := policy, policy;
      stepCounter := 0;
      this.epsilon := epsilon;
      losses, epsilonHistory := [], [];
    }

    ghost function View(): Training
      reads this
    {
      Training(policyNet, targetNet, stepCounter, epsilon)
    }

    method TrainStep(memorySize: nat, policy: Net, loss: real) returns (r: Option<real>)
      requires config.targetUpdateFreq > 0
      modifies this
      ensures memorySize < config.batchSize ==>
                r == None && View() == old(View()) && losses == old(losses) && epsilonHistory == old(epsilonHistory)
      ensures memorySize >= config.batchSize ==>
                && r == Some(loss) && View() == Trained(config, old(View()), policy)
                && losses == old(losses) + [loss] && epsilonHistory == old(epsilonHistory) + [epsilon]
    {
      if memorySize < config.batchSize {
        return None;
      }
      policyNet := policy;
      losses := losses + [loss];
      stepCounter := stepCounter + 1;
      if stepCounter % config.targetUpdateFreq == 0 {
        targetNet := policyNet;
      }
      epsilon := Larger(config.epsilonMin, Times(epsilon, config.epsilonDecay));
      epsilonHistory := epsilonHistory + [epsilon];
      r := Some(loss);
    }
  }

  // The state after training steps that produced these policies.
  function AfterTraining(c: Config, t: Training, policies: seq<Net>): Training
    requires c.targetUpdateFreq > 0
  {
    if policies == [] then t
    else Trained(c, AfterTraining(c, t, policies[..|policies| - 1]), policies[|policies| - 1])
  }

  lemma {:induction false} EpsilonIsRate(c: Config, t: Training, policies: seq<Net>)
    requires c.targetUpdateFreq > 0
    ensures AfterTraining(c, t, policies).epsilon == Rate(c.epsilonMin, t.epsilon, c.epsilonDecay, |policies|)
  {
    if policies != [] {
      EpsilonIsRate(c, t, policies[..|policies| - 1]);
    }
  }

  // After every run of training steps the exploration rate is the floor or the decayed
  // start, whichever is larger.
  ghost predicate DecaysGeometrically(c: Config, t: Training)
    requires c.targetUpdateFreq > 0
  {
    forall policies :: policies != [] ==>
      AfterTraining(c, t, policies).epsilon == Larger(c.epsilonMin, Times(t.epsilon, Power(c.epsilonDecay, |policies|)))
  }

  // Whatever the floor, the decay and the start, it is so exactly under the condition.
  lemma EpsilonScheduleIff(c: Config, t: Training)
    requires c.targetUpdateFreq > 0
    ensures DecaysGeometrically(c, t) <==> ScheduleHolds(c.epsilonMin, t.epsilon, c.epsilonDecay)
  {
    var m, e, d := c.epsilonMin, t.epsilon, c.epsilonDecay;
    GeometricIff(m, e, d);
    if Geometric(m, e, d) {
      forall policies | policies != []
        ensures AfterTraining(c, t, policies).epsilon == Larger(m, Times(e, Power(d, |policies|)))
      {
        EpsilonIsRate(c, t, policies);
        assert OnSchedule(m, e, d, |policies|);
      }
    }
    if DecaysGeometrically(c, t) {
      forall k | k > 0 ensures OnSchedule(m, e, d, k) {
        EpsilonIsRate(c, t, seq(k, _ => t.policy));
      }
    }
  }

  // The target network is the policy as of the last multiple of the update frequency.
  lemma {:induction false} TargetSchedule(c: Config, policy: Net, epsilon: real, policies: seq<Net>)
    requires c.targetUpdateFreq > 0
    ensures var t := AfterTraining(c, Training(policy, policy, 0, epsilon), policies);
            var last := |policies| - |policies| % c.targetUpdateFreq;
            && t.stepCounter == |policies|
            && t.target == if last == 0 then policy else policies[last - 1]
  {
    if policies != [] {
      var before := policies[..|policies| - 1];
      TargetSchedule(c, policy, epsilon, before);
      NextMultiple(|before|, c.targetUpdateFreq);
    }
  }

  // The policy network is the one the last step produced.
  lemma PolicyIsLatest(c: Config, t: Training, policies: seq<Net>)
    requires c.targetUpdateFreq > 0 && policies != []
    ensures AfterTraining(c, t, policies).policy == policies[|policies| - 1]
  {
  }

  lemma NextMultiple(n: nat, f: nat)
    requires f > 0
    ensures (n + 1) % f == if n % f + 1 == f then 0 else n % f + 1
  {
    if n % f + 1 == f {
      assert (n / f + 1) * f == (n / f) * f + f;
      UniqueRemainder((n + 1) / f, (n + 1) % f, n / f + 1, 0, f);
    } else {
      UniqueRemainder((n + 1) / f, (n + 1) % f, n / f, n % f + 1, f);
    }
  }

  lemma UniqueRemainder(q1: int, r1: nat, q2: int, r2: nat, f: nat)
    requires r1 < f && r2 < f && q1 * f + r1 == q2 * f + r2
    ensures r1 == r2
  {
    assert (q1 - q2) * f == r2 - r1;
    MultipleBeyond(q1 - q2, f);
  }

  lemma MultipleBeyond(d: int, f: nat)
    ensures d >= 1 ==> d * f >= f
    ensures d <= -1 ==> d * f + f <= 0
  {
  }
}
