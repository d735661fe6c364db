/** Webster's fixed-time plan: a cycle from the critical flow ratios, and green times in
  proportion to them, all rounded to whole seconds.
 */
module Webster {
  import opened Wrappers

  // The flow ratio of every phase, in the order of the dictionary.
  datatype Demand = Demand(phase: string, ratio: real)

  const LOST_TIME: int := 4

  // Python's round: to the nearest integer, ties to the even one.
  function Round(x: real): int {
    var f := x.Floor;
    var frac := x - f as real;
    if frac < 0.5 || (frac == 0.5 && f % 2 == 0) then f else f + 1
  }

  lemma RoundIsNear(x: real)
    ensures x - 0.5 <= Round(x) as real <= x + 0.5
  {
  }

  lemma RoundIsMonotone(x: real, y: real)
    requires x <= y
    ensures Round(x) <= Round(y)
  {
  }

  function Total(ds: seq<Demand>): real {
    if ds == [] then 0.0 else Total(ds[..|ds| - 1]) + ds[|ds| - 1].ratio
  }

  // Saturation is capped before the formula is applied.
  function Capped(total: real): real {
    if total >= 1.0 then 0.95 else total
  }

  function Cycle(total: real): int {
    var c := Round((1.5 * LOST_TIME as real + 5.0) / (1.0 - Capped(total)));
    if c > 150 then 150 else if c < 40 then 40 else c
  }

  function Share(ratio: real, whole: real, green: int): real
    requires whole != 0.0
  {
    ratio / whole * green as real
  }

  function Green(ratio: real, total: real): int
    requires Capped(total) != 0.0
  {
    Round(Share(ratio, Capped(total), Cycle(total) - LOST_TIME))
  }

  // The key of a phase in the result.
  function Key(phase: string): string {
    phase + "_green"
  }

  ghost predicate DistinctPhases(ds: seq<Demand>) {
    forall i, j :: 0 <= i < j < |ds| ==> ds[i].phase != ds[j].phase
  }

  lemma KeysDiffer(a: string, b: string)
    requires a != b
    ensures Key(a) != Key(b)
  {
    assert Key(a)[..|Key(a)| - 6] == a && Key(b)[..|Key(b)| - 6] == b;
  }

  lemma KeyIsNotCycle(a: string)
    ensures Key(a) != "cycle"
  {
  }

  // Dividing by a zero total raises an error, which is None.
  method CalculateWebsterOptimal(ds: seq<Demand>) returns (r: Option<map<string, int>>)
    requires DistinctPhases(ds)
    ensures r.None? <==> ds != [] && Total(ds) == 0.0
    ensures r.Some? ==> "cycle" in r.value && r.value["cycle"] == Cycle(Total(ds))
    ensures r.Some? ==> |r.value| == |ds| + 1
    ensures r.Some? ==> forall i :: 0 <= i < |ds| ==>
              ds[i].phase + "_green" in r.value && r.value[ds[i].phase + "_green"] == Green(ds[i].ratio, Total(ds))
  {
    var total := 0.0;
    for i := 0 to |ds|
      invariant total == Total(ds[..i])
    {
      assert ds[..i + 1][..i] == ds[..i];
      total := total + ds[i].ratio;
    }
    assert ds[..|ds|] == ds;
    var capped, cycle := BoundedCycle(total);
    var splits := Splits(ds, capped, cycle);
    if splits.None? {
      return None;
    }
    forall j | 0 <= j < |ds| ensures Key(ds[j].phase) != "cycle" {
      KeyIsNotCycle(ds[j].phase);
    }
    r := Some(splits.value["cycle" := cycle]);
  }

  // The cap at saturation, and the practical bounds on the cycle.
  method BoundedCycle(total: real) returns (capped: real, cycle: int)
    ensures capped == Capped(total) && cycle == Cycle(total) && 40 <= cycle <= 150
  {
    capped := if total >= 1.0 then 0.95 else total;
    cycle := Round((1.5 * LOST_TIME as real + 5.0) / (1.0 - capped));
    cycle := if cycle > 150 then 150 else cycle;
    cycle := if cycle < 40 then 40 else cycle;
  }

  // The loop that rounds each phase's share of the effective green.
  method Splits(ds: seq<Demand>, capped: real, cycle: int) returns (r: Option<map<string, int>>)
    requires DistinctPhases(ds)
    ensures r.None? <==> ds != [] && capped == 0.0
    ensures r.Some? ==> |r.value| == |ds|
    ensures r.Some? ==> forall k :: k in r.value <==> exists j :: 0 <= j < |ds| && k == Key(ds[j].phase)
    ensures r.Some? ==> forall j :: 0 <= j < |ds| ==>
              r.value[Key(ds[j].phase)] == Round(Share(ds[j].ratio, capped, cycle - LOST_TIME))
  {
    var splits: map<string, int> := map[];
    for i := 0 to |ds|
      invariant |splits| == i && (capped == 0.0 ==> i == 0)
      invariant forall k :: k in splits <==> exists j :: 0 <= j < i && k == Key(ds[j].phase)
      invariant forall j :: 0 <= j < i ==>
                  splits[Key(ds[j].phase)] == Round(Share(ds[j].ratio, capped, cycle - LOST_TIME))
    {
      if capped == 0.0 {
        return None;
      }
      forall j | 0 <= j < i ensures Key(ds[j].phase) != Key(ds[i].phase) {
        KeysDiffer(ds[j].phase, ds[i].phase);
      }
      var green := Round(Share(ds[i].ratio, capped, cycle - LOST_TIME));
      splits := splits[Key(ds[i].phase) := green];
    }
    r := Some(splits);
  }

  // ----- Cycle bounds -----

  lemma Reciprocal(x: real, y: real)
    requires 0.0 < x <= y
    ensures 11.0 / y <= 11.0 / x
  {
  }

  // The cycle stays between 40 and 150 seconds and never shrinks when demand grows.
  lemma CycleIsMonotone(lower: real, higher: real)
    requires lower <= higher
    ensures 40 <= Cycle(lower) <= Cycle(higher) <= 150
  {
    if higher < 1.0 {
      Reciprocal(1.0 - higher, 1.0 - lower);
      RoundIsMonotone(11.0 / (1.0 - lower), 11.0 / (1.0 - higher));
    } else {
      SaturatedCycle(higher);
    }
  }

  lemma SaturatedCycle(total: real)
    requires total >= 1.0
    ensures Cycle(total) == 150
  {
  }

  // ----- Green times -----

  lemma ShareAdds(a: real, b: real, whole: real, green: int)
    requires whole != 0.0
    ensures Share(a, whole, green) + Share(b, whole, green) == Share(a + b, whole, green)
  {
  }

  // A larger demand never gets a shorter green.
  lemma LargerDemandLongerGreen(a: real, b: real, total: real)
    requires a <= b && total > 0.0
    ensures Green(a, total) <= Green(b, total)
  {
    var whole, green := Capped(total), Cycle(total) - LOST_TIME;
    CycleIsMonotone(total, total);
    ShareAdds(a, b - a, whole, green);
    assert (b - a) / whole >= 0.0;
    assert (b - a) / whole * green as real >= 0.0;
    RoundIsMonotone(Share(a, whole, green), Share(b, whole, green));
  }

  function Greens(ds: seq<Demand>, total: real): int
    requires Capped(total) != 0.0
  {
    if ds == [] then 0 else Greens(ds[..|ds| - 1], total) + Green(ds[|ds| - 1].ratio, total)
  }

  // Rounding moves the sum of the greens by at most half a second per phase.
  lemma {:induction false} GreensNearShare(ds: seq<Demand>, total: real)
    requires Capped(total) != 0.0
    ensures var share := Share(Total(ds), Capped(total), Cycle(total) - LOST_TIME);
            share - 0.5 * |ds| as real <= Greens(ds, total) as real <= share + 0.5 * |ds| as real
  {
    var whole, green := Capped(total), Cycle(total) - LOST_TIME;
    if ds == [] {
      assert 0.0 / whole == 0.0;
    } else {
      var before, last := ds[..|ds| - 1], ds[|ds| - 1];
      GreensNearShare(before, total);
      ShareAdds(Total(before), last.ratio, whole, green);
      RoundIsNear(Share(last.ratio, whole, green));
    }
  }

  // Greens and lost time make up the cycle, up to half a second per phase.
  predicate FillsCycle(ds: seq<Demand>)
    requires Capped(Total(ds)) != 0.0
  {
    var gap := (Greens(ds, Total(ds)) + LOST_TIME - Cycle(Total(ds))) as real;
    -0.5 * |ds| as real <= gap <= 0.5 * |ds| as real
  }

  predicate Overruns(ds: seq<Demand>)
    requires Capped(Total(ds)) != 0.0
  {
    Greens(ds, Total(ds)) + LOST_TIME > Cycle(Total(ds))
  }

  // Below saturation they do, for any number of phases.
  lemma SplitsFillCycle(ds: seq<Demand>)
    requires 0.0 < Total(ds) < 1.0
    ensures FillsCycle(ds)
  {
    GreensNearShare(ds, Total(ds));
    assert Total(ds) / Total(ds) == 1.0;
  }

  // At saturation the cap makes the sum of the greens grow in proportion to the demand.
  lemma SaturatedSplits(ds: seq<Demand>)
    requires Total(ds) >= 1.0
    ensures Cycle(Total(ds)) == 150
    ensures var gap := Greens(ds, Total(ds)) as real - 146.0 * Total(ds) / 0.95;
            -0.5 * |ds| as real <= gap <= 0.5 * |ds| as real
  {
    GreensNearShare(ds, Total(ds));
    SaturatedCycle(Total(ds));
    assert Total(ds) / 0.95 * 146.0 == 146.0 * Total(ds) / 0.95;
  }

  // With at most seven phases that is too much for the cycle, so the greens fill it exactly
  // below saturation.
  lemma FillsCycleIff(ds: seq<Demand>)
    requires Total(ds) > 0.0 && |ds| <= 7
    ensures FillsCycle(ds) <==> Total(ds) < 1.0
  {
    if Total(ds) < 1.0 {
      SplitsFillCycle(ds);
    } else {
      SaturatedSplits(ds);
      assert 146.0 * Total(ds) / 0.95 >= 153.6;
    }
  }

  // With at most fifteen phases the greens of a saturated junction overrun the cycle.
  lemma SaturationOverruns(ds: seq<Demand>)
    requires Total(ds) >= 1.0 && |ds| <= 15
    ensures Overruns(ds)
  {
    SaturatedSplits(ds);
    assert 146.0 * Total(ds) / 0.95 >= 153.6;
  }

  // Two phases that need half the time each get 77 seconds each of a cycle of 150.
  lemma TwoHalvesOverrun(a: string, b: string)
    ensures var ds := [Demand(a, 0.5), Demand(b, 0.5)];
            && Total(ds) == 1.0 && Cycle(1.0) == 150 && Greens(ds, 1.0) == 154
            && Overruns(ds) && !FillsCycle(ds)
  {
    var ds := [Demand(a, 0.5), Demand(b, 0.5)];
    assert ds[..1] == [ds[0]] && ds[..1][..0] == [];
    assert Total(ds[..1]) == 0.5;
    assert Greens(ds[..1], 1.0) == Green(0.5, 1.0) == 77;
  }

  // ----- Many phases, whose rounding hides the overrun -----

  // k phases of one ratio, then one of another, then phases without demand.
  function Crowd(n: nat, k: nat, ratio: real, last: real): (ds: seq<Demand>)
    ensures |ds| == n
  {
    seq(n, i requires 0 <= i < n =>
      Demand(seq(i, _ => 'p'), if i < k then ratio else if i == k then last else 0.0))
  }

  lemma CrowdIsDistinct(n: nat, k: nat, ratio: real, last: real)
    ensures DistinctPhases(Crowd(n, k, ratio, last))
  {
    var ds := Crowd(n, k, ratio, last);
    assert forall i :: 0 <= i < n ==> |ds[i].phase| == i;
  }

  lemma OneMorePhase(ds: seq<Demand>, total: real, j: nat)
    requires j < |ds| && Capped(total) != 0.0
    ensures Total(ds[..j + 1]) == Total(ds[..j]) + ds[j].ratio
    ensures Greens(ds[..j + 1], total) == Greens(ds[..j], total) + Green(ds[j].ratio, total)
  {
    assert ds[..j + 1][..j] == ds[..j];
  }

  // x added up k times
  function Repeated(k: nat, x: real): real {
    if k == 0 then 0.0 else Repeated(k - 1, x) + x
  }

  lemma {:induction false} CrowdTotal(ds: seq<Demand>, n: nat, k: nat, ratio: real, last: real, j: nat)
    requires ds == Crowd(n, k, ratio, last) && j <= n
    ensures Total(ds[..j]) == if j <= k then Repeated(j, ratio) else Repeated(k, ratio) + last
  {
    if j > 0 {
      CrowdTotal(ds, n, k, ratio, last, j - 1);
      OneMorePhase(ds, 1.0, j - 1);
    }
  }

  lemma {:induction false} CrowdGreens(ds: seq<Demand>, n: nat, k: nat, ratio: real, last: real, total: real,
                                       a: int, b: int, j: nat)
    requires Capped(total) != 0.0 && ds == Crowd(n, k, ratio, last) && j <= n
    requires Green(ratio, total) == a && Green(last, total) == b && Green(0.0, total) == 0
    ensures Greens(ds[..j], total) == if j <= k then j * a else k * a + b
  {
    if j > 0 {
      var h := j - 1;
      CrowdGreens(ds, n, k, ratio, last, total, a, b, h);
      OneMorePhase(ds, total, h);
      assert j * a == h * a + a;
    }
  }

  // Seven is exact: with eight phases or more, rounding can hide the overrun.
  lemma SevenIsExact(n: nat)
    ensures (forall ds :: |ds| == n && DistinctPhases(ds) && Total(ds) > 0.0 ==> (FillsCycle(ds) <==> Total(ds) < 1.0))
        <==> n <= 7
  {
    if n <= 7 {
      forall ds | |ds| == n && DistinctPhases(ds) && Total(ds) > 0.0 ensures FillsCycle(ds) <==> Total(ds) < 1.0 {
        FillsCycleIff(ds);
      }
    } else {
      var ds := Crowd(n, 7, 0.1202, 0.1586);
      CrowdIsDistinct(n, 7, 0.1202, 0.1586);
      CrowdTotal(ds, n, 7, 0.1202, 0.1586, n);
      CrowdGreens(ds, n, 7, 0.1202, 0.1586, 1.0, 18, 24, n);
      assert ds[..n] == ds;
      assert Repeated(7, 0.1202) == 0.8414;
      assert Total(ds) == 1.0 && Greens(ds, 1.0) == 150;
      assert FillsCycle(ds);
    }
  }

  // Fifteen is exact: with sixteen phases or more, a saturated junction need not overrun.
  lemma FifteenIsExact(n: nat)
    ensures (forall ds :: |ds| == n && DistinctPhases(ds) && Total(ds) >= 1.0 ==> Overruns(ds)) <==> n <= 15
  {
    if n <= 15 {
      forall ds | |ds| == n && DistinctPhases(ds) && Total(ds) >= 1.0 ensures Overruns(ds) {
        SaturationOverruns(ds);
      }
    } else {
      var ds := Crowd(n, 15, 0.0617, 0.0745);
      CrowdIsDistinct(n, 15, 0.0617, 0.0745);
      CrowdTotal(ds, n, 15, 0.0617, 0.0745, n);
      CrowdGreens(ds, n, 15, 0.0617, 0.0745, 1.0, 9, 11, n);
      assert ds[..n] == ds;
      assert Repeated(15, 0.0617) == 0.9255;
      assert Total(ds) == 1.0 && Greens(ds, 1.0) == 146;
      assert !Overruns(ds);
    }
  }

  lemma ComplementRounds(x: real, n: int)
    ensures Round(x) + Round(n as real - x) == n <==> !(n % 2 == 1 && x - x.Floor as real == 0.5)
  {
  }

  // With two phases the splits fill the cycle exactly, unless an odd green time would have
  // to be cut into two halves.
  lemma TwoPhasesExactIff(ds: seq<Demand>)
    requires |ds| == 2 && 0.0 < Total(ds) < 1.0
    ensures var green := Cycle(Total(ds)) - LOST_TIME;
            var first := Share(ds[0].ratio, Total(ds), green);
            (Greens(ds, Total(ds)) + LOST_TIME == Cycle(Total(ds)))
            <==> !(green % 2 == 1 && first - first.Floor as real == 0.5)
  {
    var total := Total(ds);
    var green := Cycle(total) - LOST_TIME;
    var a, b := ds[0].ratio, ds[1].ratio;
    assert ds[..1] == [ds[0]] && ds[..1][..0] == [];
    assert Total(ds[..1]) == 0.0 + a;
    assert total == a + b;
    ShareAdds(a, b, total, green);
    assert total / total == 1.0;
    assert Share(b, total, green) == green as real - Share(a, total, green);
    ComplementRounds(Share(a, total, green), green);
    assert Greens(ds[..1], total) == 0 + Green(a, total);
  }

  // ----- The formulas -----

  // Halves go to the even neighbour.
  lemma TiesGoToEven(x: real)
    requires x - x.Floor as real == 0.5
    ensures Round(x) % 2 == 0
  {
  }

  lemma {:induction false} TotalAdds(a: seq<Demand>, b: seq<Demand>)
    ensures Total(a + b) == Total(a) + Total(b)
    ensures |b| == 1 ==> Total(b) == b[0].ratio
  {
    if b == [] {
      assert a + b == a;
    } else {
      var last := |b| - 1;
      TotalAdds(a, b[..last]);
      assert (a + b)[..|a + b| - 1] == a + b[..last];
      assert last == 0 ==> b[..last] == [];
    }
  }

  // Below saturation the cycle is 11 / (1 - Y) to the nearest second, kept within 40 and 150.
  lemma CycleMeans(total: real)
    requires total < 1.0
    ensures var x := 11.0 / (1.0 - total);
            && (x <= 40.0 ==> Cycle(total) == 40)
            && (x >= 150.0 ==> Cycle(total) == 150)
            && (40.0 <= x <= 150.0 ==> x - 0.5 <= Cycle(total) as real <= x + 0.5)
  {
    var x := 11.0 / (1.0 - total);
    RoundIsNear(x);
    assert Capped(total) == total;
    if x <= 40.0 {
      RoundIsMonotone(x, 40.0);
    }
    if x >= 150.0 {
      RoundIsMonotone(150.0, x);
    }
  }

  // A green time is the phase's share of the effective green, to the nearest second; at
  // saturation the share is taken of 0.95.
  lemma GreenMeans(ratio: real, total: real)
    requires total > 0.0
    ensures total < 1.0 ==>
              var share := ratio / total * (Cycle(total) - 4) as real;
              share - 0.5 <= Green(ratio, total) as real <= share + 0.5
    ensures total >= 1.0 ==>
              var share := ratio / 0.95 * 146.0;
              share - 0.5 <= Green(ratio, total) as real <= share + 0.5
  {
    RoundIsNear(Share(ratio, Capped(total), Cycle(total) - LOST_TIME));
    if total >= 1.0 {
      SaturatedCycle(total);
    }
  }
}
