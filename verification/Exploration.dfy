/** The exploration rate of the learning agent: multiplied by a decay after every training
  step, and never left below a floor.

  The schedule one expects is geometric: the start times a power of the decay, or the floor
  if that is larger.  Nothing is assumed about floor, start and decay.
 */
module Exploration {
  import opened Powers

  function Larger(x: real, y: real): real {
    if x >= y then x else y
  }

  // The rate after k steps with floor m, start e and decay d.
  function Rate(m: real, e: real, d: real, k: nat): real {
    if k == 0 then e else Larger(m, Times(Rate(m, e, d, k - 1), d))
  }

  // The same without a floor.
  function Term(e: real, d: real, k: nat): real {
    Times(e, Power(d, k))
  }

  predicate OnSchedule(m: real, e: real, d: real, k: nat) {
    Rate(m, e, d, k) == Larger(m, Term(e, d, k))
  }

  ghost predicate Geometric(m: real, e: real, d: real) {
    forall k :: k > 0 ==> OnSchedule(m, e, d, k)
  }

  // What a caller can check beforehand: for a decay that is not negative, the floor decays
  // to no more than itself or the first step stays above it; for a negative one, the start
  // is zero, or the decay is at least -1 and the second and third steps without a floor
  // exceed neither the floor nor what one step makes of it.
  predicate ScheduleHolds(m: real, e: real, d: real) {
    if d >= 0.0 then Times(m, d) <= m || Times(e, d) >= m
    else e == 0.0 || (d >= -1.0 && Term(e, d, 2) <= Bound(m, d) && Term(e, d, 3) <= Bound(m, d))
  }

  function Bound(m: real, d: real): real {
    Larger(m, Times(m, d))
  }

  lemma FirstTerm(m: real, e: real, d: real)
    ensures Term(e, d, 1) == Times(e, d) && OnSchedule(m, e, d, 1)
  {
    assert Power(d, 1) == Times(1.0, d) == d;
    assert Rate(m, e, d, 0) == e;
  }

  lemma NextTerm(e: real, d: real, k: nat)
    ensures Term(e, d, k + 1) == Times(Term(e, d, k), d)
  {
    TimesTwice(e, Power(d, k), d);
  }

  // A rate on schedule stays on it if the floor may as well be applied once, at the end.
  predicate CarriesOver(m: real, x: real, d: real) {
    Larger(m, Times(Larger(m, x), d)) == Larger(m, Times(x, d))
  }

  lemma NextOnScheduleIff(m: real, e: real, d: real, k: nat)
    requires OnSchedule(m, e, d, k)
    ensures OnSchedule(m, e, d, k + 1) <==> CarriesOver(m, Term(e, d, k), d)
  {
    NextTerm(e, d, k);
  }

  // ----- Decays that are not negative -----

  lemma CarriesOverForward(m: real, x: real, d: real)
    requires d >= 0.0 && (Times(m, d) <= m || x >= m)
    ensures CarriesOver(m, x, d)
  {
    if x <= m {
      TimesOrder(d, x, m);
    }
  }

  // A rate that stays above a floor that would rise never falls below it.
  lemma {:induction false} StaysAbove(m: real, e: real, d: real, k: nat)
    requires d >= 0.0 && Times(e, d) >= m && Times(m, d) > m && k > 0
    ensures Term(e, d, k) >= m
  {
    if k == 1 {
      FirstTerm(m, e, d);
    } else {
      StaysAbove(m, e, d, k - 1);
      NextTerm(e, d, k - 1);
      TimesOrder(d, m, Term(e, d, k - 1));
    }
  }

  lemma {:induction false} ForwardSchedule(m: real, e: real, d: real, k: nat)
    requires d >= 0.0 && ScheduleHolds(m, e, d) && k > 0
    ensures OnSchedule(m, e, d, k)
  {
    if k == 1 {
      FirstTerm(m, e, d);
    } else {
      ForwardSchedule(m, e, d, k - 1);
      if Times(m, d) > m {
        StaysAbove(m, e, d, k - 1);
      }
      CarriesOverForward(m, Term(e, d, k - 1), d);
      NextOnScheduleIff(m, e, d, k - 1);
    }
  }

  lemma TimesZero(x: real, d: real)
    ensures Times(x, 0.0) == 0.0 == Times(0.0, d)
  {
  }

  // Otherwise the second step is wrong.
  lemma ForwardFailure(m: real, e: real, d: real)
    requires d >= 0.0 && !ScheduleHolds(m, e, d)
    ensures !OnSchedule(m, e, d, 2)
  {
    FirstTerm(m, e, d);
    NextOnScheduleIff(m, e, d, 1);
    TimesZero(m, d);
    TimesZero(e, d);
    if d > 0.0 {
      TimesStrictOrder(d, Times(e, d), m);
    }
  }

  // ----- Negative decays -----

  lemma FallingOrder(d: real, x: real, y: real)
    requires d < 0.0 && x <= y
    ensures Times(x, d) >= Times(y, d) && (x < y ==> Times(x, d) > Times(y, d))
  {
    assert (y - x) * d <= 0.0;
    assert x < y ==> (y - x) * d < 0.0;
    assert (y - x) * d == y * d - x * d;
  }

  lemma CarriesOverBackward(m: real, x: real, d: real)
    requires d < 0.0
    ensures CarriesOver(m, x, d) <==> Times(x, d) <= Bound(m, d)
  {
    if x < m {
      FallingOrder(d, x, m);
    } else {
      FallingOrder(d, m, x);
    }
  }

  ghost predicate TermsBounded(m: real, e: real, d: real) {
    forall k :: k >= 2 ==> Term(e, d, k) <= Bound(m, d)
  }

  lemma {:induction false} BackwardSchedule(m: real, e: real, d: real, k: nat)
    requires d < 0.0 && TermsBounded(m, e, d) && k > 0
    ensures OnSchedule(m, e, d, k)
  {
    if k == 1 {
      FirstTerm(m, e, d);
    } else {
      BackwardSchedule(m, e, d, k - 1);
      NextTerm(e, d, k - 1);
      CarriesOverBackward(m, Term(e, d, k - 1), d);
      NextOnScheduleIff(m, e, d, k - 1);
    }
  }

  lemma BackwardScheduleIff(m: real, e: real, d: real)
    requires d < 0.0
    ensures Geometric(m, e, d) <==> TermsBounded(m, e, d)
  {
    if Geometric(m, e, d) {
      forall k | k >= 2 ensures Term(e, d, k) <= Bound(m, d) {
        assert OnSchedule(m, e, d, k - 1) && OnSchedule(m, e, d, k);
        NextTerm(e, d, k - 1);
        CarriesOverBackward(m, Term(e, d, k - 1), d);
        NextOnScheduleIff(m, e, d, k - 1);
      }
    }
    if TermsBounded(m, e, d) {
      forall k | k > 0 ensures OnSchedule(m, e, d, k) {
        BackwardSchedule(m, e, d, k);
      }
    }
  }

  lemma BoundNonNegative(m: real, d: real)
    requires d < 0.0
    ensures Bound(m, d) >= 0.0
  {
    if m < 0.0 {
      FallingOrder(d, m, 0.0);
      TimesZero(m, d);
    }
  }

  // Two steps multiply by the square of the decay.
  lemma TwoSteps(e: real, d: real, k: nat)
    ensures Term(e, d, k + 2) == Times(Term(e, d, k), Times(d, d))
  {
    NextTerm(e, d, k);
    NextTerm(e, d, k + 1);
    TimesTwice(Term(e, d, k), d, d);
  }

  lemma SmallSquare(d: real)
    requires -1.0 <= d < 0.0
    ensures 0.0 <= Times(d, d) <= 1.0
  {
    FallingOrder(d, d, 0.0);
    FallingOrder(d, -1.0, d);
    TimesZero(d, d);
    TimesTwice(d, 1.0, 1.0);
    assert Times(-1.0, d) == -d;
  }

  lemma LargeSquare(d: real)
    requires d < -1.0
    ensures Times(d, d) > 1.0
  {
    assert (-1.0 - d) * (1.0 - d) > 0.0;
    assert (-1.0 - d) * (1.0 - d) == d * d - 1.0;
  }

  lemma ShrunkBelow(x: real, q: real, bound: real)
    requires 0.0 <= q <= 1.0 && x <= bound && bound >= 0.0
    ensures Times(x, q) <= bound
  {
    TimesOrder(q, x, bound);
    TimesOrder(bound, q, 1.0);
    TimesTwice(bound, q, 1.0);
  }

  lemma {:induction false} SmallDecayBounded(e: real, d: real, bound: real, k: nat)
    requires -1.0 <= d < 0.0 && bound >= 0.0 && k >= 2
    requires Term(e, d, 2) <= bound && Term(e, d, 3) <= bound
    ensures Term(e, d, k) <= bound
  {
    if k >= 4 {
      SmallDecayBounded(e, d, bound, k - 2);
      TwoSteps(e, d, k - 2);
      SmallSquare(d);
      ShrunkBelow(Term(e, d, k - 2), Times(d, d), bound);
    }
  }

  lemma GrowsBy(x: real, y: real, q: real)
    requires 0.0 < x <= y && q > 1.0
    ensures Times(y, q) >= y + Times(x, q - 1.0) && Times(x, q - 1.0) > 0.0
  {
    TimesOrder(q - 1.0, x, y);
    TimesStrictOrder(q - 1.0, 0.0, x);
    TimesZero(x, q - 1.0);
    assert y * q == y + y * (q - 1.0);
  }

  // n steps of g
  function Climb(g: real, n: nat): real {
    if n == 0 then 0.0 else Climb(g, n - 1) + g
  }

  lemma {:induction false} ClimbIs(g: real, n: nat)
    ensures Climb(g, n) == n as real * g
  {
    if n > 0 {
      ClimbIs(g, n - 1);
      assert n as real * g == (n - 1) as real * g + g;
    }
  }

  lemma ClimbsAbove(g: real, bound: real) returns (n: nat)
    requires g > 0.0 && bound >= 0.0
    ensures Climb(g, n) > bound
  {
    var steps := bound / g;
    assert steps * g == bound;
    assert steps >= 0.0;
    n := steps.Floor + 1;
    ClimbIs(g, n);
    TimesStrictOrder(g, steps, n as real);
  }

  lemma {:induction false} GrowsLikeClimb(e: real, d: real, k: nat, g: real, n: nat)
    requires d < -1.0 && Term(e, d, k) > 0.0 && g == Times(Term(e, d, k), Times(d, d) - 1.0)
    ensures Term(e, d, k + 2 * n) >= Term(e, d, k) + Climb(g, n) && Climb(g, n) >= 0.0
  {
    LargeSquare(d);
    GrowsBy(Term(e, d, k), Term(e, d, k), Times(d, d));
    if n > 0 {
      var h := k + 2 * (n - 1);
      GrowsLikeClimb(e, d, k, g, n - 1);
      GrowsBy(Term(e, d, k), Term(e, d, h), Times(d, d));
      TwoSteps(e, d, h);
    }
  }

  // Of two successive terms of a growing swing one is positive, and its successors exceed
  // every bound.
  lemma LargeDecayUnbounded(m: real, e: real, d: real)
    requires d < -1.0 && e != 0.0
    ensures !TermsBounded(m, e, d)
  {
    var k := PositiveTerm(e, d);
    var g := Times(Term(e, d, k), Times(d, d) - 1.0);
    LargeSquare(d);
    GrowsBy(Term(e, d, k), Term(e, d, k), Times(d, d));
    BoundNonNegative(m, d);
    var n := ClimbsAbove(g, Bound(m, d));
    GrowsLikeClimb(e, d, k, g, n);
    assert k + 2 * n >= 2 && Term(e, d, k + 2 * n) > Bound(m, d);
  }

  lemma PositiveTerm(e: real, d: real) returns (k: nat)
    requires d < -1.0 && e != 0.0
    ensures k >= 2 && Term(e, d, k) > 0.0
  {
    TwoSteps(e, d, 0);
    TimesTwice(e, 1.0, 1.0);
    assert Term(e, d, 0) == e;
    LargeSquare(d);
    TimesZero(e, Times(d, d));
    if e > 0.0 {
      TimesStrictOrder(Times(d, d), 0.0, e);
      k := 2;
    } else {
      TimesStrictOrder(Times(d, d), e, 0.0);
      NextTerm(e, d, 2);
      FallingOrder(d, Term(e, d, 2), 0.0);
      TimesZero(e, d);
      k := 3;
    }
  }

  lemma TermsBoundedIff(m: real, e: real, d: real)
    requires d < 0.0
    ensures TermsBounded(m, e, d) <==> ScheduleHolds(m, e, d)
  {
    BoundNonNegative(m, d);
    if e == 0.0 {
      forall k | k >= 2 ensures Term(e, d, k) <= Bound(m, d) {
        TimesZero(e, Power(d, k));
      }
    } else if d < -1.0 {
      LargeDecayUnbounded(m, e, d);
    } else if Term(e, d, 2) <= Bound(m, d) && Term(e, d, 3) <= Bound(m, d) {
      forall k | k >= 2 ensures Term(e, d, k) <= Bound(m, d) {
        SmallDecayBounded(e, d, Bound(m, d), k);
      }
    }
  }

  // ----- Both -----

  // Whatever the floor, the start and the decay, the rate is on schedule after every number
  // of steps if and only if the condition holds.
  lemma GeometricIff(m: real, e: real, d: real)
    ensures Geometric(m, e, d) <==> ScheduleHolds(m, e, d)
  {
    if d < 0.0 {
      BackwardScheduleIff(m, e, d);
      TermsBoundedIff(m, e, d);
    } else if ScheduleHolds(m, e, d) {
      forall k | k > 0 ensures OnSchedule(m, e, d, k) {
        ForwardSchedule(m, e, d, k);
      }
    } else {
      ForwardFailure(m, e, d);
    }
  }

  // Floor 0.01, start 1 and decay -1: the second rate is the floor, not 1.
  lemma SwingingRateFails()
    ensures Rate(0.01, 1.0, -1.0, 2) == 0.01 && Term(1.0, -1.0, 2) == 1.0
    ensures !Geometric(0.01, 1.0, -1.0)
  {
    assert Power(-1.0, 2) == Times(Times(1.0, -1.0), -1.0);
    assert Rate(0.01, 1.0, -1.0, 1) == 0.01;
    assert !OnSchedule(0.01, 1.0, -1.0, 2);
  }

  // Floor 0.5, start 0.4 and decay 1.1: the second rate is 0.55, not the floor.
  lemma RisingFloorFails()
    ensures Rate(0.5, 0.4, 1.1, 2) == 0.55 && Larger(0.5, Term(0.4, 1.1, 2)) == 0.5
    ensures !Geometric(0.5, 0.4, 1.1)
  {
    assert Power(1.1, 2) == Times(Times(1.0, 1.1), 1.1) == 1.21;
    assert Rate(0.5, 0.4, 1.1, 1) == 0.5;
    assert !OnSchedule(0.5, 0.4, 1.1, 2);
  }
}
