/** Products and powers of reals. */
module Powers {

  function Times(x: real, factor: real): real {
    x * factor
  }

  function Power(x: real, k: nat): real {
    if k == 0 then 1.0 else Times(Power(x, k - 1), x)
  }

  lemma TimesTwice(x: real, y: real, z: real)
    ensures Times(Times(x, y), z) == Times(x, Times(y, z)) && Times(x, 1.0) == x
  {
  }

  lemma TimesOrder(c: real, x: real, y: real)
    requires c >= 0.0 && x <= y
    ensures Times(c, x) <= Times(c, y) && Times(x, c) <= Times(y, c)
  {
    assert c * (y - x) >= 0.0;
  }

  lemma TimesStrictOrder(c: real, x: real, y: real)
    requires c > 0.0 && x < y
    ensures Times(x, c) < Times(y, c)
  {
    assert c * (y - x) > 0.0;
  }

  // Powers of a number that is not below one grow.
  lemma {:induction false} PowerGrows(x: real, k: nat, n: nat)
    requires x >= 1.0 && k <= n
    ensures 1.0 <= Power(x, k) <= Power(x, n)
    decreases n
  {
    if n > 0 {
      PowerGrows(x, if k < n then k else k - 1, n - 1);
      ScaleUp(Power(x, n - 1), x);
    }
  }

  lemma ScaleUp(p: real, x: real)
    requires x >= 1.0 && p >= 1.0
    ensures Times(p, x) >= p
  {
    assert p * (x - 1.0) >= 0.0;
  }
}
