/** Integer and real powers and the geometric sum used to count groups and to
    describe how lengths and radii shrink from one generation to the next. */
module Arith {

  /** b raised to the n-th power over the naturals (0^0 == 1). */
  function Pow(b: nat, n: nat): nat
  {
    if n == 0 then 1 else b * Pow(b, n - 1)
  }

  /** 1 + b + b^2 + ... + b^(n-1), written as a plain sum of powers. */
  function GeomSum(b: nat, n: nat): nat
  {
    if n == 0 then 0 else GeomSum(b, n - 1) + Pow(b, n - 1)
  }

  /** x raised to the n-th power over the reals. */
  function RPow(x: real, n: nat): (y: real)
    ensures x > 0.0 ==> y > 0.0
  {
    if n == 0 then 1.0 else x * RPow(x, n - 1)
  }

  /** Peeling off the first term of the sum instead of the last one: the
      sum for n + 1 levels is one root plus b copies of the sum for n. */
  lemma {:induction false} GeomSumUnroll(b: nat, n: nat)
    ensures GeomSum(b, n + 1) == 1 + b * GeomSum(b, n)
  {
    if n > 0 {
      GeomSumUnroll(b, n - 1);
      calc {
        GeomSum(b, n + 1);
        GeomSum(b, n) + Pow(b, n);
        1 + b * GeomSum(b, n - 1) + b * Pow(b, n - 1);
        { assert b * GeomSum(b, n - 1) + b * Pow(b, n - 1) == b * (GeomSum(b, n - 1) + Pow(b, n - 1)); }
        1 + b * GeomSum(b, n);
      }
    }
  }

  /** The closed form of the geometric sum: (b - 1) * (1 + ... + b^(n-1)) == b^n - 1. */
  lemma {:induction false} GeomSumClosedForm(b: nat, n: nat)
    ensures (b - 1) * GeomSum(b, n) == Pow(b, n) - 1
  {
    if n > 0 {
      GeomSumClosedForm(b, n - 1);
      var g, p := GeomSum(b, n - 1), Pow(b, n - 1);
      var c: int := b - 1;
      assert c * (g + p) == c * g + c * p;
      assert c * p + p == b * p;
    }
  }

  /** With a single branch per group the sum has one term per level. */
  lemma {:induction false} GeomSumOfOne(n: nat)
    ensures GeomSum(1, n) == n
  {
    if n > 0 {
      GeomSumOfOne(n - 1);
      PowOfOne(n - 1);
    }
  }

  lemma {:induction false} PowOfOne(n: nat)
    ensures Pow(1, n) == 1
  {
    if n > 0 {
      PowOfOne(n - 1);
    }
  }

  /** With no branches only the first term survives. */
  lemma GeomSumOfZero(n: nat)
    requires n >= 1
    ensures GeomSum(0, n) == 1
  {
    if n > 1 {
      assert Pow(0, n - 1) == 0;
      GeomSumOfZero(n - 1);
    }
  }

}
