/** Facts about real arithmetic and set sizes that several modules need, one small step each. */
module Arith {

  function Max(a: real, b: real): real {
    if a >= b then a else b
  }

  function Min(a: real, b: real): real {
    if a <= b then a else b
  }

  function Abs(a: real): real {
    if a >= 0.0 then a else -a
  }

  /** The tolerance of `specs._slack`: a billionth of the limit, at least a billionth. */
  function Slack(limit: real): real {
    Max(0.000000001, Abs(limit) * 0.000000001)
  }

  lemma QuotientNotNegative(a: real, b: real)
    requires a >= 0.0 && b > 0.0
    ensures a / b >= 0.0
  {
  }

  lemma QuotientMonotone(a: real, b: real, d: real)
    requires a <= b && d > 0.0
    ensures a / d <= b / d
  {
  }

  lemma ProductMonotone(a: real, b: real, w: real)
    requires a <= b && w >= 0.0
    ensures a * w <= b * w
  {
  }

  lemma StrictlyScaled(a: real, b: real, n: real)
    requires a < b && n > 0.0
    ensures a * n < b * n
  {
  }

  lemma Cancel(q: real, r: real, b: real)
    requires b > 0.0 && q * b < r * b
    ensures q < r
  {
  }

  lemma LargerDivisor(a: real, b: real, d: real)
    requires a >= 0.0 && b >= d > 0.0
    ensures 0.0 <= a / b <= a / d
  {
    var q := a / b;
    QuotientNotNegative(a, b);
    assert q * b == a;
    ProductMonotone(d, b, q);
    assert q * d <= a;
    QuotientMonotone(q * d, a, d);
    assert q * d / d == q;
  }

  lemma ShareInUnit(a: nat, b: nat)
    requires a <= b && b > 0
    ensures 0.0 <= a as real / b as real <= 1.0
  {
  }

  lemma WholeShare(a: nat, b: nat)
    requires b > 0
    ensures a as real / b as real == 1.0 <==> a == b
  {
  }

  lemma SubsetSmaller<T>(a: set<T>, b: set<T>)
    requires a <= b
    ensures |a| <= |b|
  {
    if a != b {
      assert b == a + (b - a);
    }
  }
}
