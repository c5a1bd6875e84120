/** The products and quotients that the other modules need, each fact on its own. */
module Arithmetic {

  lemma MulMonotone(factor: int, x: int, y: int)
    requires factor >= 0 && x <= y
    ensures factor * x <= factor * y
  {
  }

  lemma EvenOrOdd(k: nat)
    ensures k == 2 * (k / 2) || k == 2 * (k / 2) + 1
  {
  }

  lemma DivisionUnique(n: nat, t: nat, q: nat, r: nat)
    requires t > 0 && n == q * t + r && r < t
    ensures n / t == q && n % t == r
  {
    var d := n / t - q;
    assert n == (n / t) * t + n % t;
    assert d * t == r - n % t;
    if d > 0 {
      MulMonotone(t, 1, d);
    } else if d < 0 {
      MulMonotone(t, d, -1);
    }
  }

  lemma StepDivision(n: nat, t: nat)
    requires t > 0 && n > 0
    ensures var r := (n - 1) % t;
      if r == t - 1 then n / t == (n - 1) / t + 1 && n % t == 0
      else n / t == (n - 1) / t && n % t == r + 1
  {
    var q, r := (n - 1) / t, (n - 1) % t;
    assert n == q * t + (r + 1);
    if r == t - 1 {
      assert n == (q + 1) * t;
      DivisionUnique(n, t, q + 1, 0);
    } else {
      DivisionUnique(n, t, q, r + 1);
    }
  }

  /** How much of a stretch of the given length, starting at lo, lies below x. */
  function Covered(x: int, lo: int, length: nat): nat {
    if x <= lo then 0 else if x - lo < length then x - lo else length
  }

  /** How many of the numbers below n have their residue modulo t in the stretch: a full
      length for every whole round, and what the last round covers. */
  function Hits(n: nat, t: nat, lo: int, length: nat): int
    requires t > 0
  {
    (n / t) * length + Covered(n % t, lo, length)
  }

  /** One more number adds one exactly when its residue lies in the stretch. */
  lemma OneMoreHit(n: nat, t: nat, lo: nat, length: nat)
    requires t > 0 && n > 0 && lo + length <= t
    ensures Hits(n, t, lo, length) == Hits(n - 1, t, lo, length) + (if lo <= (n - 1) % t < lo + length then 1 else 0)
  {
    StepDivision(n, t);
    assert ((n - 1) / t + 1) * length == ((n - 1) / t) * length + length;
  }

  // ----- reals

  lemma Scale(p: real, weight: real)
    requires 0.0 <= p && 1.0 <= weight <= 4.0
    ensures 0.0 <= p * weight <= 4.0 * p
  {
    assert p * (4.0 - weight) >= 0.0;
    assert p * (4.0 - weight) == 4.0 * p - p * weight;
  }

  lemma MulOverSum(k: real, x: real, y: real)
    ensures k * (x + y) == k * x + k * y
  {
  }

  lemma MulPositive(p: real, q: real)
    requires p > 0.0 && q > 0.0
    ensures p * q > 0.0
  {
  }

  lemma FloorOrOne(part: real, n: int)
    requires part > 0.0 && n == if part.Floor <= 0 then 1 else part.Floor
    ensures if part < 1.0 then n == 1 else n as real <= part < n as real + 1.0
  {
  }

  /** Scaling by at least one does not shrink. */
  lemma ScaleUp(p: real, weight: real)
    requires p >= 0.0 && weight >= 1.0
    ensures p * weight >= p
  {
  }

  lemma GainNotNegative(elapsed: real, rate: real, weight: real)
    requires elapsed >= 0.0 && rate >= 0.0 && weight >= 1.0
    ensures elapsed * rate * weight >= 0.0
  {
    var p := elapsed * rate;
    assert p >= 0.0;
    ScaleUp(p, weight);
  }

  /** The time of one token is enough for one. */
  lemma WholeToken(elapsed: real, rate: real, weight: real)
    requires rate > 0.0 && elapsed >= 1.0 / rate && weight >= 1.0
    ensures elapsed * rate * weight >= 1.0
  {
    var p, unit := elapsed * rate, 1.0 / rate;
    assert unit * rate == 1.0;
    assert (elapsed - unit) * rate >= 0.0;
    assert (elapsed - unit) * rate == p - unit * rate;
    ScaleUp(p, weight);
  }

  lemma GainAtMost(elapsed: real, rate: real, weight: real)
    requires 0.0 <= elapsed && 0.0 <= rate && 1.0 <= weight <= 4.0
    ensures 0.0 <= elapsed * rate * weight <= 4.0 * rate * elapsed
  {
    var p := elapsed * rate;
    assert p >= 0.0;
    Scale(p, weight);
    assert p * 4.0 == 4.0 * rate * elapsed;
  }
}
