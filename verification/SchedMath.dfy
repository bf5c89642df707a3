/** The scheduler's arithmetic: the exponential burst average and the goodness. */
module SchedMath {

  const U32 := 0x1_0000_0000
  const U64 := 0x1_0000_0000_0000_0000

  // ---------- exponential burst average ----------

  /** calculate_expBurst, as the source computes it in floating point: (b + 0.5 e) / (1 + 0.5), truncated. */
  function ExpBurst(b: int, e: int): int
    requires b >= 0 && e >= 0
  {
    ((b as real + 0.5 * (e as real)) / (1.0 + 0.5)).Floor
  }

  /** The same in integers, and always between the old estimate and the new burst. */
  lemma ExpBurstIs(b: int, e: int)
    requires b >= 0 && e >= 0
    ensures ExpBurst(b, e) == (2 * b + e) / 3
    ensures (if b <= e then b else e) <= ExpBurst(b, e) <= (if b <= e then e else b)
  {
    var n := 2 * b + e;
    var x := (b as real + 0.5 * (e as real)) / (1.0 + 0.5);
    assert 3.0 * x == n as real;
    var q, r := n / 3, n % 3;
    assert n as real == 3.0 * (q as real) + r as real;
  }

  /** The estimate after a series of bursts, newest last, starting from 0. */
  function Estimate(bursts: seq<int>): (e: int)
    requires Bursts(bursts)
    ensures 0 <= e < U32
  {
    if bursts == [] then 0
    else
      var e := Estimate(bursts[..|bursts| - 1]);
      ExpBurstIs(bursts[|bursts| - 1], e);
      ExpBurst(bursts[|bursts| - 1], e)
  }

  /** The time all bursts took together. */
  function Total(bursts: seq<int>): int
  {
    if bursts == [] then 0 else Total(bursts[..|bursts| - 1]) + bursts[|bursts| - 1]
  }

  lemma TotalStep(bursts: seq<int>, b: int)
    ensures Total(bursts + [b]) == Total(bursts) + b
  {
    assert (bursts + [b])[..|bursts|] == bursts;
  }

  predicate Bursts(bursts: seq<int>)
  {
    forall i :: 0 <= i < |bursts| ==> 0 <= bursts[i] < U32
  }

  /** The estimate never exceeds the longest burst. */
  lemma {:induction false} EstimateBounded(bursts: seq<int>, m: int)
    requires Bursts(bursts) && m >= 0 && forall i :: 0 <= i < |bursts| ==> bursts[i] <= m
    ensures Estimate(bursts) <= m
  {
    if bursts != [] {
      var init := bursts[..|bursts| - 1];
      EstimateBounded(init, m);
      ExpBurstIs(bursts[|bursts| - 1], Estimate(init));
    }
  }

  /** The weight of history: bursts that agree from some point on pull two estimates together, by a factor
      of three per burst up to rounding. */
  lemma EstimateForgets(b: int, e1: int, e2: int)
    requires b >= 0 && 0 <= e1 <= e2
    ensures 0 <= ExpBurst(b, e2) - ExpBurst(b, e1) <= (e2 - e1 + 2) / 3
  {
    ExpBurstIs(b, e1);
    ExpBurstIs(b, e2);
  }

  // ---------- goodness ----------

  /** The goodness of one task, in the widths the source computes it in: `1 + exp_burst` is an unsigned
      int, everything else an unsigned long long. */
  ghost function Goodness(exp: int, wait: int, minExp: int, maxWait: int): int
    requires 0 <= exp < U32 && 0 <= minExp < U32 && 0 <= wait && 0 <= maxWait
  {
    ((1 + exp) % U32 / (1 + minExp)) * ((1 + maxWait) / (1 + wait)) % U64
  }

  lemma MulAtLeast(x: int, y: int)
    requires x >= 1 && y >= 1
    ensures x * y >= x && x * y >= y
  {
  }

  lemma QuotientAtLeastOne(a: int, b: int)
    requires 1 <= b <= a
    ensures a / b >= 1
  {
  }

  /** Below the overflow bounds goodness is the product of the two quotients, and at least 1. */
  lemma GoodnessExact(exp: int, wait: int, minExp: int, maxWait: int)
    requires 0 <= minExp <= exp < U32 - 1 && 0 <= wait <= maxWait
    requires (1 + exp) * (1 + maxWait) < U64
    ensures Goodness(exp, wait, minExp, maxWait) == ((1 + exp) / (1 + minExp)) * ((1 + maxWait) / (1 + wait))
    ensures Goodness(exp, wait, minExp, maxWait) >= 1
    ensures Goodness(exp, wait, minExp, maxWait) >= (1 + maxWait) / (1 + wait)
  {
    QuotientAtLeastOne(1 + exp, 1 + minExp);
    QuotientAtLeastOne(1 + maxWait, 1 + wait);
    QuotientAtMost(1 + exp, 1 + minExp);
    QuotientAtMost(1 + maxWait, 1 + wait);
    var x, y := (1 + exp) / (1 + minExp), (1 + maxWait) / (1 + wait);
    ProductFits(x, y, 1 + exp, 1 + maxWait);
    SmallMod(1 + exp, U32);
  }

  lemma ProductFits(x: int, y: int, a: int, b: int)
    requires 1 <= x <= a && 1 <= y <= b && a * b < U64
    ensures x * y % U64 == x * y && x * y >= 1 && x * y >= y
  {
    MulAtLeast(x, y);
    ProductAtMost(x, y, a, b);
    SmallMod(x * y, U64);
  }

  lemma SmallMod(x: int, m: int)
    requires 0 <= x < m
    ensures x % m == x
  {
  }

  lemma QuotientAtMost(a: int, b: int)
    requires a >= 0 && b >= 1
    ensures 0 <= a / b <= a
  {
    ProductMono(1, b, a / b);
  }

  lemma ProductAtMost(x: int, y: int, a: int, b: int)
    requires 0 <= x <= a && 0 <= y <= b
    ensures 0 <= x * y <= a * b
  {
    assert x * y <= a * y <= a * b;
  }

  /** Bounded overtaking: if `q` is chosen although `p` has waited longest, and p's goodness is at most g,
      then p's wait is below (g + 1) times q's. */
  lemma OvertakingBound(expP: int, expQ: int, waitQ: int, minExp: int, maxWait: int, g: int)
    requires 0 <= minExp <= expP < U32 - 1 && 0 <= minExp <= expQ < U32 - 1 && 0 <= waitQ <= maxWait
    requires (1 + expP) * (1 + maxWait) < U64 && (1 + expQ) * (1 + maxWait) < U64
    requires Goodness(expP, maxWait, minExp, maxWait) == g
    requires Goodness(expQ, waitQ, minExp, maxWait) <= g
    ensures 1 + maxWait < (g + 1) * (1 + waitQ)
    ensures g == (1 + expP) / (1 + minExp)
  {
    GoodnessExact(expP, maxWait, minExp, maxWait);
    GoodnessExact(expQ, waitQ, minExp, maxWait);
    assert (1 + maxWait) / (1 + maxWait) == 1;
    var r := (1 + maxWait) / (1 + waitQ);
    QuotientAbove(1 + maxWait, 1 + waitQ);
    assert r <= g;
    ProductMono(r + 1, g + 1, 1 + waitQ);
  }

  lemma QuotientAbove(a: int, b: int)
    requires a >= 0 && b >= 1
    ensures a < (a / b + 1) * b
  {
  }

  lemma ProductMono(x: int, y: int, b: int)
    requires x <= y && b >= 0
    ensures x * b <= y * b
  {
  }
}
