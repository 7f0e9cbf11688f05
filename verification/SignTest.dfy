/** The two-sided exact sign test, in exact arithmetic. */
module SignTest {
  import opened Reals

  /** Binomial coefficients by Pascal's rule: how many of the 2^n outcomes have exactly `j` wins. */
  function Choose(n: nat, j: nat): nat
    decreases n
  {
    if j == 0 then 1
    else if n == 0 then 0
    else Choose(n - 1, j - 1) + Choose(n - 1, j)
  }

  function Pow2(n: nat): (p: nat)
    ensures p > 0
  {
    if n == 0 then 1 else 2 * Pow2(n - 1)
  }

  /** Outcomes with fewer than `m` wins. */
  function Below(n: nat, m: nat): nat
    decreases m
  {
    if m == 0 then 0 else Below(n, m - 1) + Choose(n, m - 1)
  }

  /** `j` wins out of `n` are at least as one-sided as `k` on the losing side: `j` or `n - j` is at most `k`. */
  predicate Extreme(n: nat, k: nat, j: nat) { j <= k || n <= j + k }

  /** Outcomes at least as one-sided, among those with fewer than `m` wins. */
  function Tail(n: nat, k: nat, m: nat): nat
    decreases m
  {
    if m == 0 then 0 else Tail(n, k, m - 1) + if Extreme(n, k, m - 1) then Choose(n, m - 1) else 0
  }

  function Min(a: nat, b: nat): nat { if a <= b then a else b }

  function Share(outcomes: nat, n: nat): real { outcomes as real / Pow2(n) as real }

  /** The two-sided p-value: the share of outcomes at least as one-sided as the one observed. */
  function PValue(wins: nat, losses: nat): real {
    var n := wins + losses;
    Share(Tail(n, Min(wins, losses), n + 1), n)
  }

  // Binomial coefficients.

  lemma {:induction false} ChooseZero(n: nat, j: nat)
    requires j > n
    ensures Choose(n, j) == 0
    decreases n
  {
    if n > 0 {
      ChooseZero(n - 1, j - 1);
      ChooseZero(n - 1, j);
    }
  }

  /** Each coefficient from the one before it, as the loop computes them. */
  lemma {:induction false} NextCoefficient(n: nat, j: nat)
    requires 1 <= j <= n
    ensures j * Choose(n, j) == (n - j + 1) * Choose(n, j - 1)
    decreases n
  {
    if j < n { NextCoefficient(n - 1, j); } else { ChooseZero(n - 1, j); }
    if j > 1 { NextCoefficient(n - 1, j - 1); }
    Absorbed(n, j, if j > 1 then Choose(n - 1, j - 2) else 0, Choose(n - 1, j), Choose(n - 1, j - 1));
  }

  lemma Absorbed(n: int, j: int, a: int, b: int, c: int)
    requires j * b == (n - j) * c && (j - 1) * c == (n - j + 1) * a
    ensures j * (c + b) == (n - j + 1) * (a + c)
  {
    assert j * (c + b) == j * c + j * b;
    assert (n - j) * c == n * c - j * c;
    assert (n - j + 1) * (a + c) == (n - j + 1) * a + (n - j) * c + c;
  }

  lemma {:induction false} Symmetric(n: nat, j: nat)
    requires j <= n
    ensures Choose(n, j) == Choose(n, n - j)
    decreases n
  {
    if n == 0 {
    } else if j == 0 {
      Symmetric(n - 1, 0);
      ChooseZero(n - 1, n);
    } else if j == n {
      Symmetric(n - 1, n - 1);
      ChooseZero(n - 1, n);
    } else {
      Symmetric(n - 1, j - 1);
      Symmetric(n - 1, j);
    }
  }

  lemma {:induction false} BelowPascal(n: nat, m: nat)
    requires n > 0 && m > 0
    ensures Below(n, m) == Below(n - 1, m) + Below(n - 1, m - 1)
    decreases m
  {
    if m > 1 { BelowPascal(n, m - 1); }
  }

  /** All outcomes together: 2^n. */
  lemma {:induction false} AllOutcomes(n: nat)
    ensures Below(n, n + 1) == Pow2(n)
    decreases n
  {
    if n > 0 {
      AllOutcomes(n - 1);
      BelowPascal(n, n + 1);
      ChooseZero(n - 1, n);
    }
  }

  /** The `k + 1` upper coefficients add up to the `k + 1` lower ones. */
  lemma {:induction false} TopMirrorsBottom(n: nat, k: nat)
    requires k <= n
    ensures Below(n, n + 1) == Below(n, n - k) + Below(n, k + 1)
    decreases k
  {
    Symmetric(n, k);
    if k > 0 {
      TopMirrorsBottom(n, k - 1);
      assert Below(n, n - k + 1) == Below(n, n - k) + Choose(n, n - k);
    } else {
      assert Below(n, 1) == Below(n, 0) + Choose(n, 0);
    }
  }

  /** For an unbalanced observation the tail is twice the lower end; for a balanced one it is everything. */
  lemma {:induction false} TailParts(n: nat, k: nat, m: nat)
    requires 2 * k <= n && m <= n + 1
    ensures Tail(n, k, m) ==
      if m <= k + 1 || 2 * k == n then Below(n, m)
      else if m <= n - k then Below(n, k + 1)
      else Below(n, k + 1) + Below(n, m) - Below(n, n - k)
    decreases m
  {
    if m > 0 { TailParts(n, k, m - 1); }
  }

  lemma TailIsTwice(n: nat, k: nat)
    requires 2 * k <= n
    ensures 2 * k < n ==> Tail(n, k, n + 1) == 2 * Below(n, k + 1) <= Pow2(n)
    ensures 2 * k == n ==> Tail(n, k, n + 1) == Pow2(n) < 2 * Below(n, k + 1)
  {
    TailParts(n, k, n + 1);
    TopMirrorsBottom(n, k);
    AllOutcomes(n);
    if 2 * k == n {
      ChoosePositive(n, k);
    } else {
      BelowGrows(n, k + 1, n - k);
    }
  }

  lemma {:induction false} ChoosePositive(n: nat, j: nat)
    requires j <= n
    ensures Choose(n, j) > 0
    decreases n
  {
    if j > 0 { ChoosePositive(n - 1, j - 1); }
  }

  lemma {:induction false} BelowGrows(n: nat, m: nat, m': nat)
    requires m <= m'
    ensures Below(n, m) <= Below(n, m')
    decreases m'
  {
    if m < m' { BelowGrows(n, m, m' - 1); }
  }

  // The loop.

  /** The loop's update turns one scaled coefficient into the next. */
  lemma ScaledTerm(a: nat, b: nat, c: nat, d: nat, h: real)
    requires c > 0 && a * b == c * d
    ensures a as real * h * (b as real / c as real) == d as real * h
  {
    var (x, y, z, q) := (a as real, b as real, c as real, b as real / c as real);
    Quotients(y, z);
    assert (a * b) as real == x * y && (c * d) as real == z * d as real;
    assert x * q * z == x * (q * z);
    Cancels(x * q, d as real, z);
    assert x * h * q == x * q * h;
  }

  lemma ShareIsScaled(a: nat, n: nat)
    ensures Share(a, n) == a as real * (1.0 / Pow2(n) as real)
  {
    var p := Pow2(n) as real;
    Quotients(a as real, p);
    Quotients(1.0, p);
    assert a as real * (1.0 / p) * p == a as real * (1.0 / p * p);
    Cancels(Share(a, n), a as real * (1.0 / p), p);
  }

  /** The program computes the two-sided p-value; its clamp at one makes it right for ties as well. */
  method SignTestPValue(wins: nat, losses: nat) returns (p: real)
    ensures p == PValue(wins, losses)
  {
    hide Choose, Below, Pow2, Unclamped, PValue, Share;
    var n := wins + losses;
    if n == 0 {
      NoTrials();
      return 1.0;
    }
    var k := Min(wins, losses);
    var cumulative := 0.0;
    var start := 1.0 / Pow2(n) as real;
    var term := start;
    cumulative := cumulative + term;
    FirstCoefficient(n);
    for j := 1 to k + 1
      invariant term == Choose(n, j - 1) as real * start
      invariant cumulative == Below(n, j) as real * start
    {
      LoopStep(n, j, start);
      term := term * ((n - j + 1) as real / j as real);
      cumulative := cumulative + term;
    }
    p := 2.0 * cumulative;
    ShareIsScaled(2 * Below(n, k + 1), n);
    UnclampedIsTwice(wins, losses);
    if 1.0 < p { p := 1.0; }
    ClampedIsPValue(wins, losses);
  }

  /** What one round of the loop adds. */
  lemma LoopStep(n: nat, j: nat, start: real)
    requires 1 <= j <= n
    ensures Choose(n, j - 1) as real * start * ((n - j + 1) as real / j as real) == Choose(n, j) as real * start
    ensures Below(n, j) as real * start + Choose(n, j) as real * start == Below(n, j + 1) as real * start
  {
    hide Choose;
    NextCoefficient(n, j);
    ScaledTerm(Choose(n, j - 1), n - j + 1, j, Choose(n, j), start);
    assert Below(n, j + 1) as real == Below(n, j) as real + Choose(n, j) as real;
  }

  lemma FirstCoefficient(n: nat)
    ensures Choose(n, 0) == 1 && Below(n, 1) == 1
  {
    assert Below(n, 1) == Below(n, 0) + Choose(n, 0);
  }

  lemma NoTrials()
    ensures PValue(0, 0) == 1.0
  {
    assert Tail(0, 0, 1) == Tail(0, 0, 0) + Choose(0, 0);
  }

  lemma UnclampedIsTwice(wins: nat, losses: nat)
    ensures Unclamped(wins, losses) == Share(2 * Below(wins + losses, Min(wins, losses) + 1), wins + losses)
  {
  }

  /** Twice the lower end, before the clamp. */
  function Unclamped(wins: nat, losses: nat): real {
    Share(2 * Below(wins + losses, Min(wins, losses) + 1), wins + losses)
  }

  lemma SharesCompare(a: nat, b: nat, n: nat)
    ensures Share(a, n) <= Share(b, n) <==> a <= b
    ensures Share(Pow2(n), n) == 1.0
  {
    hide Pow2;
    RatiosCompare(a as real, b as real, Pow2(n) as real);
    RatioOne(Pow2(n) as real);
  }

  lemma RatiosCompare(a: real, b: real, c: real)
    requires c > 0.0
    ensures a / c <= b / c <==> a <= b
  {
    Quotients(a, c);
    Quotients(b, c);
    var x, y := a / c, b / c;
    Ordered(x, y, c);
  }

  lemma RatioOne(c: real)
    requires c > 0.0
    ensures c / c == 1.0
  {
  }

  /** The clamped value is the p-value, and the clamp changes it exactly for a tie. */
  lemma ClampedIsPValue(wins: nat, losses: nat)
    requires wins + losses > 0
    ensures PValue(wins, losses) == if 1.0 < Unclamped(wins, losses) then 1.0 else Unclamped(wins, losses)
    ensures Unclamped(wins, losses) != PValue(wins, losses) <==> wins == losses
  {
    var n, k := wins + losses, Min(wins, losses);
    TailIsTwice(n, k);
    SharesCompare(2 * Below(n, k + 1), Pow2(n), n);
  }

  /** A probability, never zero. */
  lemma PValueIsProbability(wins: nat, losses: nat)
    ensures 0.0 < PValue(wins, losses) <= 1.0
  {
    var n, k := wins + losses, Min(wins, losses);
    TailIsTwice(n, k);
    BelowGrows(n, 1, k + 1);
    assert Below(n, 1) == Below(n, 0) + 1;
    SharesCompare(Tail(n, k, n + 1), Pow2(n), n);
    SharesCompare(Tail(n, k, n + 1), 0, n);
    assert Share(0, n) == 0.0;
  }

  /** Losing is as significant as winning. */
  lemma PValueIsSymmetric(wins: nat, losses: nat)
    ensures PValue(wins, losses) == PValue(losses, wins)
  {
  }

  /** Out of as many trials, a more one-sided result never has the larger p-value. */
  lemma PValueFallsWithImbalance(wins: nat, losses: nat, wins': nat, losses': nat)
    requires wins + losses == wins' + losses'
    requires Min(wins, losses) <= Min(wins', losses')
    ensures PValue(wins, losses) <= PValue(wins', losses')
  {
    var n, k, k' := wins + losses, Min(wins, losses), Min(wins', losses');
    TailGrows(n, k, k', n + 1);
    SharesCompare(Tail(n, k, n + 1), Tail(n, k', n + 1), n);
  }

  lemma {:induction false} TailGrows(n: nat, k: nat, k': nat, m: nat)
    requires k <= k'
    ensures Tail(n, k, m) <= Tail(n, k', m)
    decreases m
  {
    if m > 0 { TailGrows(n, k, k', m - 1); }
  }
}
