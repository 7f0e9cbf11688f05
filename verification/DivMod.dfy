/** Facts about products, quotients and places around a ring that the models lean on. */
module DivMod {

  lemma AtLeastOnce(k: int, n: nat)
    requires k >= 1
    ensures k * n >= n
  {
    assert k * n == n + (k - 1) * n;
  }

  lemma Distribute(x: int, y: int, n: int)
    ensures (x - y) * n == x * n - y * n
  {
  }

  lemma LessByFactor(x: int, y: int, n: nat)
    requires x * n < y * n
    ensures x < y
  {
    Distribute(y, x, n);
    if y - x <= 0 {
      AtLeastZero(x - y, n);
      Distribute(x, y, n);
    }
  }

  lemma AtLeastZero(k: int, n: nat)
    requires k >= 0
    ensures k * n >= 0
  {
  }

  /** Quotient and remainder are determined. */
  lemma Quotient(a: int, n: nat, q: int, r: nat)
    requires n > 0 && r < n && a == q * n + r
    ensures a / n == q && a % n == r
  {
    var d := a / n - q;
    assert a == a / n * n + a % n;
    Distribute(a / n, q, n);
    if d >= 1 {
      AtLeastOnce(d, n);
    } else if d <= -1 {
      Distribute(q, a / n, n);
      AtLeastOnce(-d, n);
    }
  }

  /** Testing by division whether a product exceeds a limit. */
  lemma GuardByQuotient(a: nat, n: nat, limit: nat)
    requires n > 0
    ensures a > limit / n <==> a * n > limit
  {
    var q := limit / n;
    assert limit == q * n + limit % n;
    Distribute(a, q, n);
    if a > q {
      AtLeastOnce(a - q, n);
    } else {
      AtLeastZero(q - a, n);
    }
  }

  function CeilDiv(a: nat, b: nat): nat
    requires b > 0
  {
    (a + b - 1) / b
  }

  lemma CeilDivCovers(a: nat, b: nat)
    requires b > 0
    ensures a <= CeilDiv(a, b) * b
  {
    assert a + b - 1 == (a + b - 1) / b * b + (a + b - 1) % b;
  }

  /** The place `i` steps on from `a`, around a ring of `n`. */
  function RingPlace(a: nat, i: nat, n: nat): (p: nat)
    requires n > 0
    ensures p < n
  {
    (a + i) % n
  }

  lemma RingPlaceSmall(a: nat, n: nat)
    requires a < n
    ensures RingPlace(a, 0, n) == a
    ensures RingPlace(a, 1, n) == if a + 1 == n then 0 else a + 1
  {
    Quotient(a, n, 0, a);
    if a + 1 == n { Quotient(a + 1, n, 1, 0); } else { Quotient(a + 1, n, 0, a + 1); }
  }

  lemma RingPlaceAdds(a: nat, i: nat, k: nat, n: nat)
    requires n > 0
    ensures RingPlace(RingPlace(a, i, n), k, n) == RingPlace(a, i + k, n)
  {
    var r := RingPlace(a, i, n);
    var q1, q2 := (a + i) / n, (r + k) / n;
    assert a + i == q1 * n + r;
    assert r + k == q2 * n + (r + k) % n;
    assert (q1 + q2) * n == q1 * n + q2 * n;
    Quotient(a + i + k, n, q1 + q2, (r + k) % n);
  }

  /** Less than a whole turn apart, two places are different. */
  lemma RingPlacesDiffer(a: nat, i: nat, k: nat, n: nat)
    requires i < k < i + n
    ensures RingPlace(a, i, n) != RingPlace(a, k, n)
  {
    var r := RingPlace(a, i, n);
    RingPlaceAdds(a, i, k - i, n);
    if r + (k - i) < n { Quotient(r + (k - i), n, 0, r + (k - i)); } else { Quotient(r + (k - i), n, 1, r + (k - i) - n); }
  }

  /** Within one turn every place comes up. */
  lemma RingPlaceReached(a: nat, e: nat, n: nat) returns (i: nat)
    requires e < n
    ensures i < n && RingPlace(a, i, n) == e
  {
    var r := RingPlace(a, 0, n);
    i := if r <= e then e - r else e + n - r;
    RingPlaceAdds(a, 0, i, n);
    if r <= e { Quotient(r + i, n, 0, e); } else { Quotient(r + i, n, 1, e); }
  }
}
