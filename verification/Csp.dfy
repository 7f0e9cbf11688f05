/**
 * Declarative constraint problems: what a constraint means, what validation refuses, and why a
 * problem that passes validation can be evaluated with plain 64-bit arithmetic.
 */
module Csp {
  import opened Wrappers
  import DivMod

  const INT64_MIN: int := -0x8000_0000_0000_0000
  const INT64_MAX: int := 0x7FFF_FFFF_FFFF_FFFF

  type Int64 = x: int | INT64_MIN <= x <= INT64_MAX witness 0

  datatype Kind =
    | NotEqual | Equal | LessEqual | AbsDiffNe
    | AllDifferent | LinearEq | LinearLe | TableAllowed

  datatype WireConstraint = WireConstraint(kind: Kind, scope: seq<nat>, params: seq<Int64>)

  datatype WireCsp = WireCsp(domains: seq<seq<Int64>>, constraints: seq<WireConstraint>)

  // ---------------------------------------------------------------- what a constraint means

  predicate TakesOneParam(kind: Kind) {
    kind == LessEqual || kind == AbsDiffNe
  }

  predicate Linear(kind: Kind) {
    kind == LinearEq || kind == LinearLe
  }

  /** The number of variables a kind requires, if it requires one. */
  function FixedArity(kind: Kind): Option<nat> {
    if kind == NotEqual || kind == Equal || kind == LessEqual || kind == AbsDiffNe then Some(2) else None
  }

  predicate Distinct<T(==)>(s: seq<T>) {
    forall i, j :: 0 <= i < j < |s| ==> s[i] != s[j]
  }

  /** The parameter count each kind demands. */
  predicate ParamsFit(c: WireConstraint) {
    if TakesOneParam(c.kind) then |c.params| == 1
    else if Linear(c.kind) then |c.params| == |c.scope| + 1
    else if c.kind == TableAllowed then c.params != [] && c.scope != [] && |c.params| % |c.scope| == 0
    else c.params == []
  }

  /** The arity the kind demands, and its parameters: what evaluation relies on. */
  predicate Shaped(c: WireConstraint) {
    (FixedArity(c.kind).Some? ==> |c.scope| == 2) && ParamsFit(c)
  }

  /** The sum of the first `k` terms. */
  function WeightedSum(coefs: seq<int>, values: seq<int>, k: nat): int
    requires k <= |coefs| && k <= |values|
  {
    if k == 0 then 0 else WeightedSum(coefs, values, k - 1) + coefs[k - 1] * values[k - 1]
  }

  predicate RowMatches(params: seq<int>, values: seq<int>, row: nat) {
    row + |values| <= |params| && params[row..row + |values|] == values
  }

  /** `holds`, over unbounded integers. */
  ghost predicate Holds(c: WireConstraint, values: seq<int>)
    requires Shaped(c) && |values| == |c.scope|
  {
    match c.kind
    case NotEqual => values[0] != values[1]
    case Equal => values[0] == values[1]
    case LessEqual => var gap: int := c.params[0]; values[0] - values[1] <= -gap
    case AbsDiffNe =>
      var d := values[0] - values[1];
      (if d < 0 then -d else d) != c.params[0]
    case AllDifferent => Distinct(values)
    case LinearEq => WeightedSum(c.params, values, |values|) == c.params[|values|]
    case LinearLe => WeightedSum(c.params, values, |values|) <= c.params[|values|]
    case TableAllowed => exists r: nat :: RowMatches(c.params, values, r * |values|)
  }

  predicate Fits(x: int) {
    INT64_MIN <= x <= INT64_MAX
  }

  /** Every intermediate result of evaluating the constraint is a 64-bit integer. */
  predicate EvaluatesSafely(c: WireConstraint, values: seq<int>)
    requires Shaped(c) && |values| == |c.scope|
  {
    match c.kind
    case LessEqual => var gap: int := c.params[0]; Fits(values[0] - values[1]) && Fits(-gap)
    case AbsDiffNe =>
      var d := values[0] - values[1];
      Fits(d) && (d < 0 ==> Fits(-d))
    case LinearEq => SumsSafely(c.params, values)
    case LinearLe => SumsSafely(c.params, values)
    case _ => true
  }

  predicate SumsSafely(coefs: seq<int>, values: seq<int>)
    requires |coefs| >= |values|
  {
    && (forall k :: 0 <= k < |values| ==> Fits(coefs[k] * values[k]))
    && (forall k :: 0 <= k <= |values| ==> Fits(WeightedSum(coefs, values, k)))
  }

  // ---------------------------------------------------------------- bounds taken once

  function Abs(x: int): nat {
    if x < 0 then -x else x
  }

  function Least(s: seq<int>): (r: int)
    requires s != []
    ensures r in s && forall k :: 0 <= k < |s| ==> r <= s[k]
  {
    if |s| == 1 then s[0]
    else
      var rest := Least(s[1..]);
      assert forall k :: 1 <= k < |s| ==> s[k] == s[1..][k - 1];
      if s[0] < rest then s[0] else rest
  }

  function Greatest(s: seq<int>): (r: int)
    requires s != []
    ensures r in s && forall k :: 0 <= k < |s| ==> s[k] <= r
  {
    if |s| == 1 then s[0]
    else
      var rest := Greatest(s[1..]);
      assert forall k :: 1 <= k < |s| ==> s[k] == s[1..][k - 1];
      if s[0] > rest then s[0] else rest
  }

  /** `difference_fits`, with every subtraction and addition it performs itself in range. */
  method DifferenceFits(x: seq<Int64>, y: seq<Int64>) returns (r: bool)
    requires x != [] && y != []
    ensures r <==> DifferencesFit(x, y)
  {
    hide Least, Greatest;
    var xLo, xHi, yLo, yHi := Least(x), Greatest(x), Least(y), Greatest(y);
    if yLo < 0 {
      assert Fits(INT64_MAX + yLo);
      if xHi > INT64_MAX + yLo {
        assert !Fits(xHi - yLo);
        return false;
      }
    }
    if yHi > 0 {
      assert Fits(INT64_MIN + yHi);
      if xLo < INT64_MIN + yHi {
        assert !Fits(xLo - yHi);
        return false;
      }
    }
    assert Fits(xLo - yHi);
    return xLo - yHi != INT64_MIN;
  }

  /** Every difference between the domains fits, and so does its negation. */
  predicate DifferencesFit(x: seq<int>, y: seq<int>) {
    forall a, b :: a in x && b in y ==> Fits(a - b) && Fits(b - a)
  }

  function MaxAbs(domain: seq<int>): (r: nat)
    ensures forall k :: 0 <= k < |domain| ==> Abs(domain[k]) <= r
    ensures domain != [] ==> exists k :: 0 <= k < |domain| && Abs(domain[k]) == r
  {
    if domain == [] then 0
    else
      var n := |domain| - 1;
      var rest := MaxAbs(domain[..n]);
      assert forall k :: 0 <= k < n ==> domain[k] == domain[..n][k];
      if Abs(domain[n]) > rest then Abs(domain[n]) else rest
  }

  /** The largest magnitude a term can reach, if 64 bits hold it. */
  function TermBound(coef: int, domain: seq<int>): (r: Option<nat>)
    ensures r.Some? ==> r.value <= INT64_MAX
  {
    if coef == 0 then Some(0)
    else if coef == INT64_MIN || INT64_MIN in domain || Abs(coef) * MaxAbs(domain) > INT64_MAX then None
    else Some(Abs(coef) * MaxAbs(domain))
  }

  /** The division guard tells whether the term fits. */
  lemma GuardTellsTerm(coef: int, domain: seq<int>)
    requires coef != 0 && coef != INT64_MIN && INT64_MIN !in domain
    ensures Abs(coef) > 0
    ensures TermBound(coef, domain)
            == if MaxAbs(domain) > INT64_MAX / Abs(coef) then None else Some(Abs(coef) * MaxAbs(domain))
  {
    hide MaxAbs;
    DivMod.GuardByQuotient(MaxAbs(domain), Abs(coef), INT64_MAX);
  }

  lemma TermWithoutGuard(coef: int, domain: seq<int>)
    ensures coef == 0 ==> TermBound(coef, domain) == Some(0)
    ensures coef == INT64_MIN || (coef != 0 && INT64_MIN in domain) ==> TermBound(coef, domain) == None
  {
    hide MaxAbs;
  }

  /** `term_bound`: the guard divides, so that no product overflows. */
  method ComputeTermBound(coef: Int64, domain: seq<Int64>) returns (r: Option<nat>)
    ensures r == TermBound(coef, domain)
  {
    hide TermBound, MaxAbs;
    TermWithoutGuard(coef, domain);
    if coef == 0 {
      return Some(0);
    }
    if coef == INT64_MIN {
      return None;
    }
    var absCoef: Int64 := if coef < 0 then -coef else coef;
    var maxAbs := ComputeMaxAbs(domain);
    if maxAbs == None {
      return None;
    }
    GuardTellsTerm(coef, domain);
    if maxAbs.value > INT64_MAX / absCoef {
      return None;
    }
    return Some(absCoef * maxAbs.value);
  }

  /** Its loop over the domain. */
  method ComputeMaxAbs(domain: seq<Int64>) returns (r: Option<nat>)
    ensures r == if INT64_MIN in domain then None else Some(MaxAbs(domain))
    ensures r.Some? ==> r.value <= INT64_MAX
  {
    var maxAbs: Int64 := 0;
    for i := 0 to |domain|
      invariant INT64_MIN !in domain[..i]
      invariant maxAbs == MaxAbs(domain[..i])
    {
      var v := domain[i];
      assert domain[..i + 1][..i] == domain[..i];
      if v == INT64_MIN {
        return None;
      }
      var magnitude: Int64 := if v < 0 then -v else v;
      maxAbs := if magnitude > maxAbs then magnitude else maxAbs;
    }
    assert domain[..|domain|] == domain;
    return Some(maxAbs);
  }

  /** `add_bound`: a sum that saturates. */
  function AddBound(a: nat, b: nat): (r: nat)
    requires a <= INT64_MAX && b <= INT64_MAX
    ensures r <= INT64_MAX
    ensures r == INT64_MAX <==> a + b >= INT64_MAX
  {
    if a > INT64_MAX - b then INT64_MAX else a + b
  }

  /** The bound after the first `k` terms, if each has one. */
  function LinearBound(c: WireConstraint, domains: seq<seq<int>>, k: nat): (r: Option<nat>)
    requires k <= |c.scope| && k <= |c.params| && InRange(c.scope, |domains|)
    ensures r.Some? ==> r.value <= INT64_MAX
  {
    if k == 0 then Some(0)
    else
      match (LinearBound(c, domains, k - 1), TermBound(c.params[k - 1], domains[c.scope[k - 1]]))
      case (Some(bound), Some(term)) => Some(AddBound(bound, term))
      case _ => None
  }

  predicate InRange(scope: seq<nat>, n: nat) {
    forall k :: 0 <= k < |scope| ==> scope[k] < n
  }

  // ---------------------------------------------------------------- validation

  /** What is wrong with a constraint, if anything, in the order the checks are made. */
  function Fault(c: WireConstraint, domains: seq<seq<int>>): Option<MathError> {
    if |c.scope| < 2 then Some(DomainError)
    else if FixedArity(c.kind).Some? && |c.scope| != FixedArity(c.kind).value then Some(DomainError)
    else if !InRange(c.scope, |domains|) then Some(DomainError)
    else if !Distinct(c.scope) then Some(DomainError)
    else if !ParamsFit(c) then Some(DomainError)
    else if TakesOneParam(c.kind) then
      if c.params[0] == INT64_MIN then Some(OverflowError)
      else if !DifferencesFit(domains[c.scope[0]], domains[c.scope[1]]) then Some(OverflowError)
      else None
    else if Linear(c.kind) then
      var bound := LinearBound(c, domains, |c.scope|);
      if bound == None || bound == Some(INT64_MAX) then Some(OverflowError) else None
    else None
  }

  function FirstFault(constraints: seq<WireConstraint>, domains: seq<seq<int>>): (r: Option<MathError>)
    ensures r == None <==> forall k :: 0 <= k < |constraints| ==> Fault(constraints[k], domains) == None
  {
    if constraints == [] then None
    else if Fault(constraints[0], domains).Some? then Fault(constraints[0], domains)
    else FirstFault(constraints[1..], domains)
  }

  /** `validate`: what is wrong with the problem, if anything. */
  function Validity(w: WireCsp): Option<MathError> {
    if w.domains == [] || [] in w.domains then Some(DomainError)
    else FirstFault(w.constraints, w.domains)
  }

  method Validate(w: WireCsp) returns (r: Option<MathError>)
    ensures r == Validity(w)
  {
    hide Fault;
    if |w.domains| == 0 {
      return Some(DomainError);
    }
    for i := 0 to |w.domains|
      invariant [] !in w.domains[..i]
    {
      if w.domains[i] == [] {
        return Some(DomainError);
      }
    }
    assert w.domains[..|w.domains|] == w.domains;
    assert w.constraints[0..] == w.constraints;
    for i := 0 to |w.constraints|
      invariant FirstFault(w.constraints[i..], w.domains) == FirstFault(w.constraints, w.domains)
    {
      var fault := CheckConstraint(w.constraints[i], w.domains);
      assert w.constraints[i..][1..] == w.constraints[i + 1..];
      if fault.Some? {
        return fault;
      }
    }
    return None;
  }

  method CheckConstraint(c: WireConstraint, domains: seq<seq<Int64>>) returns (r: Option<MathError>)
    requires [] !in domains
    ensures r == Fault(c, domains)
  {
    hide DifferencesFit, LinearBound;
    if |c.scope| < 2 || (FixedArity(c.kind).Some? && |c.scope| != FixedArity(c.kind).value) {
      return Some(DomainError);
    }
    for i := 0 to |c.scope|
      invariant InRange(c.scope[..i], |domains|)
    {
      if c.scope[i] >= |domains| {
        return Some(DomainError);
      }
    }
    assert c.scope[..|c.scope|] == c.scope;
    if !Distinct(c.scope) || !ParamsFit(c) {
      return Some(DomainError);
    }
    if TakesOneParam(c.kind) {
      if c.params[0] == INT64_MIN {
        return Some(OverflowError);
      }
      var fits := DifferenceFits(domains[c.scope[0]], domains[c.scope[1]]);
      return if fits then None else Some(OverflowError);
    }
    if Linear(c.kind) {
      r := CheckLinear(c, domains);
      return;
    }
    return None;
  }

  method CheckLinear(c: WireConstraint, domains: seq<seq<Int64>>) returns (r: Option<MathError>)
    requires InRange(c.scope, |domains|) && |c.params| == |c.scope| + 1
    ensures var bound := LinearBound(c, domains, |c.scope|);
            r == if bound == None || bound == Some(INT64_MAX) then Some(OverflowError) else None
  {
    hide TermBound, AddBound;
    var bound: Int64 := 0;
    for i := 0 to |c.scope|
      invariant LinearBound(c, domains, i) == Some(bound)
    {
      var t := ComputeTermBound(c.params[i], domains[c.scope[i]]);
      if t == None {
        NoBoundLater(c, domains, i + 1, |c.scope|);
        return Some(OverflowError);
      }
      bound := AddBound(bound, t.value);
    }
    return if bound == INT64_MAX then Some(OverflowError) else None;
  }

  lemma {:induction false} NoBoundLater(c: WireConstraint, domains: seq<seq<int>>, i: nat, k: nat)
    requires i <= k <= |c.scope| && k <= |c.params| && InRange(c.scope, |domains|)
    requires LinearBound(c, domains, i) == None
    ensures LinearBound(c, domains, k) == None
  {
    hide TermBound, AddBound;
    if i < k {
      NoBoundLater(c, domains, i, k - 1);
    }
  }

  // ---------------------------------------------------------------- validated means safe

  lemma ProductBounded(c: int, v: int, m: nat)
    requires Abs(v) <= m
    ensures Abs(c * v) <= Abs(c) * m
  {
    DivMod.AtLeastZero(m - Abs(v), Abs(c));
    assert (m - Abs(v)) * Abs(c) == m * Abs(c) - Abs(v) * Abs(c);
    if c < 0 { assert c * v == -((-c) * v); }
    if v < 0 { assert Abs(c) * v == -(Abs(c) * (-v)); }
  }

  lemma TermIsBounded(coef: int, domain: seq<int>, v: int)
    requires v in domain && TermBound(coef, domain).Some?
    ensures Abs(coef * v) <= TermBound(coef, domain).value
  {
    if coef != 0 {
      ProductBounded(coef, v, MaxAbs(domain));
    }
  }

  /** The values of a scope, each from its domain. */
  predicate FromDomains(scope: seq<nat>, domains: seq<seq<int>>, values: seq<int>)
    requires InRange(scope, |domains|)
  {
    |values| == |scope| && forall k :: 0 <= k < |scope| ==> values[k] in domains[scope[k]]
  }

  /** Every partial sum stays within the bound, as long as the bound has not saturated. */
  lemma {:induction false} PartialSumBounded(c: WireConstraint, domains: seq<seq<int>>, values: seq<int>, k: nat)
    requires InRange(c.scope, |domains|) && FromDomains(c.scope, domains, values)
    requires k <= |c.scope| <= |c.params|
    requires LinearBound(c, domains, k).Some? && LinearBound(c, domains, k).value < INT64_MAX
    ensures Abs(WeightedSum(c.params, values, k)) <= LinearBound(c, domains, k).value
    ensures forall i :: 0 <= i <= k ==> Fits(WeightedSum(c.params, values, i))
    ensures forall i :: 0 <= i < k ==> Fits(c.params[i] * values[i])
  {
    hide TermBound;
    if k > 0 {
      TermIsBounded(c.params[k - 1], domains[c.scope[k - 1]], values[k - 1]);
      PartialSumBounded(c, domains, values, k - 1);
    }
  }

  /**
   * A constraint that passes validation is evaluated without overflow on any values from the
   * domains: validating once is enough.
   */
  lemma ValidatedIsSafe(w: WireCsp, k: nat, values: seq<int>)
    requires Validity(w) == None && k < |w.constraints|
    requires InRange(w.constraints[k].scope, |w.domains|)
             ==> FromDomains(w.constraints[k].scope, w.domains, values)
    ensures Shaped(w.constraints[k]) && InRange(w.constraints[k].scope, |w.domains|)
    ensures EvaluatesSafely(w.constraints[k], values)
  {
    hide LinearBound, WeightedSum, Distinct;
    var c := w.constraints[k];
    assert Fault(c, w.domains) == None;
    if Linear(c.kind) {
      PartialSumBounded(c, w.domains, values, |c.scope|);
    } else if TakesOneParam(c.kind) {
      assert values[0] in w.domains[c.scope[0]] && values[1] in w.domains[c.scope[1]];
    }
  }

  /** The saturating bound is the true sum of the worst terms, cut at the largest 64-bit integer. */
  lemma {:induction false} BoundIsExact(c: WireConstraint, domains: seq<seq<int>>, k: nat)
    requires k <= |c.scope| && k <= |c.params| && InRange(c.scope, |domains|)
    requires LinearBound(c, domains, k).Some?
    ensures LinearBound(c, domains, k).value
            == if TotalBound(c, domains, k) > INT64_MAX then INT64_MAX else TotalBound(c, domains, k)
  {
    hide TermBound;
    if k > 0 {
      BoundIsExact(c, domains, k - 1);
    }
  }

  function TotalBound(c: WireConstraint, domains: seq<seq<int>>, k: nat): nat
    requires k <= |c.scope| && k <= |c.params| && InRange(c.scope, |domains|)
  {
    if k == 0 then 0
    else
      var term := TermBound(c.params[k - 1], domains[c.scope[k - 1]]);
      TotalBound(c, domains, k - 1) + if term.Some? then term.value else 0
  }

  // ---------------------------------------------------------------- solutions

  /** An assignment of a value from each domain. */
  predicate Assigns(domains: seq<seq<int>>, a: seq<int>) {
    |a| == |domains| && forall k :: 0 <= k < |domains| ==> a[k] in domains[k]
  }

  function Project(scope: seq<nat>, a: seq<int>): (r: seq<int>)
    requires InRange(scope, |a|)
    ensures |r| == |scope|
  {
    seq(|scope|, k requires 0 <= k < |scope| => a[scope[k]])
  }

  ghost predicate Permits(c: WireConstraint, a: seq<int>) {
    Shaped(c) && InRange(c.scope, |a|) && Holds(c, Project(c.scope, a))
  }

  ghost predicate Solves(w: WireCsp, a: seq<int>) {
    Assigns(w.domains, a) && forall k :: 0 <= k < |w.constraints| ==> Permits(w.constraints[k], a)
  }

  ghost predicate Satisfiable(w: WireCsp) {
    exists a :: Solves(w, a)
  }
}
