/**
 * What the constraint kinds mean and which problems validation accepts, said as the interface documents
 * them, apart from how evaluation and validation are written.
 */
module CspMeaning {
  import opened Wrappers
  import opened Csp
  import DivMod

  const TWO63: int := 0x8000_0000_0000_0000

  // ---------------------------------------------------------------- the kinds

  /** The sum of coefficient times value, taken from the front. */
  function Dot(coefs: seq<int>, values: seq<int>): int
    requires |coefs| >= |values|
  {
    if values == [] then 0 else coefs[0] * values[0] + Dot(coefs[1..], values[1..])
  }

  /** A constraint in the words of its kind. */
  ghost predicate Means(c: WireConstraint, values: seq<int>)
    requires Shaped(c) && |values| == |c.scope|
  {
    var n := |values|;
    match c.kind
    case NotEqual => values[0] < values[1] || values[1] < values[0]
    case Equal => values[0] <= values[1] <= values[0]
    case LessEqual => values[0] + c.params[0] <= values[1]
    case AbsDiffNe => c.params[0] >= 0 ==> values[0] != values[1] + c.params[0] && values[1] != values[0] + c.params[0]
    case AllDifferent => forall i, j | 0 <= i < n && 0 <= j < n && values[i] == values[j] :: i == j
    case LinearEq => Dot(c.params, values) == c.params[n]
    case LinearLe => Dot(c.params, values) <= c.params[n]
    case TableAllowed => exists r: nat :: IsRow(c.params, values, r)
  }

  /** The values are the `r`-th row of a flat table. */
  predicate IsRow(params: seq<int>, values: seq<int>, r: nat) {
    (r + 1) * |values| <= |params| && forall i | 0 <= i < |values| :: EntryOf(params, values, r, i)
  }

  predicate EntryOf(params: seq<int>, values: seq<int>, r: nat, i: nat) {
    r * |values| + i < |params| && i < |values| && params[r * |values| + i] == values[i]
  }

  lemma {:induction false} DotIsWeightedSum(coefs: seq<int>, values: seq<int>)
    requires |coefs| >= |values|
    ensures Dot(coefs, values) == WeightedSum(coefs, values, |values|)
    decreases |values|
  {
    if values != [] {
      DotIsWeightedSum(coefs[1..], values[1..]);
      SumFromFront(coefs, values, |values|);
    }
  }

  lemma {:induction false} SumFromFront(coefs: seq<int>, values: seq<int>, k: nat)
    requires 0 < k <= |coefs| && k <= |values|
    ensures WeightedSum(coefs, values, k) == coefs[0] * values[0] + WeightedSum(coefs[1..], values[1..], k - 1)
    decreases k
  {
    if k > 1 {
      SumFromFront(coefs, values, k - 1);
      assert coefs[1..][k - 2] == coefs[k - 1] && values[1..][k - 2] == values[k - 1];
    }
  }

  lemma RowIsRow(params: seq<int>, values: seq<int>, r: nat)
    ensures RowMatches(params, values, r * |values|) <==> IsRow(params, values, r)
  {
    var from := r * |values|;
    assert (r + 1) * |values| == from + |values|;
    if from + |values| <= |params| {
      var row := params[from..from + |values|];
      if row == values {
        forall i | 0 <= i < |values| ensures EntryOf(params, values, r, i) {
          assert row[i] == params[from + i];
        }
      }
      if IsRow(params, values, r) {
        forall i | 0 <= i < |values| ensures row[i] == values[i] {
          assert EntryOf(params, values, r, i);
        }
      }
    }
  }

  /** Evaluation decides each kind as it is documented. */
  lemma HoldsAsDocumented(c: WireConstraint, values: seq<int>)
    requires Shaped(c) && |values| == |c.scope|
    ensures Holds(c, values) <==> Means(c, values)
  {
    hide WeightedSum, Dot, RowMatches, IsRow;
    if c.kind.LinearEq? || c.kind.LinearLe? {
      DotIsWeightedSum(c.params, values);
    } else if c.kind.TableAllowed? {
      forall r: nat ensures RowMatches(c.params, values, r * |values|) <==> IsRow(c.params, values, r) {
        RowIsRow(c.params, values, r);
      }
    }
  }

  // ---------------------------------------------------------------- validation

  /** Two variables or more, all there and no two the same, and as many parameters as the kind takes. */
  ghost predicate InShape(c: WireConstraint, n: nat) {
    && |c.scope| >= 2
    && (forall i | 0 <= i < |c.scope| :: c.scope[i] < n)
    && (forall i, j | 0 <= i < |c.scope| && 0 <= j < |c.scope| && c.scope[i] == c.scope[j] :: i == j)
    && match c.kind
       case NotEqual => |c.scope| == 2 && c.params == []
       case Equal => |c.scope| == 2 && c.params == []
       case AllDifferent => c.params == []
       case LessEqual => |c.scope| == 2 && |c.params| == 1
       case AbsDiffNe => |c.scope| == 2 && |c.params| == 1
       case LinearEq => |c.params| == |c.scope| + 1
       case LinearLe => |c.params| == |c.scope| + 1
       case TableAllowed => |c.params| > 0 && |c.params| % |c.scope| == 0
  }

  /** The largest magnitude a term takes on its domain. */
  function WorstTerm(coef: int, domain: seq<int>): nat {
    DivMod.AtLeastZero(MaxAbs(domain), Abs(coef));
    Abs(coef) * MaxAbs(domain)
  }

  /** The worst that the first `k` terms of a sum can add up to. */
  function WorstSum(c: WireConstraint, domains: seq<seq<int>>, k: nat): nat
    requires k <= |c.scope| && k <= |c.params| && InRange(c.scope, |domains|)
  {
    if k == 0 then 0
    else WorstSum(c, domains, k - 1) + WorstTerm(c.params[k - 1], domains[c.scope[k - 1]])
  }

  /** Nothing that evaluation forms can leave 64 bits, by the worst case over the domains. */
  ghost predicate InBounds(c: WireConstraint, domains: seq<seq<int>>)
    requires InShape(c, |domains|)
  {
    if c.kind == LessEqual || c.kind == AbsDiffNe then
      c.params[0] > -TWO63
      && forall a, b | a in domains[c.scope[0]] && b in domains[c.scope[1]] :: Between(a, b)
    else if c.kind == LinearEq || c.kind == LinearLe then
      (forall i | 0 <= i < |c.scope| :: Measurable(c.params[i], domains[c.scope[i]]))
      && WorstSum(c, domains, |c.scope|) < TWO63 - 1
    else true
  }

  /** A term whose factors have magnitudes that 64 bits hold, or that vanishes. */
  predicate Measurable(coef: int, domain: seq<int>) {
    coef != 0 ==> coef > -TWO63 && -TWO63 !in domain
  }

  predicate Between(a: int, b: int) { -TWO63 < a - b < TWO63 }

  lemma TermBoundExactly(coef: Int64, domain: seq<int>)
    ensures TermBound(coef, domain)
         == if Measurable(coef, domain) && WorstTerm(coef, domain) <= INT64_MAX then Some(WorstTerm(coef, domain)) else None
  {
    hide MaxAbs;
    if coef == 0 { assert Abs(coef) * MaxAbs(domain) == 0; }
  }

  lemma {:induction false} BoundIsWorstSum(c: WireConstraint, domains: seq<seq<Int64>>, k: nat)
    requires k <= |c.scope| && k <= |c.params| && InRange(c.scope, |domains|)
    ensures var bound := LinearBound(c, domains, k);
      (bound.Some? && bound.value < INT64_MAX) <==>
        (forall i | 0 <= i < k :: Measurable(c.params[i], domains[c.scope[i]])) && WorstSum(c, domains, k) < TWO63 - 1
    ensures LinearBound(c, domains, k).Some? && LinearBound(c, domains, k).value < INT64_MAX
            ==> LinearBound(c, domains, k).value == WorstSum(c, domains, k)
  {
    hide MaxAbs, TermBound, Measurable, WorstTerm;
    if k > 0 {
      BoundIsWorstSum(c, domains, k - 1);
      TermBoundExactly(c.params[k - 1], domains[c.scope[k - 1]]);
    }
  }

  /** A constraint is refused for its shape, else for its worst case, and accepted otherwise. */
  lemma FaultsExactly(c: WireConstraint, domains: seq<seq<Int64>>)
    ensures Fault(c, domains)
         == if !InShape(c, |domains|) then Some(DomainError)
            else if !InBounds(c, domains) then Some(OverflowError) else None
  {
    hide LinearBound, WorstSum;
    if InShape(c, |domains|) {
      if Linear(c.kind) {
        BoundIsWorstSum(c, domains, |c.scope|);
      }
      if TakesOneParam(c.kind) {
        PairsFit(domains[c.scope[0]], domains[c.scope[1]]);
      }
    }
  }

  lemma PairsFit(x: seq<int>, y: seq<int>)
    ensures DifferencesFit(x, y) <==> forall a, b | a in x && b in y :: Between(a, b)
  {
  }

  ghost predicate Accepted(c: WireConstraint, domains: seq<seq<int>>) {
    InShape(c, |domains|) && InBounds(c, domains)
  }

  /** Some variable, and a value for every variable. */
  predicate HasDomains(w: WireCsp) {
    |w.domains| > 0 && forall i :: 0 <= i < |w.domains| ==> |w.domains[i]| > 0
  }

  /**
   * A problem is accepted exactly if it has variables, all with values, and every constraint is in shape
   * and in bounds; what is reported otherwise is the first thing that is wrong.
   */
  lemma ValidExactly(w: WireCsp)
    ensures Validity(w) == None <==>
      HasDomains(w) && forall k | 0 <= k < |w.constraints| :: Accepted(w.constraints[k], w.domains)
    ensures !HasDomains(w) ==> Validity(w) == Some(DomainError)
    ensures forall k | 0 <= k < |w.constraints| && HasDomains(w) && !Accepted(w.constraints[k], w.domains)
                       && forall j | 0 <= j < k :: Accepted(w.constraints[j], w.domains) ::
      Validity(w) == Some(if InShape(w.constraints[k], |w.domains|) then OverflowError else DomainError)
  {
    hide Fault, InShape, InBounds;
    forall k | 0 <= k < |w.constraints|
      ensures Fault(w.constraints[k], w.domains)
           == if Accepted(w.constraints[k], w.domains) then None
              else Some(if InShape(w.constraints[k], |w.domains|) then OverflowError else DomainError)
    {
      FaultsExactly(w.constraints[k], w.domains);
    }
    if !HasDomains(w) {
      assert w.domains == [] || [] in w.domains;
    } else {
      assert [] !in w.domains;
    }
    forall k | 0 <= k < |w.constraints| && HasDomains(w) && !Accepted(w.constraints[k], w.domains)
               && forall j | 0 <= j < k :: Accepted(w.constraints[j], w.domains)
      ensures Validity(w) == Some(if InShape(w.constraints[k], |w.domains|) then OverflowError else DomainError)
    {
      FirstIsReported(w.constraints, w.domains, k);
    }
  }

  lemma {:induction false} FirstIsReported(constraints: seq<WireConstraint>, domains: seq<seq<Int64>>, k: nat)
    requires k < |constraints| && Fault(constraints[k], domains).Some?
    requires forall j | 0 <= j < k :: Fault(constraints[j], domains) == None
    ensures FirstFault(constraints, domains) == Fault(constraints[k], domains)
    decreases k
  {
    hide Fault;
    if k > 0 { FirstIsReported(constraints[1..], domains, k - 1); }
  }
}
