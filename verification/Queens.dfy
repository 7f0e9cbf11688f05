/**
 * The two encodings of the n-queens problem: one `all_different` over all rows, or a `not_equal`
 * for every pair, each beside the same diagonal constraints.
 */
module Queens {
  import opened Wrappers
  import opened Csp
  import opened Pairs

  function NotEqualPair(p: (nat, nat)): WireConstraint {
    WireConstraint(NotEqual, [p.0, p.1], [])
  }

  function Diagonal(p: (nat, nat)): (c: WireConstraint)
    requires p.0 < p.1 <= INT64_MAX
  {
    WireConstraint(AbsDiffNe, [p.0, p.1], [p.1 - p.0])
  }

  predicate Ordered(pairs: seq<(nat, nat)>) {
    forall k :: 0 <= k < |pairs| ==> pairs[k].0 < pairs[k].1 <= INT64_MAX
  }

  function PairConstraints(pairs: seq<(nat, nat)>, pairwise: bool): seq<WireConstraint>
    requires Ordered(pairs)
  {
    if pairs == [] then []
    else
      (if pairwise then [NotEqualPair(pairs[0])] else [])
      + [Diagonal(pairs[0])] + PairConstraints(pairs[1..], pairwise)
  }

  function Indices(n: nat): (r: seq<nat>)
    ensures |r| == n && forall k :: 0 <= k < n ==> r[k] == k
  {
    seq(n, k => k)
  }

  function Columns(n: nat): (r: seq<Int64>)
    requires n <= INT64_MAX
    ensures |r| == n && forall k :: 0 <= k < n ==> r[k] == k
  {
    seq(n, k requires 0 <= k < n => k)
  }

  lemma RowsAreOrdered(i: nat, n: nat)
    requires n <= INT64_MAX
    ensures Ordered(Rows(i, n))
  {
    forall k | 0 <= k < |Rows(i, n)| ensures Rows(i, n)[k].0 < Rows(i, n)[k].1 <= INT64_MAX {
      InRows(i, n, Rows(i, n)[k]);
    }
  }

  lemma RowIsOrdered(i: nat, j: nat, n: nat)
    requires n <= INT64_MAX && i < j
    ensures Ordered(Row(i, j, n))
  {
    forall k | 0 <= k < |Row(i, j, n)| ensures Row(i, j, n)[k].0 < Row(i, j, n)[k].1 <= INT64_MAX {
      InRow(i, j, n, Row(i, j, n)[k]);
    }
  }

  function AllDifferentRows(n: nat): WireConstraint {
    WireConstraint(AllDifferent, Indices(n), [])
  }

  /** What `queens` builds. */
  function Encoding(n: nat, pairwise: bool): WireCsp
    requires n <= INT64_MAX
  {
    RowsAreOrdered(0, n);
    WireCsp(seq(n, k => Columns(n)),
            (if pairwise then [] else [AllDifferentRows(n)]) + PairConstraints(Rows(0, n), pairwise))
  }

  lemma {:induction false} ConstraintsJoin(a: seq<(nat, nat)>, b: seq<(nat, nat)>, pairwise: bool)
    requires Ordered(a) && Ordered(b)
    ensures Ordered(a + b)
    ensures PairConstraints(a + b, pairwise) == PairConstraints(a, pairwise) + PairConstraints(b, pairwise)
  {
    hide Diagonal, NotEqualPair;
    if a == [] {
      assert a + b == b;
    } else {
      assert (a + b)[1..] == a[1..] + b;
      ConstraintsJoin(a[1..], b, pairwise);
      var here := (if pairwise then [NotEqualPair(a[0])] else []) + [Diagonal(a[0])];
      var x, y := PairConstraints(a[1..], pairwise), PairConstraints(b, pairwise);
      assert PairConstraints(a, pairwise) == here + x;
      assert here + (x + y) == (here + x) + y;
    }
  }

  /** `queens`: the nested loops. */
  method BuildQueens(n: nat, pairwise: bool) returns (w: WireCsp)
    requires n <= INT64_MAX
    ensures w == Encoding(n, pairwise)
  {
    var domain: seq<Int64> := [];
    for v := 0 to n
      invariant |domain| == v && forall k :: 0 <= k < v ==> domain[k] == k
    {
      domain := domain + [v];
    }
    assert domain == Columns(n);
    var domains := seq(n, k => domain);
    var constraints: seq<WireConstraint> := [];
    if !pairwise {
      var all: seq<nat> := [];
      for i := 0 to n
        invariant |all| == i && forall k :: 0 <= k < i ==> all[k] == k
      {
        all := all + [i];
      }
      assert all == Indices(n);
      constraints := [WireConstraint(AllDifferent, all, [])];
    }
    constraints := AddPairs(n, pairwise, constraints);
    return WireCsp(domains, constraints);
  }

  method AddPairs(n: nat, pairwise: bool, before: seq<WireConstraint>) returns (constraints: seq<WireConstraint>)
    requires n <= INT64_MAX
    ensures Ordered(Rows(0, n)) && constraints == before + PairConstraints(Rows(0, n), pairwise)
  {
    hide PairConstraints, Rows, Row;
    constraints := before;
    RowsAreOrdered(0, n);
    for i := 0 to n
      invariant Ordered(Rows(i, n))
      invariant constraints + PairConstraints(Rows(i, n), pairwise) == before + PairConstraints(Rows(0, n), pairwise)
    {
      ghost var done := constraints;
      RowIsOrdered(i, i + 1, n);
      for j := i + 1 to n
        invariant Ordered(Row(i, j, n))
        invariant constraints + PairConstraints(Row(i, j, n), pairwise)
                  == done + PairConstraints(Row(i, i + 1, n), pairwise)
      {
        RowStep(i, j, n, pairwise);
        if pairwise {
          constraints := constraints + [NotEqualPair((i, j))];
        }
        constraints := constraints + [Diagonal((i, j))];
      }
      RowEnds(i, n, pairwise);
      RowsStep(i, n, pairwise);
      ghost var row := PairConstraints(Row(i, i + 1, n), pairwise);
      assert constraints == constraints + [] == done + row;
      assert done + row + PairConstraints(Rows(i + 1, n), pairwise)
          == done + (row + PairConstraints(Rows(i + 1, n), pairwise));
    }
    RowsEnd(n, pairwise);
  }

  lemma RowStep(i: nat, j: nat, n: nat, pairwise: bool)
    requires i < j < n <= INT64_MAX && Ordered(Row(i, j, n))
    ensures Ordered(Row(i, j + 1, n))
    ensures PairConstraints(Row(i, j, n), pairwise)
            == (if pairwise then [NotEqualPair((i, j))] else []) + [Diagonal((i, j))]
               + PairConstraints(Row(i, j + 1, n), pairwise)
  {
    RowIsOrdered(i, j + 1, n);
    assert Row(i, j, n)[1..] == Row(i, j + 1, n);
  }

  lemma RowEnds(i: nat, n: nat, pairwise: bool)
    ensures Row(i, n, n) == [] && PairConstraints([], pairwise) == []
    ensures i + 1 > n ==> Row(i, i + 1, n) == []
  {}

  lemma RowsStep(i: nat, n: nat, pairwise: bool)
    requires i < n <= INT64_MAX && Ordered(Rows(i, n)) && Ordered(Row(i, i + 1, n))
    ensures Ordered(Rows(i + 1, n))
    ensures PairConstraints(Rows(i, n), pairwise)
            == PairConstraints(Row(i, i + 1, n), pairwise) + PairConstraints(Rows(i + 1, n), pairwise)
  {
    RowsAreOrdered(i + 1, n);
    ConstraintsJoin(Row(i, i + 1, n), Rows(i + 1, n), pairwise);
  }

  lemma RowsEnd(n: nat, pairwise: bool)
    ensures Rows(n, n) == [] && PairConstraints([], pairwise) == []
  {}

  // ---------------------------------------------------------------- solutions

  /** Queens in the given columns, row by row, no two in one column or on one diagonal. */
  predicate Placement(n: nat, c: seq<int>) {
    && |c| == n
    && (forall i :: 0 <= i < n ==> 0 <= c[i] < n)
    && Distinct(c)
    && (forall i, j :: 0 <= i < j < n ==> Abs(c[i] - c[j]) != j - i)
  }

  ghost predicate AllPermit(constraints: seq<WireConstraint>, a: seq<int>) {
    forall k :: 0 <= k < |constraints| ==> Permits(constraints[k], a)
  }

  lemma PairPermits(p: (nat, nat), a: seq<int>)
    requires p.0 < p.1 < |a| <= INT64_MAX
    ensures Permits(NotEqualPair(p), a) <==> a[p.0] != a[p.1]
    ensures Permits(Diagonal(p), a) <==> Abs(a[p.0] - a[p.1]) != p.1 - p.0
  {
    assert Project([p.0, p.1], a) == [a[p.0], a[p.1]];
  }

  predicate PairsApart(pairs: seq<(nat, nat)>, pairwise: bool, a: seq<int>)
    requires forall k :: 0 <= k < |pairs| ==> pairs[k].0 < pairs[k].1 < |a|
  {
    forall k :: 0 <= k < |pairs| ==>
      var p := pairs[k];
      (pairwise ==> a[p.0] != a[p.1]) && Abs(a[p.0] - a[p.1]) != p.1 - p.0
  }

  lemma {:induction false} PairConstraintsMean(pairs: seq<(nat, nat)>, pairwise: bool, a: seq<int>)
    requires |a| <= INT64_MAX && forall k :: 0 <= k < |pairs| ==> pairs[k].0 < pairs[k].1 < |a|
    ensures AllPermit(PairConstraints(pairs, pairwise), a) <==> PairsApart(pairs, pairwise, a)
  {
    hide Permits;
    if pairs != [] {
      var p, rest := pairs[0], pairs[1..];
      PairPermits(p, a);
      PairConstraintsMean(rest, pairwise, a);
      var here := (if pairwise then [NotEqualPair(p)] else []) + [Diagonal(p)];
      AllPermitJoins(here, PairConstraints(rest, pairwise), a);
      AllPermitJoins(if pairwise then [NotEqualPair(p)] else [], [Diagonal(p)], a);
      OnePermits(NotEqualPair(p), a);
      OnePermits(Diagonal(p), a);
      assert forall k :: 0 <= k < |rest| ==> rest[k] == pairs[k + 1];
    }
  }

  lemma OnePermits(c: WireConstraint, a: seq<int>)
    ensures AllPermit([c], a) <==> Permits(c, a)
    ensures AllPermit([], a)
  {
    hide Permits;
    assert [c][0] == c;
  }

  lemma AllPermitJoins(x: seq<WireConstraint>, y: seq<WireConstraint>, a: seq<int>)
    ensures AllPermit(x + y, a) <==> AllPermit(x, a) && AllPermit(y, a)
  {
    hide Permits;
    if AllPermit(x + y, a) {
      forall k | 0 <= k < |x| ensures Permits(x[k], a) { assert x[k] == (x + y)[k]; }
      forall k | 0 <= k < |y| ensures Permits(y[k], a) { assert y[k] == (x + y)[|x| + k]; }
    }
  }

  lemma AllRowsPermit(n: nat, a: seq<int>)
    requires |a| == n
    ensures Permits(AllDifferentRows(n), a) <==> Distinct(a)
  {
    assert Project(Indices(n), a) == a;
  }

  lemma PlacementAssigns(n: nat, a: seq<int>)
    requires n <= INT64_MAX
    ensures Assigns(Encoding(n, true).domains, a) <==> |a| == n && forall i :: 0 <= i < n ==> 0 <= a[i] < n
    ensures Encoding(n, true).domains == Encoding(n, false).domains
  {
    var cols := Columns(n);
    var domains := Encoding(n, true).domains;
    forall v: int ensures v in cols <==> 0 <= v < n {
      if 0 <= v < n { assert cols[v] == v; }
    }
    assert forall k :: 0 <= k < n ==> domains[k] == cols;
  }

  lemma ApartMeans(n: nat, pairwise: bool, a: seq<int>)
    requires |a| == n <= INT64_MAX
    ensures forall k :: 0 <= k < |Rows(0, n)| ==> Rows(0, n)[k].0 < Rows(0, n)[k].1 < |a|
    ensures PairsApart(Rows(0, n), pairwise, a)
            <==> (pairwise ==> Distinct(a)) && forall i, j :: 0 <= i < j < n ==> Abs(a[i] - a[j]) != j - i
  {
    hide Rows;
    var pairs := Rows(0, n);
    forall k | 0 <= k < |pairs| ensures pairs[k].0 < pairs[k].1 < n {
      InRows(0, n, pairs[k]);
    }
    if PairsApart(pairs, pairwise, a) {
      forall i: nat, j: nat | i < j < n
        ensures (pairwise ==> a[i] != a[j]) && Abs(a[i] - a[j]) != j - i
      {
        InRows(0, n, (i, j));
        var k :| 0 <= k < |pairs| && pairs[k] == (i, j);
      }
    }
  }

  /** Either encoding has the placements of n queens as its solutions. */
  lemma SolutionsArePlacements(n: nat, pairwise: bool, a: seq<int>)
    requires n <= INT64_MAX
    ensures Solves(Encoding(n, pairwise), a) <==> Placement(n, a)
  {
    hide Permits, PairConstraints, PairsApart, Rows;
    RowsAreOrdered(0, n);
    PlacementAssigns(n, a);
    if |a| == n {
      AllRowsPermit(n, a);
      ApartMeans(n, pairwise, a);
      PairConstraintsMean(Rows(0, n), pairwise, a);
      var first := if pairwise then [] else [AllDifferentRows(n)];
      AllPermitJoins(first, PairConstraints(Rows(0, n), pairwise), a);
      OnePermits(AllDifferentRows(n), a);
      assert Encoding(n, pairwise).constraints == first + PairConstraints(Rows(0, n), pairwise);
    }
  }

  /** So the two encodings have the same solutions, for every number of queens. */
  lemma EncodingsAgree(n: nat, a: seq<int>)
    requires n <= INT64_MAX
    ensures Solves(Encoding(n, true), a) <==> Solves(Encoding(n, false), a)
  {
    SolutionsArePlacements(n, true, a);
    SolutionsArePlacements(n, false, a);
  }

  // ---------------------------------------------------------------- validity

  lemma {:induction false} PairConstraintsFaultless(
      pairs: seq<(nat, nat)>, pairwise: bool, domains: seq<seq<int>>)
    requires |domains| <= INT64_MAX && forall k :: 0 <= k < |pairs| ==> pairs[k].0 < pairs[k].1 < |domains|
    requires forall i, j :: 0 <= i < |domains| && 0 <= j < |domains| ==> DifferencesFit(domains[i], domains[j])
    ensures FirstFault(PairConstraints(pairs, pairwise), domains) == None
  {
    hide DifferencesFit;
    if pairs != [] {
      PairConstraintsFaultless(pairs[1..], pairwise, domains);
      var c, d := NotEqualPair(pairs[0]), Diagonal(pairs[0]);
      assert Fault(c, domains) == None && Fault(d, domains) == None;
      FaultlessJoins((if pairwise then [c] else []) + [d], PairConstraints(pairs[1..], pairwise), domains);
    }
  }

  lemma FaultlessJoins(x: seq<WireConstraint>, y: seq<WireConstraint>, domains: seq<seq<int>>)
    ensures FirstFault(x + y, domains) == None
            <==> FirstFault(x, domains) == None && FirstFault(y, domains) == None
  {
    hide Fault;
    if FirstFault(x + y, domains) == None {
      forall k | 0 <= k < |x| ensures Fault(x[k], domains) == None { assert x[k] == (x + y)[k]; }
      forall k | 0 <= k < |y| ensures Fault(y[k], domains) == None { assert y[k] == (x + y)[|x| + k]; }
    }
  }

  lemma AllRowsFault(n: nat, domains: seq<seq<int>>)
    requires |domains| == n
    ensures FirstFault([AllDifferentRows(n)], domains) == None <==> n >= 2
  {
    var c := AllDifferentRows(n);
    assert [c][0] == c;
    assert Fault(c, domains) == None <==> n >= 2;
  }

  lemma ColumnsFit(n: nat)
    requires n <= INT64_MAX
    ensures DifferencesFit(Columns(n), Columns(n))
  {}

  /**
   * Validation accepts an encoding exactly when it is the pairwise one or there are two rows:
   * for a single queen the default encoding is refused.
   */
  lemma EncodingValidExactly(n: nat, pairwise: bool)
    requires 1 <= n <= INT64_MAX
    ensures Validity(Encoding(n, pairwise)) == None <==> pairwise || n >= 2
  {
    hide Fault, DifferencesFit, PairConstraints, Rows;
    var w := Encoding(n, pairwise);
    var domains: seq<seq<int>> := w.domains;
    RowsAreOrdered(0, n);
    ColumnsFit(n);
    assert forall k :: 0 <= k < n ==> domains[k] == Columns(n);
    assert [] !in w.domains;
    forall k | 0 <= k < |Rows(0, n)| ensures Rows(0, n)[k].0 < Rows(0, n)[k].1 < n {
      InRows(0, n, Rows(0, n)[k]);
    }
    PairConstraintsFaultless(Rows(0, n), pairwise, domains);
    AllRowsFault(n, domains);
    var first := if pairwise then [] else [AllDifferentRows(n)];
    FaultlessJoins(first, PairConstraints(Rows(0, n), pairwise), domains);
  }
}
