/**
 * Splitting a constraint problem by its first variables: the numbered prefixes and the sub-problem
 * each one leaves. Together the sub-problems cover every assignment; no assignment is in two of
 * them exactly when no value is repeated in a domain, which validation does not check.
 */
module CspPartition {
  import opened Wrappers
  import opened Csp
  import DivMod

  const UINT64_MAX: int := 0xFFFF_FFFF_FFFF_FFFF

  /** The number of prefixes over the first `k` domains. */
  function Product(domains: seq<seq<int>>, k: nat): (p: nat)
    requires k <= |domains|
  {
    if k == 0 then 1 else Product(domains, k - 1) * |domains[k - 1]|
  }

  predicate NoneEmpty(domains: seq<seq<int>>) {
    forall k :: 0 <= k < |domains| ==> domains[k] != []
  }

  lemma {:induction false} ProductGrows(domains: seq<seq<int>>, i: nat, k: nat)
    requires i <= k <= |domains| && NoneEmpty(domains)
    ensures 1 <= Product(domains, i) <= Product(domains, k)
    decreases i + k
  {
    if i < k {
      ProductGrows(domains, i, k - 1);
      Grows(Product(domains, k - 1), |domains[k - 1]|);
    } else if k > 0 {
      ProductGrows(domains, k - 1, k - 1);
      Grows(Product(domains, k - 1), |domains[k - 1]|);
    }
  }

  lemma Grows(a: nat, b: nat)
    requires b >= 1
    ensures a <= a * b
  {
    DivMod.AtLeastOnce(b, a);
  }

  /** `prefix_count` on a number of fixed variables. */
  function PrefixCount(w: WireCsp, fixedVars: nat): Result<nat> {
    if Validity(w).Some? then Err(Validity(w).value)
    else if fixedVars > |w.domains| then Err(DomainError)
    else if Product(w.domains, fixedVars) > UINT64_MAX then Err(OverflowError)
    else Ok(Product(w.domains, fixedVars))
  }

  lemma ValidHasNoneEmpty(w: WireCsp)
    requires Validity(w) == None
    ensures NoneEmpty(w.domains)
  {}

  /** The loop of `prefix_count`: the running product is tested before it can wrap. */
  method CountPrefixes(w: WireCsp, fixedVars: nat) returns (r: Result<nat>)
    ensures r == PrefixCount(w, fixedVars)
  {
    hide Validity;
    var fault := Validate(w);
    if fault.Some? {
      return Err(fault.value);
    }
    if fixedVars > |w.domains| {
      return Err(DomainError);
    }
    ValidHasNoneEmpty(w);
    var total := 1;
    for i := 0 to fixedVars
      invariant total == Product(w.domains, i) <= UINT64_MAX
    {
      var size := |w.domains[i]|;
      DivMod.GuardByQuotient(total, size, UINT64_MAX);
      if total > UINT64_MAX / size {
        ProductGrows(w.domains, i + 1, fixedVars);
        return Err(OverflowError);
      }
      total := total * size;
    }
    return Ok(total);
  }

  /** An index taken apart: what the earlier places make of it, and the place in the last domain. */
  function High(index: nat, size: nat): nat
    requires size > 0
  {
    index / size
  }

  function Low(index: nat, size: nat): (r: nat)
    requires size > 0
    ensures r < size
  {
    index % size
  }

  /** The `index`-th prefix over the first `k` domains, the last varying fastest. */
  function Decode(domains: seq<seq<int>>, k: nat, index: nat): (r: seq<int>)
    requires k <= |domains| && NoneEmpty(domains)
    ensures |r| == k && forall i :: 0 <= i < k ==> r[i] in domains[i]
  {
    if k == 0 then []
    else
      var d := domains[k - 1];
      Decode(domains, k - 1, High(index, |d|)) + [d[Low(index, |d|)]]
  }

  lemma DecodeUnfolds(domains: seq<seq<int>>, k: nat, index: nat)
    requires 1 <= k <= |domains| && NoneEmpty(domains)
    ensures var size := |domains[k - 1]|;
            && Decode(domains, k, index)
               == Decode(domains, k - 1, High(index, size)) + [domains[k - 1][Low(index, size)]]
            && Decode(domains, k, index)[..k - 1] == Decode(domains, k - 1, High(index, size))
            && Decode(domains, k, index)[k - 1] == domains[k - 1][Low(index, size)]
  {}

  function PrefixAssignment(w: WireCsp, fixedVars: nat, index: nat): Result<seq<int>> {
    match PrefixCount(w, fixedVars)
    case Err(error) => Err(error)
    case Ok(total) =>
      if index >= total then Err(DomainError)
      else ValidHasNoneEmpty(w); Ok(Decode(w.domains, fixedVars, index))
  }

  /** `prefix_assignment`: fills the prefix from its last place. */
  method AssignPrefix(w: WireCsp, fixedVars: nat, index: nat) returns (r: Result<seq<int>>)
    ensures r == PrefixAssignment(w, fixedVars, index)
  {
    hide PrefixCount, Product, Decode, High, Low, Validity;
    var total := CountPrefixes(w, fixedVars);
    if total.Err? {
      return Err(total.error);
    }
    if index >= total.value {
      return Err(DomainError);
    }
    CountedIsValid(w, fixedVars);
    ValidHasNoneEmpty(w);
    var out := new int[fixedVars](_ => 0);
    var rest := index;
    assert out[fixedVars..] == [];
    for i := fixedVars downto 0
      invariant Decode(w.domains, i, rest) + out[i..] == Decode(w.domains, fixedVars, index)
    {
      var d := w.domains[i];
      ghost var tail := out[i + 1..];
      DecodeUnfolds(w.domains, i + 1, rest);
      out[i] := d[Low(rest, |d|)];
      rest := High(rest, |d|);
      assert out[i..] == [out[i]] + tail;
    }
    assert Decode(w.domains, 0, rest) == [];
    assert [] + out[0..] == out[..];
    return Ok(out[..]);
  }

  lemma CountedIsValid(w: WireCsp, fixedVars: nat)
    requires PrefixCount(w, fixedVars).Ok?
    ensures Validity(w) == None && fixedVars <= |w.domains|
  {}

  // ---------------------------------------------------------------- numbering prefixes

  /** Places, one in each of the first `k` domains. */
  predicate Places(domains: seq<seq<int>>, k: nat, places: seq<nat>)
    requires k <= |domains|
  {
    |places| == k && forall i :: 0 <= i < k ==> places[i] < |domains[i]|
  }

  /** The index at which a choice of places comes up. */
  function Rank(domains: seq<seq<int>>, k: nat, places: seq<nat>): nat
    requires k <= |domains| && Places(domains, k, places)
  {
    if k == 0 then 0
    else Rank(domains, k - 1, places[..k - 1]) * |domains[k - 1]| + places[k - 1]
  }

  function ValuesAt(domains: seq<seq<int>>, k: nat, places: seq<nat>): (r: seq<int>)
    requires k <= |domains| && Places(domains, k, places)
  {
    seq(k, i requires 0 <= i < k => domains[i][places[i]])
  }

  /** Every choice of places has its index, below the count, and is decoded from it. */
  lemma {:induction false} RankDecodes(domains: seq<seq<int>>, k: nat, places: seq<nat>)
    requires k <= |domains| && NoneEmpty(domains) && Places(domains, k, places)
    ensures Rank(domains, k, places) < Product(domains, k)
    ensures Decode(domains, k, Rank(domains, k, places)) == ValuesAt(domains, k, places)
  {
    if k > 0 {
      var front, size := places[..k - 1], |domains[k - 1]|;
      RankDecodes(domains, k - 1, front);
      var high := Rank(domains, k - 1, front);
      DivMod.Quotient(high * size + places[k - 1], size, high, places[k - 1]);
      Below(high, Product(domains, k - 1), size, places[k - 1]);
      assert ValuesAt(domains, k, places) == ValuesAt(domains, k - 1, front) + [domains[k - 1][places[k - 1]]];
    }
  }

  lemma Below(high: nat, count: nat, size: nat, low: nat)
    requires high < count && low < size
    ensures high * size + low < count * size
  {
    DivMod.Distribute(count, high, size);
    DivMod.AtLeastOnce(count - high, size);
  }

  /** Every index decodes from some choice of places, of which it is the rank. */
  lemma {:induction false} IndexHasPlaces(domains: seq<seq<int>>, k: nat, index: nat) returns (places: seq<nat>)
    requires k <= |domains| && NoneEmpty(domains) && index < Product(domains, k)
    ensures Places(domains, k, places) && Rank(domains, k, places) == index
  {
    if k == 0 {
      places := [];
    } else {
      var size := |domains[k - 1]|;
      QuotientBelow(index, Product(domains, k - 1), size);
      var front := IndexHasPlaces(domains, k - 1, High(index, size));
      places := front + [Low(index, size)];
      assert places[..k - 1] == front;
    }
  }

  lemma QuotientBelow(index: nat, count: nat, size: nat)
    requires size > 0 && index < count * size
    ensures High(index, size) < count && index == High(index, size) * size + Low(index, size)
  {
    var q := index / size;
    if q >= count {
      DivMod.Distribute(q, count, size);
      DivMod.AtLeastZero(q - count, size);
    }
  }

  /** Indices and choices of places correspond: an index decodes to the values at one choice, its own. */
  lemma IndexChoosesUniquely(domains: seq<seq<int>>, k: nat, index: nat) returns (places: seq<nat>)
    requires k <= |domains| && NoneEmpty(domains) && index < Product(domains, k)
    ensures Places(domains, k, places) && Rank(domains, k, places) == index
    ensures Decode(domains, k, index) == ValuesAt(domains, k, places)
    ensures forall other: seq<nat> :: Places(domains, k, other) && Rank(domains, k, other) == index ==> other == places
  {
    hide Places, Rank, Decode, ValuesAt, NoneEmpty;
    places := IndexHasPlaces(domains, k, index);
    RankDecodes(domains, k, places);
    forall other: seq<nat> | Places(domains, k, other) && Rank(domains, k, other) == index
      ensures other == places
    {
      RankSeparates(domains, k, other, places);
    }
  }

  /** No prefix is missed: every choice of values has an index below the count. */
  lemma NoPrefixIsMissed(domains: seq<seq<int>>, k: nat, prefix: seq<int>) returns (index: nat)
    requires k <= |domains| && NoneEmpty(domains)
    requires |prefix| == k && forall i :: 0 <= i < k ==> prefix[i] in domains[i]
    ensures index < Product(domains, k) && Decode(domains, k, index) == prefix
  {
    var places := PlacesOf(domains, k, prefix);
    index := Rank(domains, k, places);
    RankDecodes(domains, k, places);
  }

  lemma {:induction false} PlacesOf(domains: seq<seq<int>>, k: nat, prefix: seq<int>) returns (places: seq<nat>)
    requires k <= |domains|
    requires |prefix| == k && forall i :: 0 <= i < k ==> prefix[i] in domains[i]
    ensures Places(domains, k, places) && ValuesAt(domains, k, places) == prefix
  {
    if k == 0 {
      places := [];
    } else {
      var front := PlacesOf(domains, k - 1, prefix[..k - 1]);
      var p: nat :| p < |domains[k - 1]| && domains[k - 1][p] == prefix[k - 1];
      places := front + [p];
      assert forall i :: 0 <= i < k - 1 ==> ValuesAt(domains, k - 1, front)[i] == prefix[i];
    }
  }

  ghost predicate NoRepeats(domains: seq<seq<int>>, k: nat)
    requires k <= |domains|
  {
    forall i :: 0 <= i < k ==> Distinct(domains[i])
  }

  ghost predicate NeverTwice(domains: seq<seq<int>>, k: nat)
    requires k <= |domains| && NoneEmpty(domains)
  {
    forall a: nat, b: nat :: a < b < Product(domains, k) ==> Decode(domains, k, a) != Decode(domains, k, b)
  }

  lemma OnePrefixOfNone(domains: seq<seq<int>>)
    ensures Product(domains, 0) == 1
  {}

  lemma ProductUnfolds(domains: seq<seq<int>>, k: nat)
    requires 1 <= k <= |domains|
    ensures Product(domains, k) == Product(domains, k - 1) * |domains[k - 1]|
  {}

  lemma {:induction false} SameIndexIfNoRepeats(domains: seq<seq<int>>, k: nat, a: nat, b: nat)
    requires k <= |domains| && NoneEmpty(domains) && NoRepeats(domains, k)
    requires a < Product(domains, k) && b < Product(domains, k)
    requires Decode(domains, k, a) == Decode(domains, k, b)
    ensures a == b
  {
    if k > 0 {
      hide Decode, High, Low, Product;
      var d, size := domains[k - 1], |domains[k - 1]|;
      ProductUnfolds(domains, k);
      QuotientBelow(a, Product(domains, k - 1), size);
      QuotientBelow(b, Product(domains, k - 1), size);
      DecodeUnfolds(domains, k, a);
      DecodeUnfolds(domains, k, b);
      assert Distinct(d);
      assert Low(a, size) == Low(b, size);
      SameIndexIfNoRepeats(domains, k - 1, High(a, size), High(b, size));
    }
  }

  lemma {:induction false} RankSeparates(domains: seq<seq<int>>, k: nat, a: seq<nat>, b: seq<nat>)
    requires k <= |domains| && Places(domains, k, a) && Places(domains, k, b)
    requires Rank(domains, k, a) == Rank(domains, k, b)
    ensures a == b
  {
    if k > 0 {
      var size := |domains[k - 1]|;
      var x, y := Rank(domains, k - 1, a[..k - 1]), Rank(domains, k - 1, b[..k - 1]);
      DivMod.Quotient(x * size + a[k - 1], size, x, a[k - 1]);
      DivMod.Quotient(y * size + b[k - 1], size, y, b[k - 1]);
      RankSeparates(domains, k - 1, a[..k - 1], b[..k - 1]);
      assert a == a[..k - 1] + [a[k - 1]] && b == b[..k - 1] + [b[k - 1]];
    }
  }

  /** A repeated value gives the same prefix two indices. */
  lemma RepeatComesTwice(domains: seq<seq<int>>, k: nat, i: nat, p: nat, q: nat)
    requires i < k <= |domains| && NoneEmpty(domains)
    requires p < q < |domains[i]| && domains[i][p] == domains[i][q]
    ensures !NeverTwice(domains, k)
  {
    var zeros := seq(k, j => 0);
    var x, y := zeros[i := p], zeros[i := q];
    RankDecodes(domains, k, x);
    RankDecodes(domains, k, y);
    assert ValuesAt(domains, k, x) == ValuesAt(domains, k, y);
    var a, b := Rank(domains, k, x), Rank(domains, k, y);
    assert x[i] == p && y[i] == q;
    if a == b {
      RankSeparates(domains, k, x, y);
    } else if a < b {
      assert !NeverTwice(domains, k);
    } else {
      assert !NeverTwice(domains, k);
    }
  }

  /** No prefix comes up twice exactly when the fixed domains hold no value twice. */
  lemma NeverTwiceExactly(domains: seq<seq<int>>, k: nat)
    requires k <= |domains| && NoneEmpty(domains)
    ensures NeverTwice(domains, k) <==> NoRepeats(domains, k)
  {
    if NoRepeats(domains, k) {
      forall a: nat, b: nat | a < b < Product(domains, k)
        ensures Decode(domains, k, a) != Decode(domains, k, b)
      {
        if Decode(domains, k, a) == Decode(domains, k, b) {
          SameIndexIfNoRepeats(domains, k, a, b);
        }
      }
    } else {
      var i: nat :| i < k && !Distinct(domains[i]);
      var p: nat, q: nat :| p < q < |domains[i]| && domains[i][p] == domains[i][q];
      RepeatComesTwice(domains, k, i, p, q);
    }
  }

  /** Validation accepts a domain that repeats a value, and then a prefix does come up twice. */
  lemma ValidCanRepeat()
    ensures var w := WireCsp([[0, 0]], []);
            Validity(w) == None && NoneEmpty(w.domains) && !NeverTwice(w.domains, 1)
  {
    var w := WireCsp([[0, 0]], []);
    RepeatComesTwice(w.domains, 1, 0, 0, 1);
  }

  // ---------------------------------------------------------------- order

  predicate Ascending(s: seq<int>) {
    forall i, j :: 0 <= i < j < |s| ==> s[i] < s[j]
  }

  ghost predicate LexLess(x: seq<int>, y: seq<int>)
    requires |x| == |y|
  {
    exists j :: 0 <= j < |x| && x[..j] == y[..j] && x[j] < y[j]
  }

  lemma LongerLexLess(x: seq<int>, y: seq<int>, p: int, q: int)
    requires |x| == |y| && (LexLess(x, y) || (x == y && p < q))
    ensures LexLess(x + [p], y + [q])
  {
    var u, v := x + [p], y + [q];
    if x == y {
      assert u[..|x|] == v[..|x|] && u[|x|] < v[|x|];
    } else {
      var j :| 0 <= j < |x| && x[..j] == y[..j] && x[j] < y[j];
      assert u[..j] == x[..j] && v[..j] == y[..j];
    }
  }

  /** Ascending indices are ascending prefixes, when the domains are ascending. */
  lemma {:induction false} IndexOrderIsLexicographic(domains: seq<seq<int>>, k: nat, a: nat, b: nat)
    requires k <= |domains| && NoneEmpty(domains)
    requires forall i :: 0 <= i < k ==> Ascending(domains[i])
    requires a < b < Product(domains, k)
    ensures LexLess(Decode(domains, k, a), Decode(domains, k, b))
  {
    hide Decode, LexLess, High, Low, Product;
    if k == 0 {
      OnePrefixOfNone(domains);
    } else {
      var d, size := domains[k - 1], |domains[k - 1]|;
      ProductUnfolds(domains, k);
      QuotientBelow(a, Product(domains, k - 1), size);
      QuotientBelow(b, Product(domains, k - 1), size);
      DecodeUnfolds(domains, k, a);
      DecodeUnfolds(domains, k, b);
      if High(a, size) < High(b, size) {
        IndexOrderIsLexicographic(domains, k - 1, High(a, size), High(b, size));
      } else {
        SameQuotient(a, b, size);
        assert Ascending(d);
      }
      LongerLexLess(Decode(domains, k - 1, High(a, size)), Decode(domains, k - 1, High(b, size)),
                    d[Low(a, size)], d[Low(b, size)]);
    }
  }

  lemma SameQuotient(a: nat, b: nat, size: nat)
    requires size > 0 && a < b && High(a, size) >= High(b, size)
    ensures High(a, size) == High(b, size) && Low(a, size) < Low(b, size)
  {
    var p, q := a / size, b / size;
    assert a == p * size + a % size && b == q * size + b % size;
    DivMod.Distribute(p, q, size);
    if p > q {
      DivMod.AtLeastOnce(p - q, size);
    }
  }

  // ---------------------------------------------------------------- sub-problems

  /**
   * Which splits are refused: of a problem that is not valid, over more variables than there are, into
   * more prefixes than 64 unsigned bits count; and of the others every index below the count has a prefix.
   */
  lemma SplitsExactly(w: WireCsp, k: nat, index: nat)
    ensures var (count, prefix) := (PrefixCount(w, k), PrefixAssignment(w, k, index));
      if Validity(w).Some? then count == Err(Validity(w).value) && prefix == Err(Validity(w).value)
      else if k > |w.domains| then count == Err(DomainError) && prefix == Err(DomainError)
      else if Product(w.domains, k) >= 0x1_0000_0000_0000_0000 then
        count == Err(OverflowError) && prefix == Err(OverflowError)
      else
        && count == Ok(Product(w.domains, k))
        && (if index < Product(w.domains, k) then prefix.Ok? && |prefix.value| == k else prefix == Err(DomainError))
  {
    hide Product, Decode, Validity;
    if Validity(w) == None { ValidHasNoneEmpty(w); }
  }

  /** `restrict_prefix`: the first domains shrunk to the given values. */
  function Restrict(w: WireCsp, prefix: seq<Int64>): Result<WireCsp> {
    if Validity(w).Some? then Err(Validity(w).value)
    else if |prefix| > |w.domains| then Err(DomainError)
    else if exists i :: 0 <= i < |prefix| && prefix[i] !in w.domains[i] then Err(DomainError)
    else Ok(w.(domains := Narrowed(w.domains, prefix)))
  }

  function Narrowed(domains: seq<seq<Int64>>, prefix: seq<Int64>): (r: seq<seq<Int64>>)
    requires |prefix| <= |domains|
    ensures |r| == |domains|
  {
    seq(|domains|, i requires 0 <= i < |domains| => if i < |prefix| then [prefix[i]] else domains[i])
  }

  method RestrictPrefix(w: WireCsp, prefix: seq<Int64>) returns (r: Result<WireCsp>)
    ensures r == Restrict(w, prefix)
  {
    hide Validity;
    var fault := Validate(w);
    if fault.Some? {
      return Err(fault.value);
    }
    if |prefix| > |w.domains| {
      return Err(DomainError);
    }
    var domains := w.domains;
    for i := 0 to |prefix|
      invariant |domains| == |w.domains|
      invariant domains == Narrowed(w.domains, prefix[..i])
      invariant forall j :: 0 <= j < i ==> prefix[j] in w.domains[j]
    {
      if prefix[i] !in w.domains[i] {
        return Err(DomainError);
      }
      domains := domains[i := [prefix[i]]];
    }
    assert prefix[..|prefix|] == prefix;
    return Ok(w.(domains := domains));
  }

  /** The sub-problem's solutions are the problem's solutions that start with the prefix. */
  lemma RestrictionKeepsSolutions(w: WireCsp, prefix: seq<Int64>, a: seq<int>)
    requires Restrict(w, prefix).Ok?
    ensures Solves(Restrict(w, prefix).value, a) <==> Solves(w, a) && prefix <= a
  {
    hide Permits, Validity;
    var narrow := Narrowed(w.domains, prefix);
    if |a| == |w.domains| {
      if Assigns(narrow, a) {
        forall k | 0 <= k < |a| ensures a[k] in w.domains[k] && (k < |prefix| ==> a[k] == prefix[k]) {
          assert a[k] in narrow[k];
        }
      }
      if Assigns(w.domains, a) && prefix <= a {
        forall k | 0 <= k < |a| ensures a[k] in narrow[k] {
          assert a[k] in w.domains[k];
        }
      }
    }
  }

  /** Every sub-problem passes validation itself, so it can be shipped and solved on its own. */
  lemma RestrictionIsValid(w: WireCsp, prefix: seq<Int64>)
    requires Restrict(w, prefix).Ok?
    ensures Validity(Restrict(w, prefix).value) == None
  {
    var narrow := Narrowed(w.domains, prefix);
    assert [] !in narrow;
    forall k | 0 <= k < |w.constraints| ensures Fault(w.constraints[k], narrow) == None {
      assert Fault(w.constraints[k], w.domains) == None;
      NarrowingKeepsFaultless(w.constraints[k], w.domains, narrow);
    }
  }

  ghost predicate Within(narrow: seq<seq<int>>, domains: seq<seq<int>>) {
    |narrow| == |domains| && forall i, v :: 0 <= i < |domains| && v in narrow[i] ==> v in domains[i]
  }

  lemma NarrowingKeepsFaultless(c: WireConstraint, domains: seq<seq<int>>, narrow: seq<seq<int>>)
    requires Fault(c, domains) == None && Within(narrow, domains)
    ensures Fault(c, narrow) == None
  {
    hide LinearBound, Distinct;
    if Linear(c.kind) {
      NarrowingLowersBound(c, domains, narrow, |c.scope|);
    }
  }

  lemma {:induction false} NarrowingLowersBound(c: WireConstraint, domains: seq<seq<int>>, narrow: seq<seq<int>>, k: nat)
    requires Within(narrow, domains) && InRange(c.scope, |domains|)
    requires k <= |c.scope| && k <= |c.params| && LinearBound(c, domains, k).Some?
    ensures LinearBound(c, narrow, k).Some?
    ensures LinearBound(c, narrow, k).value <= LinearBound(c, domains, k).value
  {
    hide TermBound;
    if k > 0 {
      NarrowingLowersBound(c, domains, narrow, k - 1);
      NarrowingLowersTerm(c.params[k - 1], domains[c.scope[k - 1]], narrow[c.scope[k - 1]]);
    }
  }

  lemma NarrowingLowersTerm(coef: int, domain: seq<int>, narrow: seq<int>)
    requires forall v :: v in narrow ==> v in domain
    requires TermBound(coef, domain).Some?
    ensures TermBound(coef, narrow).Some?
    ensures TermBound(coef, narrow).value <= TermBound(coef, domain).value
  {
    if coef != 0 {
      MaxAbsWithin(narrow, domain);
      DivMod.AtLeastZero(MaxAbs(domain) - MaxAbs(narrow), Abs(coef));
      DivMod.Distribute(MaxAbs(domain), MaxAbs(narrow), Abs(coef));
    }
  }

  lemma MaxAbsWithin(narrow: seq<int>, domain: seq<int>)
    requires forall v :: v in narrow ==> v in domain
    ensures MaxAbs(narrow) <= MaxAbs(domain)
  {
    if narrow == [] {
      assert MaxAbs(narrow) == 0;
    } else {
      var k :| 0 <= k < |narrow| && Abs(narrow[k]) == MaxAbs(narrow);
      assert narrow[k] in domain;
    }
  }

  /**
   * The partition: every assignment lies in the sub-problem of some index, the only one when the
   * fixed domains hold no value twice.
   */
  lemma EveryAssignmentIsCovered(w: WireCsp, k: nat, a: seq<int>) returns (index: nat)
    requires PrefixCount(w, k).Ok? && Assigns(w.domains, a)
    ensures k <= |a| && index < PrefixCount(w, k).value && PrefixAssignment(w, k, index) == Ok(a[..k])
    ensures NoRepeats(w.domains, k) ==>
              forall other: nat | other < PrefixCount(w, k).value && PrefixAssignment(w, k, other) == Ok(a[..k])
                :: other == index
  {
    hide Validity;
    CountedIsValid(w, k);
    ValidHasNoneEmpty(w);
    index := NoPrefixIsMissed(w.domains, k, a[..k]);
    if NoRepeats(w.domains, k) {
      forall other: nat | other < PrefixCount(w, k).value && PrefixAssignment(w, k, other) == Ok(a[..k])
        ensures other == index
      {
        SameIndexIfNoRepeats(w.domains, k, other, index);
      }
    }
  }

  /** The problem has a solution exactly when one of its numbered sub-problems has. */
  lemma SatisfiableByParts(w: WireCsp, k: nat)
    requires PrefixCount(w, k).Ok?
    ensures Satisfiable(w) <==>
              exists index: nat :: index < PrefixCount(w, k).value && PartSatisfiable(w, k, index)
  {
    hide Validity, Solves, Product;
    CountedIsValid(w, k);
    ValidHasNoneEmpty(w);
    if Satisfiable(w) {
      var a :| Solves(w, a);
      SolutionAssigns(w, a);
      var index := EveryAssignmentIsCovered(w, k, a);
      DecodedIsInt64(w.domains, k, index);
      PrefixIsAllowed(w, k, index);
      RestrictionKeepsSolutions(w, Decode(w.domains, k, index), a);
      assert PartSatisfiable(w, k, index);
    }
    if index: nat :| index < PrefixCount(w, k).value && PartSatisfiable(w, k, index) {
      DecodedIsInt64(w.domains, k, index);
      PrefixIsAllowed(w, k, index);
      var a :| Solves(Restrict(w, Decode(w.domains, k, index)).value, a);
      RestrictionKeepsSolutions(w, Decode(w.domains, k, index), a);
    }
  }

  lemma SolutionAssigns(w: WireCsp, a: seq<int>)
    requires Solves(w, a)
    ensures Assigns(w.domains, a)
  {}

  lemma DecodedIsInt64(domains: seq<seq<Int64>>, k: nat, index: nat)
    requires k <= |domains| && NoneEmpty(domains)
    ensures forall i :: 0 <= i < k ==> Fits(Decode(domains, k, index)[i])
  {
    forall i | 0 <= i < k ensures Fits(Decode(domains, k, index)[i]) {
      assert Decode(domains, k, index)[i] in domains[i];
      var j :| 0 <= j < |domains[i]| && domains[i][j] == Decode(domains, k, index)[i];
    }
  }

  lemma PrefixIsAllowed(w: WireCsp, k: nat, index: nat)
    requires Validity(w) == None && k <= |w.domains| && NoneEmpty(w.domains)
    requires forall i :: 0 <= i < k ==> Fits(Decode(w.domains, k, index)[i])
    ensures Restrict(w, Decode(w.domains, k, index)).Ok?
  {
    hide Validity, Decode;
  }

  /** The sub-problem of an index has a solution. */
  ghost predicate PartSatisfiable(w: WireCsp, k: nat, index: nat) {
    var prefix := PrefixAssignment(w, k, index);
    && prefix.Ok?
    && (forall i :: 0 <= i < |prefix.value| ==> Fits(prefix.value[i]))
    && Restrict(w, prefix.value).Ok?
    && Satisfiable(Restrict(w, prefix.value).value)
  }

  // ---------------------------------------------------------------- merging the parts

  /** No part below `index` has a solution, and the one at `index` has. */
  ghost predicate FirstPart(w: WireCsp, k: nat, index: nat) {
    PartSatisfiable(w, k, index) && forall i: nat :: i < index ==> !PartSatisfiable(w, k, i)
  }

  ghost predicate LexFirst(w: WireCsp, a: seq<int>) {
    Solves(w, a) && forall b :: Solves(w, b) && b != a ==> |b| == |a| && LexLess(a, b)
  }

  lemma SolutionsPart(w: WireCsp, k: nat, a: seq<int>) returns (index: nat)
    requires PrefixCount(w, k).Ok? && Solves(w, a)
    ensures k <= |a| && index < PrefixCount(w, k).value && PrefixAssignment(w, k, index) == Ok(a[..k])
    ensures PartSatisfiable(w, k, index)
  {
    hide Validity, Solves, Product;
    CountedIsValid(w, k);
    ValidHasNoneEmpty(w);
    SolutionAssigns(w, a);
    index := EveryAssignmentIsCovered(w, k, a);
    DecodedIsInt64(w.domains, k, index);
    PrefixIsAllowed(w, k, index);
    RestrictionKeepsSolutions(w, Decode(w.domains, k, index), a);
  }

  /** The prefix of the first part that has a solution comes before the prefix of every solution. */
  lemma FirstPartIsFirst(w: WireCsp, k: nat, index: nat, a: seq<int>)
    requires PrefixCount(w, k).Ok? && FirstPart(w, k, index) && Solves(w, a)
    requires forall i :: 0 <= i < k ==> Ascending(w.domains[i])
    ensures k <= |a| && PrefixAssignment(w, k, index).Ok?
    ensures var first := PrefixAssignment(w, k, index).value;
            |first| == k && (a[..k] == first || LexLess(first, a[..k]))
  {
    hide Validity, Solves, PartSatisfiable, Product, Decode, LexLess, Ascending;
    CountedIsValid(w, k);
    ValidHasNoneEmpty(w);
    var at := SolutionsPart(w, k, a);
    PartHasPrefix(w, k, index);
    PartHasPrefix(w, k, at);
    if index != at {
      assert index < at;
      IndexInRange(w, k, at);
      IndexOrderIsLexicographic(w.domains, k, index, at);
    }
  }

  lemma PartHasPrefix(w: WireCsp, k: nat, index: nat)
    requires PartSatisfiable(w, k, index)
    ensures PrefixAssignment(w, k, index).Ok?
  {
    hide Validity;
  }

  lemma IndexInRange(w: WireCsp, k: nat, index: nat)
    requires PrefixAssignment(w, k, index).Ok?
    ensures k <= |w.domains| && index < Product(w.domains, k)
  {
    hide Validity;
  }

  /** `a` is the lexicographically first solution of the part at `index`. */
  ghost predicate FirstOfPart(w: WireCsp, k: nat, index: nat, a: seq<int>) {
    var prefix := PrefixAssignment(w, k, index);
    && prefix.Ok?
    && (forall i :: 0 <= i < |prefix.value| ==> Fits(prefix.value[i]))
    && Restrict(w, prefix.value).Ok?
    && LexFirst(Restrict(w, prefix.value).value, a)
  }

  /**
   * The merge rule: with ascending fixed domains, the first solution of the part of lowest index that
   * has one is the lexicographically first solution of the whole problem.
   */
  lemma LowestIndexWins(w: WireCsp, k: nat, index: nat, a: seq<int>)
    requires PrefixCount(w, k).Ok? && FirstPart(w, k, index)
    requires forall i :: 0 <= i < k ==> Ascending(w.domains[i])
    requires FirstOfPart(w, k, index, a)
    ensures LexFirst(w, a)
  {
    hide Validity, Solves, PartSatisfiable, Ascending, Decode, Product, Restrict, PrefixAssignment, LexLess;
    var prefix := PrefixAssignment(w, k, index).value;
    var part := Restrict(w, prefix).value;
    RestrictionKeepsSolutions(w, prefix, a);
    forall b | Solves(w, b) && b != a ensures |b| == |a| && LexLess(a, b) {
      FirstPartIsFirst(w, k, index, b);
      FirstPartIsFirst(w, k, index, a);
      RestrictionKeepsSolutions(w, prefix, b);
      SolutionsAreLong(w, a, b);
      if b[..k] == prefix {
        assert prefix <= b;
      } else {
        assert a[..k] == prefix;
        PrefixDecides(a, b, k);
      }
    }
  }

  lemma SolutionsAreLong(w: WireCsp, a: seq<int>, b: seq<int>)
    requires Solves(w, a) && Solves(w, b)
    ensures |a| == |b|
  {}

  lemma PrefixDecides(a: seq<int>, b: seq<int>, k: nat)
    requires k <= |a| == |b| && LexLess(a[..k], b[..k])
    ensures LexLess(a, b)
  {
    var j :| 0 <= j < k && a[..k][..j] == b[..k][..j] && a[..k][j] < b[..k][j];
    assert a[..k][..j] == a[..j] && b[..k][..j] == b[..j];
  }
}
