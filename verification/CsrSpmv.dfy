/** Sparse matrix times vector, tile by tile: rows per program, chunks of a row, lanes of a chunk. */
module CsrSpmv {
  import opened DivMod

  /** Compressed sparse rows: row `r` holds the entries from `rowPtr[r]` up to `rowPtr[r + 1]`. */
  datatype Csr = Csr(rowPtr: seq<nat>, cols: seq<nat>, vals: seq<real>) {
    function Rows(): int { |rowPtr| - 1 }
  }

  ghost predicate WellFormed(m: Csr, x: seq<real>) {
    && |m.cols| == |m.vals|
    && (forall i, j | 0 <= i <= j < |m.rowPtr| :: m.rowPtr[i] <= m.rowPtr[j])
    && (forall i | 0 <= i < |m.rowPtr| :: m.rowPtr[i] <= |m.vals|)
    && (forall k | 0 <= k < |m.cols| :: m.cols[k] < |x|)
  }

  /** The reference: entries `lo` up to `hi`, each times its element of the vector. */
  function Dot(m: Csr, x: seq<real>, lo: nat, hi: nat): real
    requires WellFormed(m, x) && lo <= hi <= |m.vals|
    decreases hi - lo
  {
    if lo == hi then 0.0 else Dot(m, x, lo, hi - 1) + m.vals[hi - 1] * x[m.cols[hi - 1]]
  }

  /** Element `r` of the product. */
  function Product(m: Csr, x: seq<real>, r: nat): real
    requires WellFormed(m, x) && r < m.Rows()
  {
    Dot(m, x, m.rowPtr[r], m.rowPtr[r + 1])
  }

  // What the reference means: the matrix as a whole, zeros included.

  /** What entries `lo` up to `hi` add to column `c`; a column may be given more than once. */
  function InColumn(m: Csr, lo: nat, hi: nat, c: nat): real
    requires lo <= hi <= |m.vals| == |m.cols|
    decreases hi - lo
  {
    if lo == hi then 0.0 else InColumn(m, lo, hi - 1, c) + if m.cols[hi - 1] == c then m.vals[hi - 1] else 0.0
  }

  /** Row times vector over the first `n` columns. */
  function ColumnSum(m: Csr, x: seq<real>, lo: nat, hi: nat, n: nat): real
    requires lo <= hi <= |m.vals| == |m.cols| && n <= |x|
    decreases n
  {
    if n == 0 then 0.0 else ColumnSum(m, x, lo, hi, n - 1) + InColumn(m, lo, hi, n - 1) * x[n - 1]
  }

  lemma {:induction false} EmptyColumns(m: Csr, x: seq<real>, lo: nat, n: nat)
    requires lo <= |m.vals| == |m.cols| && n <= |x|
    ensures ColumnSum(m, x, lo, lo, n) == 0.0
    decreases n
  {
    if n > 0 {
      EmptyColumns(m, x, lo, n - 1);
      assert InColumn(m, lo, lo, n - 1) == 0.0;
    }
  }

  /** One more entry adds its value times the vector at its column, and nothing anywhere else. */
  lemma {:induction false} OneMoreEntry(m: Csr, x: seq<real>, lo: nat, hi: nat, n: nat)
    requires lo < hi <= |m.vals| == |m.cols| && n <= |x|
    ensures ColumnSum(m, x, lo, hi, n)
         == ColumnSum(m, x, lo, hi - 1, n) + if m.cols[hi - 1] < n then m.vals[hi - 1] * x[m.cols[hi - 1]] else 0.0
    decreases n
  {
    if n > 0 {
      OneMoreEntry(m, x, lo, hi, n - 1);
      var c := n - 1;
      var before, added := InColumn(m, lo, hi - 1, c), if m.cols[hi - 1] == c then m.vals[hi - 1] else 0.0;
      assert InColumn(m, lo, hi, c) == before + added;
      SumTimes(before, added, x[c]);
    }
  }

  lemma SumTimes(a: real, b: real, c: real)
    ensures (a + b) * c == a * c + b * c
  {
  }

  lemma {:induction false} DotIsColumnSum(m: Csr, x: seq<real>, lo: nat, hi: nat)
    requires WellFormed(m, x) && lo <= hi <= |m.vals|
    ensures Dot(m, x, lo, hi) == ColumnSum(m, x, lo, hi, |x|)
    decreases hi - lo
  {
    if lo == hi {
      EmptyColumns(m, x, lo, |x|);
    } else {
      DotIsColumnSum(m, x, lo, hi - 1);
      OneMoreEntry(m, x, lo, hi, |x|);
    }
  }

  /** The matrix element in row `r` and column `c`: the sum of the row's entries there, zero if there are none. */
  function Element(m: Csr, r: nat, c: nat): real
    requires r < m.Rows() && m.rowPtr[r] <= m.rowPtr[r + 1] <= |m.vals| == |m.cols|
  {
    InColumn(m, m.rowPtr[r], m.rowPtr[r + 1], c)
  }

  function DenseRow(m: Csr, x: seq<real>, r: nat, n: nat): real
    requires r < m.Rows() && m.rowPtr[r] <= m.rowPtr[r + 1] <= |m.vals| == |m.cols| && n <= |x|
    decreases n
  {
    if n == 0 then 0.0 else DenseRow(m, x, r, n - 1) + Element(m, r, n - 1) * x[n - 1]
  }

  lemma {:induction false} DenseRowIsColumnSum(m: Csr, x: seq<real>, r: nat, n: nat)
    requires WellFormed(m, x) && r < m.Rows() && n <= |x|
    ensures DenseRow(m, x, r, n) == ColumnSum(m, x, m.rowPtr[r], m.rowPtr[r + 1], n)
    decreases n
  {
    if n > 0 { DenseRowIsColumnSum(m, x, r, n - 1); }
  }

  /** So an element of the product is the dense row times the vector, over every column. */
  lemma ProductIsDense(m: Csr, x: seq<real>, r: nat)
    requires WellFormed(m, x) && r + 1 < |m.rowPtr|
    ensures Product(m, x, r) == DenseRow(m, x, r, |x|)
  {
    DotIsColumnSum(m, x, m.rowPtr[r], m.rowPtr[r + 1]);
    DenseRowIsColumnSum(m, x, r, |x|);
  }

  /** One row of a tile as a program sees it; a row past the end is masked off and empty. */
  datatype Slot = Slot(row: nat, live: bool, start: nat, len: nat)

  function SlotOf(m: Csr, row: nat): Slot
    requires forall i | 0 <= i < m.Rows() :: m.rowPtr[i] <= m.rowPtr[i + 1]
  {
    if row < m.Rows() then Slot(row, true, m.rowPtr[row], m.rowPtr[row + 1] - m.rowPtr[row])
    else Slot(row, false, 0, 0)
  }

  /** A live slot is a whole row; a masked one is empty. */
  ghost predicate InRow(m: Csr, s: Slot) {
    s.start + s.len <= |m.vals| && (!s.live ==> s.len == 0)
  }

  /** One lane: a load outside the row's range is masked off and counts as zero. */
  function Lane(m: Csr, x: seq<real>, s: Slot, k: nat): real
    requires WellFormed(m, x) && InRow(m, s)
  {
    if k < s.len && s.live then
      var idx := s.start + k;
      m.vals[idx] * x[m.cols[idx]]
    else 0.0 * 0.0
  }

  /** The reduction of one row's lanes `base` up to `base + lanes`. */
  function ChunkSum(m: Csr, x: seq<real>, s: Slot, base: nat, lanes: nat): real
    requires WellFormed(m, x) && InRow(m, s)
    decreases lanes
  {
    if lanes == 0 then 0.0 else ChunkSum(m, x, s, base, lanes - 1) + Lane(m, x, s, base + lanes - 1)
  }

  /** The row's first `k` entries, or all of them. */
  function FirstEntries(m: Csr, x: seq<real>, s: Slot, k: nat): real
    requires WellFormed(m, x) && InRow(m, s)
  {
    Dot(m, x, s.start, s.start + if k < s.len then k else s.len)
  }

  function WholeRow(m: Csr, x: seq<real>, s: Slot): real
    requires WellFormed(m, x) && InRow(m, s)
  {
    Dot(m, x, s.start, s.start + s.len)
  }

  /** A chunk adds exactly the row's entries that fall into it. */
  lemma {:induction false} ChunkAddsItsEntries(m: Csr, x: seq<real>, s: Slot, base: nat, lanes: nat)
    requires WellFormed(m, x) && InRow(m, s)
    ensures FirstEntries(m, x, s, base) + ChunkSum(m, x, s, base, lanes) == FirstEntries(m, x, s, base + lanes)
    decreases lanes
  {
    hide WellFormed;
    if lanes > 0 {
      ChunkAddsItsEntries(m, x, s, base, lanes - 1);
    }
  }

  function MaxLen(slots: seq<Slot>): (n: nat)
    ensures forall i | 0 <= i < |slots| :: slots[i].len <= n
  {
    if slots == [] then 0
    else
      var n := MaxLen(slots[1..]);
      assert forall i | 1 <= i < |slots| :: slots[i] == slots[1..][i - 1];
      if slots[0].len > n then slots[0].len else n
  }

  /** Walks all rows of a tile together, chunk by chunk, as far as the widest one needs. */
  method Accumulate(m: Csr, x: seq<real>, slots: seq<Slot>, block: nat) returns (acc: seq<real>)
    requires WellFormed(m, x) && block > 0
    requires forall i | 0 <= i < |slots| :: InRow(m, slots[i])
    ensures |acc| == |slots|
    ensures forall i | 0 <= i < |slots| :: acc[i] == WholeRow(m, x, slots[i])
  {
    hide WellFormed, ChunkSum, Dot;
    var maxLen := MaxLen(slots);
    acc := seq(|slots|, i => 0.0);
    forall i | 0 <= i < |slots| ensures FirstEntries(m, x, slots[i], 0) == 0.0 { EmptyDot(m, x, slots[i].start); }
    var base := 0;
    while base < maxLen
      invariant |acc| == |slots|
      invariant forall i | 0 <= i < |slots| :: acc[i] == FirstEntries(m, x, slots[i], base)
    {
      forall i | 0 <= i < |slots|
        ensures acc[i] + ChunkSum(m, x, slots[i], base, block) == FirstEntries(m, x, slots[i], base + block)
      {
        ChunkAddsItsEntries(m, x, slots[i], base, block);
      }
      acc := seq(|slots|, i requires 0 <= i < |slots| => acc[i] + ChunkSum(m, x, slots[i], base, block));
      base := base + block;
    }
  }

  lemma EmptyDot(m: Csr, x: seq<real>, lo: nat)
    requires WellFormed(m, x) && lo <= |m.vals|
    ensures Dot(m, x, lo, lo) == 0.0
  {
  }

  lemma SlotIsRow(m: Csr, x: seq<real>, row: nat)
    requires WellFormed(m, x)
    ensures InRow(m, SlotOf(m, row))
    ensures SlotOf(m, row).live ==> WholeRow(m, x, SlotOf(m, row)) == Product(m, x, row)
  {
  }

  /** One program computes and stores the rows of its own tile, and stores nothing else. */
  method RunProgram(m: Csr, x: seq<real>, pid: nat, tile: nat, block: nat, y: array<real>)
    requires WellFormed(m, x) && tile > 0 && block > 0
    requires y.Length == m.Rows()
    modifies y
    ensures forall r | 0 <= r < y.Length ::
      y[r] == if Owns(pid, tile, r) then Product(m, x, r) else old(y[r])
  {
    var first := pid * tile;
    var slots := seq(tile, i requires i >= 0 => SlotOf(m, first + i));
    forall i | 0 <= i < tile
      ensures slots[i] == SlotOf(m, first + i) && InRow(m, slots[i])
    {
      SlotIsRow(m, x, first + i);
    }
    var acc := Accumulate(m, x, slots, block);
    forall i | 0 <= i < tile
      ensures slots[i].live <==> first + i < y.Length
      ensures slots[i].live ==> acc[i] == Product(m, x, first + i)
    {
      SlotIsRow(m, x, first + i);
    }
    hide WellFormed, Dot, InRow, Product, SlotOf;
    for i := 0 to tile
      invariant forall r | 0 <= r < y.Length ::
        y[r] == if first <= r < first + i then Product(m, x, r) else old(y[r])
    {
      if slots[i].live {
        y[first + i] := acc[i];
      }
    }
  }

  /** Row `r` lies in the tile of program `pid`. */
  predicate Owns(pid: nat, tile: nat, r: nat) { pid * tile <= r < pid * tile + tile }

  /** Every row lies in exactly one tile of the grid. */
  lemma EachRowHasOneOwner(tile: nat, rows: nat, r: nat)
    requires tile > 0 && r < rows
    ensures r / tile < CeilDiv(rows, tile) && forall pid: nat :: Owns(pid, tile, r) <==> pid == r / tile
  {
    assert r == r / tile * tile + r % tile;
    forall pid: nat
      ensures Owns(pid, tile, r) <==> pid == r / tile
    {
      if Owns(pid, tile, r) { Quotient(r, tile, pid, r - pid * tile); }
    }
    CeilDivCovers(rows, tile);
    LessByFactor(r / tile, CeilDiv(rows, tile), tile);
  }

  /** The programs of a grid in some order: all of them, each once. */
  ghost predicate IsSchedule(order: seq<nat>, grid: nat) {
    && (forall i | 0 <= i < |order| :: order[i] < grid)
    && (forall i, k | 0 <= i < k < |order| :: order[i] != order[k])
    && (forall pid: nat | pid < grid :: pid in order)
  }

  /** The whole grid, its programs in any order. */
  method Launch(m: Csr, x: seq<real>, tile: nat, block: nat, order: seq<nat>, y: array<real>)
    requires WellFormed(m, x) && tile > 0 && block > 0
    requires y.Length == m.Rows() && IsSchedule(order, CeilDiv(y.Length, tile))
    modifies y
    ensures forall r | 0 <= r < y.Length :: y[r] == Product(m, x, r)
  {
    hide WellFormed, Dot, CeilDiv, Product;
    forall r | 0 <= r < y.Length
      ensures r / tile in order && forall pid: nat :: Owns(pid, tile, r) <==> pid == r / tile
    {
      EachRowHasOneOwner(tile, y.Length, r);
    }
    hide Owns;
    for i := 0 to |order|
      invariant forall r | 0 <= r < y.Length && r / tile in order[..i] :: y[r] == Product(m, x, r)
    {
      RunProgram(m, x, order[i], tile, block, y);
    }
  }

  /**
   The host call. Whatever tile shape the tuner picks and in whatever order the programs run, the
   result is the product; a matrix without rows gives the empty vector, one without entries zeros.
   */
  method Multiply(m: Csr, x: seq<real>, tile: nat, block: nat, order: seq<nat>) returns (y: array<real>)
    requires WellFormed(m, x) && tile > 0 && block > 0
    requires m.Rows() > 0 ==> IsSchedule(order, CeilDiv(m.Rows(), tile))
    ensures y.Length == if |m.rowPtr| <= 1 then 0 else |m.rowPtr| - 1
    ensures forall r | 0 <= r < y.Length :: y[r] == Product(m, x, r)
  {
    if m.Rows() <= 0 {
      y := new real[0];
      return;
    }
    y := new real[m.Rows()];
    if |m.vals| == 0 {
      forall r | 0 <= r < y.Length { y[r] := 0.0; }
      forall r | 0 <= r < y.Length ensures Product(m, x, r) == 0.0 { EmptyDot(m, x, m.rowPtr[r]); }
      return;
    }
    Launch(m, x, tile, block, order, y);
  }
}
