/**
 The path sums of the Monte Carlo kernel. A path's discounted payoff is a function of its draw, and
 its draw of its global index alone. The lemmas on blocks hold for any payoff per index.
 */
module MonteCarlo {
  import opened DivMod
  import opened CounterRng
  import opened PathWords

  /** The draw of a path: the counter is its index, the key comes from the seed. */
  function Draw(seed: bv64, i: nat): bv64 { CounterU64(CounterU64(seed, 0), Word(i)) }

  /**
   A draw is two rounds of the mix under the seed: undoing the outer round under the index, and then the
   inner one under zero, gives the seed back.
   */
  lemma DrawUndone(seed: bv64, i: nat)
    ensures Keyed(UnSplitMix64(Keyed(UnSplitMix64(Draw(seed, i)), SplitMix64(Word(i)))), SplitMix64(0)) == seed
  {
    hide SplitMix64, UnSplitMix64, Keyed, Word;
    var key := CounterU64(seed, 0);
    MixUndone(Keyed(key, SplitMix64(Word(i))));
    KeyedBack(key, SplitMix64(Word(i)));
    MixUndone(Keyed(seed, SplitMix64(0)));
    KeyedBack(seed, SplitMix64(0));
  }

  lemma KeyedBack(key: bv64, w: bv64)
    ensures Keyed(Keyed(key, w), w) == key
  {
  }

  /** Under one seed no two paths share a draw. */
  lemma PathsDrawApart(seed: bv64, i: nat, j: nat)
    requires i < TWO64 && j < TWO64 && i != j
    ensures Draw(seed, i) != Draw(seed, j)
  {
    hide SplitMix64, Keyed, Word;
    if i < j { WordsDiffer(i, j); } else { WordsDiffer(j, i); }
    DrawsNeverCollide(CounterU64(seed, 0), Word(i), Word(j));
  }

  /** Two seeds never share a draw at one path. */
  lemma SeedsDrawApart(seed: bv64, other: bv64, i: nat)
    requires seed != other
    ensures Draw(seed, i) != Draw(other, i)
  {
    hide SplitMix64, UnSplitMix64, Keyed, Word, Draw;
    DrawUndone(seed, i);
    DrawUndone(other, i);
  }

  /** The payoff of each path; `pay` turns a draw into a discounted payoff. */
  function PathPayoff(pay: bv64 -> real, seed: bv64): nat -> real { (i: nat) => pay(Draw(seed, i)) }

  /** The reference: paths `lo` up to `hi`, one after the other. */
  function PathSum(payoff: nat -> real, lo: nat, hi: nat): real
    requires lo <= hi
    decreases hi - lo
  {
    if lo == hi then 0.0 else PathSum(payoff, lo, hi - 1) + payoff(hi - 1)
  }

  /** One lane of a program: paths past the end are masked off. */
  function Lane(payoff: nat -> real, paths: nat, i: nat): real {
    if i < paths then payoff(i) else 0.0
  }

  function LaneSum(payoff: nat -> real, paths: nat, first: nat, lanes: nat): real
    decreases lanes
  {
    if lanes == 0 then 0.0 else LaneSum(payoff, paths, first, lanes - 1) + Lane(payoff, paths, first + lanes - 1)
  }

  function Capped(i: nat, paths: nat): nat { if i < paths then i else paths }

  /** A program's lanes add exactly the paths of its block. */
  lemma {:induction false} LanesAreABlock(payoff: nat -> real, paths: nat, first: nat, lanes: nat)
    ensures PathSum(payoff, 0, Capped(first, paths)) + LaneSum(payoff, paths, first, lanes)
         == PathSum(payoff, 0, Capped(first + lanes, paths))
    decreases lanes
  {
    if lanes > 0 {
      LanesAreABlock(payoff, paths, first, lanes - 1);
    }
  }

  function Squared(payoff: nat -> real): nat -> real { (i: nat) => payoff(i) * payoff(i) }

  function SquareSum(payoff: nat -> real, paths: nat, first: nat, lanes: nat): real
    decreases lanes
  {
    if lanes == 0 then 0.0
    else
      var v := Lane(payoff, paths, first + lanes - 1);
      SquareSum(payoff, paths, first, lanes - 1) + v * v
  }

  /** Masking before squaring is the same as squaring the masked sum's terms. */
  lemma {:induction false} SquaresAreLanes(payoff: nat -> real, paths: nat, first: nat, lanes: nat)
    ensures SquareSum(payoff, paths, first, lanes) == LaneSum(Squared(payoff), paths, first, lanes)
    decreases lanes
  {
    if lanes > 0 {
      SquaresAreLanes(payoff, paths, first, lanes - 1);
    }
  }

  /** What a lane adds, by the key its program made. */
  lemma LanePays(pay: bv64 -> real, seed: bv64, paths: nat, i: nat)
    ensures Lane(PathPayoff(pay, seed), paths, i)
         == if i < paths then pay(CounterU64(CounterU64(seed, 0), Word(i))) else 0.0
  {
    hide SplitMix64, Keyed;
    assert Draw(seed, i) == CounterU64(CounterU64(seed, 0), Word(i));
    assert PathPayoff(pay, seed)(i) == pay(Draw(seed, i));
  }

  /** The lanes of one program: it makes its own key from the seed and draws every lane under that key. */
  method RunLanes(pay: bv64 -> real, seed: bv64, paths: nat, first: nat, block: nat) returns (sum: real, square: real)
    ensures sum == LaneSum(PathPayoff(pay, seed), paths, first, block)
    ensures square == SquareSum(PathPayoff(pay, seed), paths, first, block)
  {
    hide CounterU64, Word, PathPayoff, Lane;
    var key := CounterU64(seed, 0);
    sum, square := 0.0, 0.0;
    for k := 0 to block
      invariant sum == LaneSum(PathPayoff(pay, seed), paths, first, k)
      invariant square == SquareSum(PathPayoff(pay, seed), paths, first, k)
    {
      var bits := CounterU64(key, Word(first + k));
      var payoff := if first + k < paths then pay(bits) else 0.0;
      LanePays(pay, seed, paths, first + k);
      sum, square := sum + payoff, square + payoff * payoff;
    }
  }

  /** One program stores the two partial sums of its block. */
  method RunProgram(pay: bv64 -> real, seed: bv64, paths: nat, block: nat, pid: nat, sums: array<real>, squares: array<real>)
    requires pid < sums.Length == squares.Length && sums != squares
    modifies sums, squares
    ensures forall k | 0 <= k < sums.Length ::
      && sums[k] == (if k == pid then LaneSum(PathPayoff(pay, seed), paths, pid * block, block) else old(sums[k]))
      && squares[k] == (if k == pid then LaneSum(Squared(PathPayoff(pay, seed)), paths, pid * block, block) else old(squares[k]))
  {
    hide PathPayoff, LaneSum, SquareSum, Squared;
    SquaresAreLanes(PathPayoff(pay, seed), paths, pid * block, block);
    sums[pid], squares[pid] := RunLanes(pay, seed, paths, pid * block, block);
  }

  /** The host's reduction of the partial sums. */
  method Total(parts: array<real>, payoff: nat -> real, paths: nat, block: nat) returns (total: real)
    requires block > 0
    requires forall k | 0 <= k < parts.Length :: parts[k] == LaneSum(payoff, paths, k * block, block)
    ensures total == PathSum(payoff, 0, Capped(parts.Length * block, paths))
  {
    total := 0.0;
    for k := 0 to parts.Length
      invariant total == PathSum(payoff, 0, Capped(k * block, paths))
    {
      LanesAreABlock(payoff, paths, k * block, block);
      assert k * block + block == (k + 1) * block;
      total := total + parts[k];
    }
  }

  /**
   The price does not depend on how the paths are cut into blocks: whatever the block size, the two
   totals are the plain sums of every path's payoff, each path paying by the draw of its own index.
   */
  method PriceSums(pay: bv64 -> real, seed: bv64, paths: nat, block: nat)
    returns (total: real, totalSquares: real)
    requires block > 0
    ensures total == PathSum(PathPayoff(pay, seed), 0, paths)
    ensures totalSquares == PathSum(Squared(PathPayoff(pay, seed)), 0, paths)
  {
    hide Draw, LaneSum, PathSum, CeilDiv;
    var payoff := PathPayoff(pay, seed);
    var blocks := CeilDiv(paths, block);
    CeilDivCovers(paths, block);
    var sums, squares := new real[blocks], new real[blocks];
    for pid := 0 to blocks
      invariant forall k | 0 <= k < pid ::
        && sums[k] == LaneSum(payoff, paths, k * block, block)
        && squares[k] == LaneSum(Squared(payoff), paths, k * block, block)
    {
      RunProgram(pay, seed, paths, block, pid, sums, squares);
    }
    total := Total(sums, payoff, paths, block);
    totalSquares := Total(squares, Squared(payoff), paths, block);
  }
}
