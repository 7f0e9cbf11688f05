/** The pairs of indices `i < j` below `n`, in the order two nested loops visit them. */
module Pairs {

  function Row(i: nat, j: nat, n: nat): seq<(nat, nat)>
    decreases n - j
  {
    if j >= n then [] else [(i, j)] + Row(i, j + 1, n)
  }

  function Rows(i: nat, n: nat): seq<(nat, nat)>
    decreases n - i
  {
    if i >= n then [] else Row(i, i + 1, n) + Rows(i + 1, n)
  }

  lemma {:induction false} InRow(i: nat, j: nat, n: nat, p: (nat, nat))
    ensures p in Row(i, j, n) <==> p.0 == i && j <= p.1 < n
    decreases n - j
  {
    if j < n {
      InRow(i, j + 1, n, p);
    }
  }

  /** Exactly the ordered pairs are visited. */
  lemma {:induction false} InRows(i: nat, n: nat, p: (nat, nat))
    ensures p in Rows(i, n) <==> i <= p.0 < p.1 < n
    decreases n - i
  {
    if i < n {
      InRow(i, i + 1, n, p);
      InRows(i + 1, n, p);
    }
  }
}
