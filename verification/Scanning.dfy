/** Runs of characters at the front of a text. */
module Scanning {

  /** How many characters at the front of `s` satisfy `p`. */
  function Span(p: char -> bool, s: string): (n: nat)
    ensures n <= |s|
    ensures forall k :: 0 <= k < n ==> p(s[k])
    ensures n < |s| ==> !p(s[n])
  {
    if s == [] || !p(s[0]) then 0 else 1 + Span(p, s[1..])
  }

  lemma {:induction false} SpanOfRun(p: char -> bool, run: string, rest: string)
    requires forall k :: 0 <= k < |run| ==> p(run[k])
    requires rest != [] ==> !p(rest[0])
    ensures Span(p, run + rest) == |run|
  {
    if run == [] {
      assert run + rest == rest;
    } else {
      assert (run + rest)[1..] == run[1..] + rest;
      SpanOfRun(p, run[1..], rest);
    }
  }
}
