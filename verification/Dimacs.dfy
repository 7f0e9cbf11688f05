/**
 * The DIMACS reader of the SAT compiler's command line.
 *
 * Lines are taken one at a time and read as a character stream: an integer is extracted by skipping
 * blanks and taking the longest run of an optional sign and digits. Extraction fails on anything
 * else, on a sign without digits and on a value that does not fit, and the stream remembers whether
 * it had reached the end of the line.
 */
module Dimacs {
  import opened Wrappers
  import opened Scanning
  import opened Decimal

  datatype Cnf = Cnf(numVars: nat, clauses: seq<seq<int>>)

  const INT64_MIN: int := -0x8000_0000_0000_0000
  const INT64_MAX: int := 0x7FFF_FFFF_FFFF_FFFF
  const TWO64: int := 0x1_0000_0000_0000_0000

  predicate IsBlank(c: char) {
    '\U{9}' <= c <= '\U{D}' || c == ' '
  }

  predicate IsInk(c: char) {
    !IsBlank(c)
  }

  predicate NotNewline(c: char) {
    c != '\n'
  }

  // ---------------------------------------------------------------- stream extraction

  /** An optional sign and the digits after it, with what follows. */
  datatype Numeral = Numeral(sign: string, digits: string, rest: string)

  function TrimLeft(s: string): (r: string)
    ensures |r| <= |s| && (r != [] ==> IsInk(r[0]))
  {
    s[Span(IsBlank, s)..]
  }

  function ScanNumeral(s: string): (r: Numeral)
    ensures s == r.sign + r.digits + r.rest
    ensures AllDigits(r.digits)
    ensures r.sign == "" || r.sign == "+" || r.sign == "-"
    ensures r.rest != [] ==> !IsDecimalDigit(r.rest[0])
    ensures r.sign == "" && r.digits == "" && r.rest != [] ==> r.rest[0] != '+' && r.rest[0] != '-'
  {
    var signed := s != [] && (s[0] == '+' || s[0] == '-');
    var tail := if signed then s[1..] else s;
    var n := Span(IsDecimalDigit, tail);
    Numeral(if signed then [s[0]] else [], tail[..n], tail[n..])
  }

  datatype Extraction<T> = Got(value: T, rest: string) | Failed(atEnd: bool)

  function SignedValue(n: Numeral): int
    requires AllDigits(n.digits)
  {
    var magnitude: int := ValueOf(n.digits);
    if n.sign == "-" then -magnitude else magnitude
  }

  /** `>>` into a signed 64-bit integer. */
  function ExtractInt(s: string): (r: Extraction<int>)
    ensures r.Got? ==> |r.rest| < |s|
  {
    var n := ScanNumeral(TrimLeft(s));
    if n.digits == "" || !(INT64_MIN <= SignedValue(n) <= INT64_MAX) then Failed(n.rest == "")
    else Got(SignedValue(n), n.rest)
  }

  /** `>>` into an unsigned 64-bit integer: a minus sign negates modulo 2^64. */
  function ExtractUnsigned(s: string): (r: Extraction<nat>)
    ensures r.Got? ==> r.value < TWO64
  {
    var n := ScanNumeral(TrimLeft(s));
    if n.digits == "" || ValueOf(n.digits) >= TWO64 then Failed(n.rest == "")
    else Got(if n.sign == "-" then (TWO64 - ValueOf(n.digits)) % TWO64 else ValueOf(n.digits), n.rest)
  }

  /** `>>` into a string. */
  function ExtractWord(s: string): Extraction<string>
  {
    var t := TrimLeft(s);
    var n := Span(IsInk, t);
    if t == [] then Failed(true) else Got(t[..n], t[n..])
  }

  // ---------------------------------------------------------------- lines

  datatype State = State(numVars: nat, clauses: seq<seq<int>>, current: seq<int>, seenHeader: bool)

  const START := State(0, [], [], false)

  /** The variable count of a header line. */
  function ReadHeader(line: string): (r: Option<nat>)
    ensures r.Some? ==> 1 <= r.value < TWO64
  {
    hide ExtractUnsigned, ExtractWord;
    var p := ExtractWord(line);
    if p.Failed? then None
    else
      var word := ExtractWord(p.rest);
      if word.Failed? then None
      else
        var vars := ExtractUnsigned(word.rest);
        if vars.Failed? then None
        else
          var clauses := ExtractUnsigned(vars.rest);
          if clauses.Failed? || word.value != "cnf" || vars.value == 0 then None else Some(vars.value)
  }

  /** A literal joins the clause being built; a zero stores it. */
  function Take(state: State, lit: int): State {
    if lit == 0 then state.(clauses := state.clauses + [state.current], current := [])
    else state.(current := state.current + [lit])
  }

  function ReadLiterals(s: string, state: State): Option<State>
    decreases |s|
  {
    match ExtractInt(s)
    case Got(lit, rest) => ReadLiterals(rest, Take(state, lit))
    case Failed(atEnd) => if atEnd then Some(state) else None
  }

  function ReadLine(line: string, state: State): Option<State> {
    if line == [] || line[0] == 'c' || line[0] == '%' then Some(state)
    else if line[0] == 'p' then
      match ReadHeader(line)
      case None => None
      case Some(vars) => Some(state.(numVars := vars, seenHeader := true))
    else if !state.seenHeader then None
    else ReadLiterals(line, state)
  }

  function LineOf(text: string): string {
    text[..Span(NotNewline, text)]
  }

  function AfterLine(text: string): (r: string)
    requires text != []
    ensures |r| < |text|
  {
    var n := Span(NotNewline, text);
    if n < |text| then text[n + 1..] else []
  }

  function ReadLines(text: string, state: State): Option<State>
    decreases |text|
  {
    if text == [] then Some(state)
    else
      match ReadLine(LineOf(text), state)
      case None => None
      case Some(next) => ReadLines(AfterLine(text), next)
  }

  function Finish(state: State): Option<Cnf> {
    if !state.seenHeader then None
    else Some(Cnf(state.numVars, if state.current == [] then state.clauses else state.clauses + [state.current]))
  }

  function Read(text: string): Option<Cnf> {
    match ReadLines(text, START)
    case None => None
    case Some(state) => Finish(state)
  }

  // ---------------------------------------------------------------- the reader's loops

  /** `read_dimacs`. */
  method ReadDimacs(text: string) returns (r: Option<Cnf>)
    ensures r == Read(text)
  {
    hide ReadHeader, ReadLiterals, LineOf, AfterLine;
    var numVars: nat, clauses: seq<seq<int>>, current: seq<int>, seenHeader := 0, [], [], false;
    var input := text;
    while input != []
      invariant ReadLines(input, State(numVars, clauses, current, seenHeader)) == ReadLines(text, START)
      decreases |input|
    {
      var line := LineOf(input);
      input := AfterLine(input);
      if line == [] || line[0] == 'c' || line[0] == '%' {
        continue;
      }
      if line[0] == 'p' {
        var header := ReadHeader(line);
        if header.None? {
          return None;
        }
        numVars := header.value;
        seenHeader := true;
        continue;
      }
      if !seenHeader {
        return None;
      }
      var ok;
      ok, clauses, current := ReadLiteralLine(line, numVars, clauses, current);
      if !ok {
        return None;
      }
    }
    if !seenHeader {
      return None;
    }
    if current != [] {
      clauses := clauses + [current];
    }
    return Some(Cnf(numVars, clauses));
  }

  /** The loop over one line of literals; `ok` is false when it stopped before the line's end. */
  method ReadLiteralLine(line: string, ghost numVars: nat, before: seq<seq<int>>, open: seq<int>)
    returns (ok: bool, clauses: seq<seq<int>>, current: seq<int>)
    ensures ReadLiterals(line, State(numVars, before, open, true))
            == if ok then Some(State(numVars, clauses, current, true)) else None
  {
    hide ScanNumeral, SignedValue, TrimLeft, ExtractInt;
    clauses, current := before, open;
    var s := line;
    while true
      invariant ReadLiterals(s, State(numVars, clauses, current, true))
                == ReadLiterals(line, State(numVars, before, open, true))
      decreases |s|
    {
      var lit := ExtractInt(s);
      if lit.Failed? {
        ok := lit.atEnd;
        break;
      }
      s := lit.rest;
      if lit.value == 0 {
        clauses := clauses + [current];
        current := [];
        continue;
      }
      current := current + [lit.value];
    }
  }

  // ---------------------------------------------------------------- what is stored

  /** The clauses with a zero after each, then the clause still open: the stream they came from. */
  function Stream(clauses: seq<seq<int>>, current: seq<int>): seq<int> {
    if clauses == [] then current else clauses[0] + [0] + Stream(clauses[1..], current)
  }

  predicate NoZeros(s: seq<int>) {
    forall k :: 0 <= k < |s| ==> s[k] != 0
  }

  predicate Clean(state: State) {
    && NoZeros(state.current)
    && (forall k :: 0 <= k < |state.clauses| ==> NoZeros(state.clauses[k]))
    && (state.seenHeader ==> 1 <= state.numVars < TWO64)
  }

  function TakeAll(state: State, lits: seq<int>): State
    decreases lits
  {
    if lits == [] then state else TakeAll(Take(state, lits[0]), lits[1..])
  }

  lemma TakeKeepsClean(state: State, lit: int)
    requires Clean(state)
    ensures Clean(Take(state, lit))
  {}

  lemma {:induction false} StreamGrows(clauses: seq<seq<int>>, current: seq<int>, more: seq<int>)
    ensures Stream(clauses, current + more) == Stream(clauses, current) + more
    ensures Stream(clauses + [current], []) == Stream(clauses, current) + [0]
  {
    if clauses == [] {
      assert [current][0] == current && [current][1..] == [];
      assert current + [0] + [] == current + [0];
    } else {
      StreamGrows(clauses[1..], current, more);
      var c, tail := clauses[0] + [0], Stream(clauses[1..], current);
      assert (clauses + [current])[1..] == clauses[1..] + [current];
      assert c + (tail + more) == c + tail + more;
      assert c + (tail + [0]) == c + tail + [0];
    }
  }

  /** Taking a literal appends it to the stream the state stands for. */
  lemma TakeStreams(state: State, lit: int)
    ensures Stream(Take(state, lit).clauses, Take(state, lit).current)
            == Stream(state.clauses, state.current) + [lit]
  {
    StreamGrows(state.clauses, state.current, [lit]);
  }

  lemma {:induction false} TakeAllStreams(state: State, lits: seq<int>)
    ensures var end := TakeAll(state, lits);
            && Stream(end.clauses, end.current) == Stream(state.clauses, state.current) + lits
            && end.numVars == state.numVars && end.seenHeader == state.seenHeader
    ensures Clean(state) ==> Clean(TakeAll(state, lits))
    decreases lits
  {
    hide Clean, Stream;
    if lits == [] {
    } else {
      TakeStreams(state, lits[0]);
      if Clean(state) {
        TakeKeepsClean(state, lits[0]);
      }
      TakeAllStreams(Take(state, lits[0]), lits[1..]);
      assert [lits[0]] + lits[1..] == lits;
      var prior := Stream(state.clauses, state.current);
      assert prior + [lits[0]] + lits[1..] == prior + lits;
    }
  }

  /** The literals a line of literals contributes, up to the first failed extraction. */
  function LiteralsOf(s: string): seq<int>
    decreases |s|
  {
    match ExtractInt(s)
    case Got(lit, rest) => [lit] + LiteralsOf(rest)
    case Failed(_) => []
  }

  lemma {:induction false} LineTakesItsLiterals(s: string, state: State)
    ensures ReadLiterals(s, state).Some? ==> ReadLiterals(s, state) == Some(TakeAll(state, LiteralsOf(s)))
    decreases |s|
  {
    hide ExtractInt, Take;
    match ExtractInt(s) {
      case Failed(_) =>
      case Got(lit, rest) =>
        LineTakesItsLiterals(rest, Take(state, lit));
        assert ([lit] + LiteralsOf(rest))[1..] == LiteralsOf(rest);
    }
  }

  /** The literals of a whole text: those of its literal lines, in order. */
  function AllLiterals(text: string): seq<int>
    decreases |text|
  {
    if text == [] then []
    else
      var line := LineOf(text);
      (if line == [] || line[0] in "c%p" then [] else LiteralsOf(line)) + AllLiterals(AfterLine(text))
  }

  lemma {:induction false} LinesTakeTheirLiterals(text: string, state: State)
    requires Clean(state)
    ensures ReadLines(text, state).Some? ==>
              var end := ReadLines(text, state).value;
              && Clean(end)
              && Stream(end.clauses, end.current) == Stream(state.clauses, state.current) + AllLiterals(text)
    decreases |text|
  {
    hide Clean, Stream, LineOf, AfterLine, ReadHeader, ReadLiterals, LiteralsOf, TakeAll;
    if text == [] {
      assert Stream(state.clauses, state.current) + [] == Stream(state.clauses, state.current);
    } else {
      var line, next := LineOf(text), ReadLine(LineOf(text), state);
      if next.Some? {
        LineIsTaken(line, state);
        LinesTakeTheirLiterals(AfterLine(text), next.value);
        var here := if line == [] || line[0] in "c%p" then [] else LiteralsOf(line);
        var prior := Stream(state.clauses, state.current);
        assert prior + here + AllLiterals(AfterLine(text)) == prior + (here + AllLiterals(AfterLine(text)));
      }
    }
  }

  lemma LineIsTaken(line: string, state: State)
    requires Clean(state) && ReadLine(line, state).Some?
    ensures var next := ReadLine(line, state).value;
            && Clean(next)
            && Stream(next.clauses, next.current) == Stream(state.clauses, state.current)
               + if line == [] || line[0] in "c%p" then [] else LiteralsOf(line)
  {
    hide Stream, ReadHeader, ReadLiterals, LiteralsOf, TakeAll;
    var prior := Stream(state.clauses, state.current);
    assert prior + [] == prior;
    if line != [] && line[0] !in "c%p" {
      LineTakesItsLiterals(line, state);
      TakeAllStreams(state, LiteralsOf(line));
    }
  }

  /**
   * Whatever is read: there is at least one variable, no stored clause holds a zero, and the
   * clauses with their terminators are the literals of the text up to one missing final zero.
   */
  lemma ReadKeepsTheStream(text: string)
    requires Read(text).Some?
    ensures var cnf := Read(text).value; var stream := Stream(cnf.clauses, []);
            && 1 <= cnf.numVars < TWO64
            && (forall k :: 0 <= k < |cnf.clauses| ==> NoZeros(cnf.clauses[k]))
            && (stream == AllLiterals(text)
                || (stream == AllLiterals(text) + [0] && |cnf.clauses[|cnf.clauses| - 1]| > 0))
  {
    hide Stream, ReadLines, AllLiterals;
    LinesTakeTheirLiterals(text, START);
    EmptyStream();
    assert [] + AllLiterals(text) == AllLiterals(text);
    var end := ReadLines(text, START).value;
    StreamGrows(end.clauses, end.current, []);
  }

  lemma EmptyStream()
    ensures Stream([], []) == []
  {}
}
