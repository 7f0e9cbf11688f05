/**
 * What follows from the grammar of DIMACS files: formulas survive any layout and printing, and the
 * one token that is dropped.
 */
module DimacsRoundTrip {
  import opened Wrappers
  import opened Decimal
  import opened Dimacs
  import opened DimacsLayout

  // ---------------------------------------------------------------- clauses and literals

  lemma {:induction false} ClauseIsCollected(state: State, clause: seq<int>)
    requires NoZeros(clause)
    ensures TakeAll(state, clause) == state.(current := state.current + clause)
    decreases clause
  {
    if clause == [] {
      assert state.current + clause == state.current;
    } else {
      ClauseIsCollected(Take(state, clause[0]), clause[1..]);
      assert state.current + [clause[0]] + clause[1..] == state.current + clause;
    }
  }

  /** Taking a stream rebuilds the clauses it was made of. */
  lemma {:induction false} StreamIsTaken(state: State, clauses: seq<seq<int>>, last: seq<int>)
    requires state.current == [] && NoZeros(last)
    requires forall k :: 0 <= k < |clauses| ==> NoZeros(clauses[k])
    ensures TakeAll(state, Stream(clauses, last))
            == state.(clauses := state.clauses + clauses, current := last)
    decreases clauses
  {
    hide NoZeros, TakeAll;
    if clauses == [] {
      ClauseIsCollected(state, last);
      assert state.clauses + clauses == state.clauses && [] + last == last;
    } else {
      var tail := Stream(clauses[1..], last);
      assert Stream(clauses, last) == clauses[0] + ([0] + tail);
      TakeAllJoins(state, clauses[0], [0] + tail);
      ClauseIsCollected(state, clauses[0]);
      assert [] + clauses[0] == clauses[0];
      var open := state.(current := clauses[0]);
      TakeAllJoins(open, [0], tail);
      TakeZero(open);
      var stored := state.(clauses := state.clauses + [clauses[0]]);
      StreamIsTaken(stored, clauses[1..], last);
      assert stored.clauses + clauses[1..] == state.clauses + clauses;
    }
  }

  lemma TakeZero(state: State)
    ensures TakeAll(state, [0]) == state.(clauses := state.clauses + [state.current], current := [])
  {
    assert TakeAll(Take(state, 0), []) == Take(state, 0);
  }

  /** The stream of the clauses without its last zero, the last clause not being empty. */
  predicate Unterminated(clauses: seq<seq<int>>, lits: seq<int>) {
    && clauses != [] && clauses[|clauses| - 1] != []
    && lits == Stream(clauses[..|clauses| - 1], clauses[|clauses| - 1])
  }

  /**
   * However the literals of a formula are spread over lines, and whatever lines to skip stand between,
   * the file reads as that formula. The zero after the last clause may be missing unless that clause
   * is empty.
   */
  lemma RoundTrip(cnf: Cnf, text: string, lines: seq<Line>)
    requires LaidOut(text, lines) && LastCount(lines, false, 0) == cnf.numVars
    requires forall k :: 0 <= k < |cnf.clauses| ==> NoZeros(cnf.clauses[k])
    requires LinesLiterals(lines, false) == Stream(cnf.clauses, [])
             || Unterminated(cnf.clauses, LinesLiterals(lines, false))
    ensures Read(text) == Some(cnf)
  {
    hide Stream, TakeAll, GoodLines, Ended, ShowLines, Read, LinesLiterals, LastCount, NoZeros;
    LayoutIsRead(text, lines);
    if LinesLiterals(lines, false) == Stream(cnf.clauses, []) {
      TerminatedIsTaken(cnf.clauses);
    } else {
      UnterminatedIsTaken(cnf.clauses, LinesLiterals(lines, false));
    }
  }

  lemma TerminatedIsTaken(clauses: seq<seq<int>>)
    requires forall k :: 0 <= k < |clauses| ==> NoZeros(clauses[k])
    ensures TakeAll(START, Stream(clauses, [])) == START.(clauses := clauses)
  {
    hide Stream, TakeAll, NoZeros;
    EmptyHasNoZeros();
    StreamIsTaken(START, clauses, []);
    assert [] + clauses == clauses;
  }

  lemma UnterminatedIsTaken(clauses: seq<seq<int>>, lits: seq<int>)
    requires forall k :: 0 <= k < |clauses| ==> NoZeros(clauses[k])
    requires Unterminated(clauses, lits)
    ensures var n := |clauses| - 1;
            TakeAll(START, lits) == START.(clauses := clauses[..n], current := clauses[n])
            && clauses[..n] + [clauses[n]] == clauses
  {
    hide Stream, TakeAll, NoZeros;
    var n := |clauses| - 1;
    StreamIsTaken(START, clauses[..n], clauses[n]);
    assert [] + clauses[..n] == clauses[..n];
  }

  lemma EmptyHasNoZeros()
    ensures NoZeros([])
  {}

  /**
   * Whatever is read, the clauses with their terminators are the whole numerals of the file, in
   * order, up to one missing final zero, and no clause holds a zero; a cut numeral is not among them.
   */
  lemma LayoutKeepsTheStream(text: string, lines: seq<Line>)
    requires LaidOut(text, lines)
    ensures Read(text).Some?
    ensures var cnf := Read(text).value; var stream := Stream(cnf.clauses, []);
            && cnf.numVars == LastCount(lines, false, 0) >= 1
            && (forall k :: 0 <= k < |cnf.clauses| ==> NoZeros(cnf.clauses[k]))
            && (stream == LinesLiterals(lines, false)
                || (stream == LinesLiterals(lines, false) + [0] && |cnf.clauses[|cnf.clauses| - 1]| > 0))
  {
    hide Stream, TakeAll, GoodLines, Ended, ShowLines, Read, LinesLiterals, LastCount, Clean;
    LayoutIsRead(text, lines);
    ReadKeepsTheStream(text);
    var lits := LinesLiterals(lines, false);
    TakeAllStreams(START, lits);
    EmptyStream();
    assert [] + lits == lits;
    var end := TakeAll(START, lits);
    StreamGrows(end.clauses, end.current, []);
  }

  // ---------------------------------------------------------------- printing

  /** A literal as it is usually printed. */
  function Printed(pad: string, lit: int): Figure {
    Figure(pad, if lit < 0 then "-" else "", ShowNat(if lit < 0 then -lit else lit))
  }

  lemma PrintedHasItsValue(pad: string, lit: int)
    requires Pad(pad) && -TWO64 < lit < TWO64
    ensures Spelled(Printed(pad, lit)) && Printed(pad, lit).digits != "" && Value(Printed(pad, lit)) == lit
    ensures INT64_MIN <= lit <= INT64_MAX ==> Whole(Printed(pad, lit))
    ensures 0 <= lit ==> Count(Printed(pad, lit)) && CountValue(Printed(pad, lit)) == lit
  {
    hide ShowNat, ValueOf, Pad;
    ShownNatHasItsValue(if lit < 0 then -lit else lit);
  }

  function PrintedFigures(lits: seq<int>): (r: seq<Figure>)
    ensures |r| == |lits|
  {
    if lits == [] then [] else [Printed(" ", lits[0])] + PrintedFigures(lits[1..])
  }

  predicate InRange(lits: seq<int>) {
    forall k :: 0 <= k < |lits| ==> -9_223_372_036_854_775_808 <= lits[k] <= 9_223_372_036_854_775_807
  }

  lemma {:induction false} PrintedFiguresAreGood(lits: seq<int>, first: bool)
    requires InRange(lits)
    ensures GoodFigures(PrintedFigures(lits), first)
    ensures forall k :: 0 <= k < |lits| ==> Spelled(PrintedFigures(lits)[k])
    ensures Values(PrintedFigures(lits)) == lits
  {
    hide Spelled, Whole, Value;
    if lits != [] {
      SpaceIsPad();
      PrintedHasItsValue(" ", lits[0]);
      PrintedFiguresAreGood(lits[1..], false);
      var figures := PrintedFigures(lits);
      assert figures[1..] == PrintedFigures(lits[1..]);
      assert [lits[0]] + lits[1..] == lits;
    }
  }

  lemma SpaceIsPad()
    ensures Pad(" ")
  {}

  function PrintedClauses(clauses: seq<seq<int>>): seq<Line> {
    if clauses == [] then []
    else [Literals(PrintedFigures(clauses[0] + [0]), Blanks(""))] + PrintedClauses(clauses[1..])
  }

  /** One header, then one line for each clause. */
  function PrintedLines(cnf: Cnf): seq<Line> {
    [Header(Heading("p", " ", Printed(" ", cnf.numVars), Printed(" ", |cnf.clauses|), ""))]
    + PrintedClauses(cnf.clauses)
  }

  function Print(cnf: Cnf): string {
    ShowLines(PrintedLines(cnf))
  }

  predicate Printable(cnf: Cnf) {
    && 1 <= cnf.numVars < 18_446_744_073_709_551_616 && |cnf.clauses| < 18_446_744_073_709_551_616
    && forall k :: 0 <= k < |cnf.clauses| ==> NoZeros(cnf.clauses[k]) && InRange(cnf.clauses[k])
  }

  lemma {:induction false} PrintedClausesAreGood(clauses: seq<seq<int>>, count: nat)
    requires forall k :: 0 <= k < |clauses| ==> InRange(clauses[k])
    ensures GoodLines(PrintedClauses(clauses), true)
    ensures LinesLiterals(PrintedClauses(clauses), true) == Stream(clauses, [])
    ensures LastCount(PrintedClauses(clauses), true, count) == count
  {
    hide GoodFigures, InRange, PrintedFigures;
    if clauses != [] {
      ZeroInRange(clauses[0]);
      PrintedFiguresAreGood(clauses[0] + [0], true);
      CnfIsInk();
      PrintedClausesAreGood(clauses[1..], count);
      var lines := PrintedClauses(clauses);
      assert lines[1..] == PrintedClauses(clauses[1..]);
    }
  }

  lemma ZeroInRange(lits: seq<int>)
    requires InRange(lits)
    ensures InRange(lits + [0])
  {}

  lemma PrintedHeadingIsGood(cnf: Cnf)
    requires Printable(cnf)
    ensures GoodHeading(PrintedLines(cnf)[0].heading)
    ensures CountValue(PrintedLines(cnf)[0].heading.vars) == cnf.numVars
  {
    hide Count, CountValue, Spelled, ShowNat;
    SpaceIsPad();
    PIsInk();
    PrintedHasItsValue(" ", cnf.numVars);
    PrintedHasItsValue(" ", |cnf.clauses|);
  }

  /** Printing a formula and reading it gives it back. */
  lemma PrintReadsBack(cnf: Cnf)
    requires Printable(cnf)
    ensures Read(Print(cnf)) == Some(cnf)
  {
    hide GoodHeading, NoZeros, InRange, Read, Stream, ShowLine, CountValue;
    var lines := PrintedLines(cnf);
    PrintedHeadingIsGood(cnf);
    PrintedClausesAreGood(cnf.clauses, cnf.numVars);
    assert lines[1..] == PrintedClauses(cnf.clauses);
    assert [] + LinesLiterals(lines[1..], true) == LinesLiterals(lines[1..], true);
    LinesEnd(lines);
    RoundTrip(cnf, Print(cnf), lines);
  }

  lemma {:induction false} LinesEnd(lines: seq<Line>)
    ensures Ended(ShowLines(lines)) == ShowLines(lines)
  {
    hide ShowLine;
    if lines != [] {
      LinesEnd(lines[1..]);
    }
  }

  // ---------------------------------------------------------------- the token that is dropped

  /** A line of literals loses a token exactly if its layout ends in a cut numeral. */
  lemma DroppedExactly(figures: seq<Figure>, ending: Ending, state: State)
    requires GoodFigures(figures, true) && GoodEnding(ending, figures == [])
    ensures TrimLeft(Leftover(ShowFigures(figures) + ShowEnding(ending))) != "" <==> ending.CutShort?
  {
    hide TrimLeft, Leftover, Pad, Cut;
    FiguresRead(figures, ending, true, state);
    match ending {
      case Blanks(tail) => BlankIsTheEnd(tail);
      case CutShort(figure) => CutFails(figure);
    }
  }

  /** Every cut numeral is dropped: a number too large, with or without a sign, or a sign alone. */
  lemma OverflowIsDropped(pad: string, sign: string, digits: string, state: State)
    requires Pad(pad) && AllDigits(digits) && (sign == "" || sign == "+" || sign == "-")
    requires if digits == "" then sign != "" else ValueOf(digits) > INT64_MAX + 1
    ensures ReadLiterals(pad + (sign + digits), state) == Some(state)
  {
    hide ValueOf, Pad, ExtractInt;
    CutFails(Figure(pad, sign, digits));
  }

  /** So a file whose one clause is a number too large reads as the formula with no clause. */
  lemma OverflowGivesTheEmptyFormula(h: Heading, digits: string)
    requires GoodHeading(h) && AllDigits(digits) && digits != "" && ValueOf(digits) > INT64_MAX + 1
    ensures Read(ShowHeading(h) + "\n" + (digits + "\n")) == Some(Cnf(CountValue(h.vars), []))
  {
    hide GoodHeading, ShowHeading, CountValue, ValueOf, AllDigits, Stream, Read;
    HeadingCounts(h);
    var f := Figure("", "", digits);
    var dropped := Literals([], CutShort(f));
    var lines := [Header(h), dropped];
    CnfIsInk();
    CutByOverflow(digits);
    assert lines[1..] == [dropped];
    CutLineAlone(f, CountValue(h.vars));
    assert LinesLiterals(lines, false) == [];
    LinesEnd(lines);
    EmptyStream();
    RoundTrip(Cnf(CountValue(h.vars), []), ShowLines(lines), lines);
  }

  /** A line of nothing but a cut numeral holds no literal and no header. */
  lemma CutLineAlone(f: Figure, count: nat)
    requires Cut(f)
    ensures var lines := [Literals([], CutShort(f))];
            && GoodLines(lines, true) && LinesLiterals(lines, true) == [] && LastCount(lines, true, count) == count
            && ShowLines(lines) == ShowFigure(f) + "\n"
  {
    hide Cut, ShowFigure;
    var line := Literals([], CutShort(f));
    assert [line][1..] == [];
    assert GoodLine(line, true) && LineLiterals(line, true) == [];
    assert GoodLines([], true) && GoodLines([line], true);
    assert LinesLiterals([], true) == [] && LastCount([], true, count) == count && ShowLines([]) == "";
  }

  lemma HeadingCounts(h: Heading)
    requires GoodHeading(h)
    ensures Count(h.vars)
  {}

  lemma CutByOverflow(digits: string)
    requires AllDigits(digits) && digits != "" && ValueOf(digits) > INT64_MAX + 1
    ensures Cut(Figure("", "", digits)) && ShowFigure(Figure("", "", digits)) == digits
  {
    hide ValueOf;
    CnfIsInk();
    assert "" + ("" + digits) == digits;
  }
}
