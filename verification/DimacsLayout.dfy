/**
 * The grammar of the files the DIMACS reader accepts, and what they mean.
 *
 * A file is made of lines to skip, headers, and lines of literals: numerals with blanks before them,
 * each whole, and at the end blanks or one cut numeral, a bare sign or a number that does not fit.
 * That last token is dropped, although the reader is meant to refuse anything malformed.
 */
module DimacsLayout {
  import opened Wrappers
  import opened Scanning
  import opened Decimal
  import opened Dimacs

  // ---------------------------------------------------------------- the grammar

  /** Blanks that stay on a line. */
  predicate Pad(s: string) {
    forall k :: 0 <= k < |s| ==> IsBlank(s[k]) && s[k] != '\n'
  }

  predicate OneLine(s: string) {
    forall k :: 0 <= k < |s| ==> s[k] != '\n'
  }

  predicate NoDigitFirst(s: string) {
    s != "" ==> !IsDecimalDigit(s[0])
  }

  /** A numeral as written: blanks, a sign if any, and digits, leading zeros included. */
  datatype Figure = Figure(pad: string, sign: string, digits: string)

  function ShowFigure(f: Figure): string {
    f.pad + (f.sign + f.digits)
  }

  predicate Spelled(f: Figure) {
    && Pad(f.pad) && AllDigits(f.digits)
    && (f.sign == "" || f.sign == "+" || f.sign == "-")
    && f.sign + f.digits != ""
  }

  /** A figure behind another begins with a blank or a sign, or its digits would belong to that one. */
  predicate Apart(f: Figure) {
    f.pad != "" || f.sign != ""
  }

  function Value(f: Figure): int
    requires Spelled(f)
  {
    var magnitude: int := ValueOf(f.digits);
    if f.sign == "-" then -magnitude else magnitude
  }

  /** A 64-bit integer. */
  predicate Whole(f: Figure) {
    Spelled(f) && f.digits != "" && -9_223_372_036_854_775_808 <= Value(f) <= 9_223_372_036_854_775_807
  }

  /** A bare sign, or a number that does not fit. */
  predicate Cut(f: Figure) {
    Spelled(f) && !Whole(f)
  }

  /** A count of a header; a minus sign negates modulo 2^64. */
  predicate Count(f: Figure) {
    Spelled(f) && f.digits != "" && ValueOf(f.digits) < 18_446_744_073_709_551_616
  }

  function CountValue(f: Figure): (n: nat)
    requires Count(f)
    ensures n < TWO64
  {
    if f.sign == "-" && ValueOf(f.digits) > 0 then 18_446_744_073_709_551_616 - ValueOf(f.digits) else ValueOf(f.digits)
  }

  /** How a line of literals ends. */
  datatype Ending = Blanks(tail: string) | CutShort(figure: Figure)

  /** A header line: a word starting with `p`, the word `cnf`, two counts, and anything after. */
  datatype Heading = Heading(word: string, pad: string, vars: Figure, clauses: Figure, tail: string)

  datatype Line = Noise(text: string) | Header(heading: Heading) | Literals(figures: seq<Figure>, ending: Ending)

  function ShowFigures(figures: seq<Figure>): string {
    if figures == [] then "" else ShowFigure(figures[0]) + ShowFigures(figures[1..])
  }

  function ShowEnding(ending: Ending): string {
    match ending
    case Blanks(tail) => tail
    case CutShort(figure) => ShowFigure(figure)
  }

  function ShowHeading(h: Heading): string {
    h.word + (h.pad + ("cnf" + (ShowFigure(h.vars) + (ShowFigure(h.clauses) + h.tail))))
  }

  function ShowLine(line: Line): string {
    match line
    case Noise(text) => text
    case Header(heading) => ShowHeading(heading)
    case Literals(figures, ending) => ShowFigures(figures) + ShowEnding(ending)
  }

  /** Lines, each ended by a newline. */
  function ShowLines(lines: seq<Line>): string {
    if lines == [] then "" else ShowLine(lines[0]) + "\n" + ShowLines(lines[1..])
  }

  predicate GoodNoise(text: string) {
    OneLine(text) && (text == "" || text[0] == 'c' || text[0] == '%')
  }

  /** `first`: the figures open their line. */
  predicate GoodFigures(figures: seq<Figure>, first: bool) {
    figures == [] || (Whole(figures[0]) && (first || Apart(figures[0])) && GoodFigures(figures[1..], false))
  }

  predicate GoodEnding(ending: Ending, first: bool) {
    match ending
    case Blanks(tail) => Pad(tail)
    case CutShort(figure) => Cut(figure) && (first || Apart(figure))
  }

  predicate GoodHeading(h: Heading) {
    && h.word != "" && h.word[0] == 'p' && (forall k :: 0 <= k < |h.word| ==> IsInk(h.word[k]))
    && Pad(h.pad) && h.pad != ""
    && Count(h.vars) && h.vars.pad != "" && CountValue(h.vars) != 0
    && Count(h.clauses) && Apart(h.clauses)
    && OneLine(h.tail) && NoDigitFirst(h.tail)
  }

  /** `seen`: a header came before. */
  predicate GoodLine(line: Line, seen: bool) {
    match line
    case Noise(text) => GoodNoise(text)
    case Header(heading) => GoodHeading(heading)
    case Literals(figures, ending) => seen && GoodFigures(figures, true) && GoodEnding(ending, figures == [])
  }

  /** Every line is good, and there is a header. */
  predicate GoodLines(lines: seq<Line>, seen: bool) {
    if lines == [] then seen
    else GoodLine(lines[0], seen) && GoodLines(lines[1..], seen || lines[0].Header?)
  }

  /** The text with its last line ended. */
  function Ended(text: string): string {
    if text == "" || text[|text| - 1] == '\n' then text else text + "\n"
  }

  ghost predicate LaidOut(text: string, lines: seq<Line>) {
    GoodLines(lines, false) && ShowLines(lines) == Ended(text)
  }

  // ---------------------------------------------------------------- what a file means

  function Values(figures: seq<Figure>): seq<int>
    requires forall k :: 0 <= k < |figures| ==> Spelled(figures[k])
  {
    if figures == [] then [] else [Value(figures[0])] + Values(figures[1..])
  }

  lemma {:induction false} GoodFiguresAreSpelled(figures: seq<Figure>, first: bool)
    requires GoodFigures(figures, first)
    ensures forall k :: 0 <= k < |figures| ==> Spelled(figures[k])
  {
    hide Spelled;
    if figures != [] {
      GoodFiguresAreSpelled(figures[1..], false);
      assert forall k :: 1 <= k < |figures| ==> figures[k] == figures[1..][k - 1];
      WholeIsSpelled(figures[0]);
    }
  }

  lemma WholeIsSpelled(f: Figure)
    requires Whole(f)
    ensures Spelled(f)
  {}

  /** The literals of a line; a cut numeral is none. */
  function LineLiterals(line: Line, seen: bool): seq<int>
    requires GoodLine(line, seen)
  {
    match line
    case Noise(_) => []
    case Header(_) => []
    case Literals(figures, _) => GoodFiguresAreSpelled(figures, true); Values(figures)
  }

  function LinesLiterals(lines: seq<Line>, seen: bool): seq<int>
    requires GoodLines(lines, seen)
  {
    if lines == [] then []
    else LineLiterals(lines[0], seen) + LinesLiterals(lines[1..], seen || lines[0].Header?)
  }

  /** The variable count of the last header. */
  function LastCount(lines: seq<Line>, seen: bool, count: nat): nat
    requires GoodLines(lines, seen)
  {
    if lines == [] then count
    else LastCount(lines[1..], seen || lines[0].Header?,
                   if lines[0].Header? then CountValue(lines[0].heading.vars) else count)
  }

  /** The state after a file: the last header's count, and the literals taken one by one. */
  function Meaning(lines: seq<Line>, state: State): State
    requires GoodLines(lines, state.seenHeader)
  {
    var end := TakeAll(state, LinesLiterals(lines, state.seenHeader));
    end.(numVars := LastCount(lines, state.seenHeader, state.numVars), seenHeader := true)
  }

  // ---------------------------------------------------------------- extraction and figures

  lemma PadIsTrimmed(pad: string, s: string)
    requires Pad(pad) && (s != "" ==> IsInk(s[0]))
    ensures TrimLeft(pad + s) == s
  {
    hide IsBlank;
    SpanOfRun(IsBlank, pad, s);
    assert (pad + s)[|pad|..] == s;
  }

  lemma DigitsAreInk(c: char)
    ensures IsDecimalDigit(c) || c == '-' || c == '+' ==> IsInk(c) && c != '\n' && c !in "c%p"
    ensures IsBlank(c) ==> !IsDecimalDigit(c) && c !in "c%p"
  {}

  /** A sign and digits followed by something that is no digit are scanned as they stand. */
  lemma NumeralIsScanned(sign: string, digits: string, rest: string)
    requires sign == "" || sign == "+" || sign == "-"
    requires AllDigits(digits) && NoDigitFirst(rest)
    requires sign == "" ==> digits != ""
    ensures ScanNumeral(sign + digits + rest) == Numeral(sign, digits, rest)
  {
    hide Span;
    var s := sign + digits + rest;
    if sign == "" {
      assert s == digits + rest && s[0] == digits[0];
    } else {
      assert s[0] == sign[0] && s[1..] == digits + rest && [s[0]] == sign;
    }
    SpanOfRun(IsDecimalDigit, digits, rest);
    assert (digits + rest)[..|digits|] == digits && (digits + rest)[|digits|..] == rest;
  }

  /** A figure followed by something that is no digit is scanned as it stands. */
  lemma FigureIsScanned(f: Figure, rest: string)
    requires Spelled(f) && NoDigitFirst(rest)
    ensures ScanNumeral(TrimLeft(ShowFigure(f) + rest)) == Numeral(f.sign, f.digits, rest)
    ensures TrimLeft(ShowFigure(f) + rest) == f.sign + f.digits + rest
  {
    hide ScanNumeral, TrimLeft, IsDecimalDigit;
    var s := f.sign + f.digits + rest;
    assert s[0] == (f.sign + f.digits)[0];
    DigitsAreInk(s[0]);
    PadIsTrimmed(f.pad, s);
    assert ShowFigure(f) + rest == f.pad + s;
    NumeralIsScanned(f.sign, f.digits, rest);
  }

  lemma WholeIsExtracted(f: Figure, rest: string)
    requires Whole(f) && NoDigitFirst(rest)
    ensures ExtractInt(ShowFigure(f) + rest) == Got(Value(f), rest)
  {
    hide ScanNumeral, TrimLeft, ShowFigure, ValueOf, NoDigitFirst, Pad;
    FigureIsScanned(f, rest);
  }

  lemma CutFails(f: Figure)
    requires Cut(f)
    ensures ExtractInt(ShowFigure(f)) == Failed(true) && TrimLeft(ShowFigure(f)) != ""
  {
    hide ScanNumeral, TrimLeft, ShowFigure, ValueOf, Pad;
    FigureIsScanned(f, "");
    assert ShowFigure(f) + "" == ShowFigure(f) && f.sign + f.digits + "" == f.sign + f.digits;
  }

  lemma CountIsExtracted(f: Figure, rest: string)
    requires Count(f) && NoDigitFirst(rest)
    ensures ExtractUnsigned(ShowFigure(f) + rest) == Got(CountValue(f), rest)
  {
    hide ScanNumeral, TrimLeft, ShowFigure, ValueOf, NoDigitFirst, Pad;
    FigureIsScanned(f, rest);
  }

  lemma WordIsExtracted(pad: string, word: string, rest: string)
    requires Pad(pad) && word != "" && forall k :: 0 <= k < |word| ==> IsInk(word[k])
    requires rest != "" ==> IsBlank(rest[0])
    ensures ExtractWord(pad + (word + rest)) == Got(word, rest)
  {
    hide TrimLeft, Span, IsBlank;
    assert (word + rest)[0] == word[0];
    PadIsTrimmed(pad, word + rest);
    SpanOfRun(IsInk, word, rest);
    assert (word + rest)[..|word|] == word && (word + rest)[|word|..] == rest;
  }

  lemma BlankIsTheEnd(tail: string)
    requires Pad(tail)
    ensures ExtractInt(tail) == Failed(true) && TrimLeft(tail) == ""
  {
    hide IsBlank, Span;
    PadIsTrimmed(tail, "");
    assert tail + "" == tail;
    assert ScanNumeral("").rest == "";
  }

  // ---------------------------------------------------------------- a line reads as its layout

  lemma FigureStartsApart(f: Figure, rest: string)
    requires Spelled(f) && Apart(f)
    ensures NoDigitFirst(ShowFigure(f) + rest)
  {
    var s := ShowFigure(f) + rest;
    if f.pad != "" {
      assert s[0] == f.pad[0];
      DigitsAreInk(s[0]);
    } else {
      assert s[0] == f.sign[0];
    }
  }

  /** What follows a figure never extends its digits. */
  lemma RestIsApart(figures: seq<Figure>, ending: Ending)
    requires GoodFigures(figures, false) && GoodEnding(ending, false)
    ensures NoDigitFirst(ShowFigures(figures) + ShowEnding(ending))
  {
    hide Apart, NoDigitFirst, ShowFigure, Spelled;
    if figures != [] {
      WholeIsSpelled(figures[0]);
      FigureStartsApart(figures[0], ShowFigures(figures[1..]) + ShowEnding(ending));
      assert ShowFigures(figures) + ShowEnding(ending)
          == ShowFigure(figures[0]) + (ShowFigures(figures[1..]) + ShowEnding(ending));
    } else {
      assert ShowFigures(figures) + ShowEnding(ending) == ShowEnding(ending);
      match ending {
        case Blanks(tail) => PadStartsApart(tail);
        case CutShort(figure) =>
          CutIsSpelled(figure);
          FigureStartsApart(figure, "");
          assert ShowFigure(figure) + "" == ShowFigure(figure);
      }
    }
  }

  lemma CutIsSpelled(f: Figure)
    requires Cut(f)
    ensures Spelled(f)
  {}

  lemma PadStartsApart(tail: string)
    requires Pad(tail)
    ensures NoDigitFirst(tail)
  {
    if tail != "" {
      DigitsAreInk(tail[0]);
    }
  }

  /** What is left of a line at the first extraction that fails. */
  function Leftover(s: string): string
    decreases |s|
  {
    match ExtractInt(s)
    case Got(_, rest) => Leftover(rest)
    case Failed(_) => s
  }

  /** A laid-out line of literals is read as its figures; what is left of it is its ending. */
  lemma {:induction false} FiguresRead(figures: seq<Figure>, ending: Ending, first: bool, state: State)
    requires GoodFigures(figures, first) && GoodEnding(ending, first && figures == [])
    ensures forall k :: 0 <= k < |figures| ==> Spelled(figures[k])
    ensures var s := ShowFigures(figures) + ShowEnding(ending);
            && ReadLiterals(s, state) == Some(TakeAll(state, Values(figures)))
            && Leftover(s) == ShowEnding(ending)
    decreases figures
  {
    hide ExtractInt, Take, ShowFigure, Apart, Whole, Cut, Pad, NoDigitFirst, Spelled;
    GoodFiguresAreSpelled(figures, first);
    var s := ShowFigures(figures) + ShowEnding(ending);
    if figures == [] {
      assert s == ShowEnding(ending);
      match ending {
        case Blanks(tail) => BlankIsTheEnd(tail);
        case CutShort(figure) => CutFails(figure);
      }
    } else {
      var f, rest := figures[0], ShowFigures(figures[1..]) + ShowEnding(ending);
      EndingLater(ending, first && figures == []);
      RestIsApart(figures[1..], ending);
      WholeIsExtracted(f, rest);
      assert s == ShowFigure(f) + rest;
      FiguresRead(figures[1..], ending, false, Take(state, Value(f)));
      assert Values(figures)[1..] == Values(figures[1..]);
    }
  }

  lemma EndingLater(ending: Ending, first: bool)
    requires GoodEnding(ending, first) && !first
    ensures GoodEnding(ending, false)
  {}

  /** Such a line is neither skipped nor taken for a header, unless it is empty. */
  lemma FiguresOpen(figures: seq<Figure>, ending: Ending)
    requires GoodFigures(figures, true) && GoodEnding(ending, figures == [])
    ensures var s := ShowFigures(figures) + ShowEnding(ending); s == "" || s[0] !in "c%p"
    ensures OneLine(ShowFigures(figures) + ShowEnding(ending))
  {
    hide Value, IsDecimalDigit, IsBlank;
    FiguresStayOnTheLine(figures, true);
    var s := ShowFigures(figures) + ShowEnding(ending);
    if figures != [] {
      FigureOpens(figures[0]);
      assert s[0] == ShowFigure(figures[0])[0];
    } else {
      assert s == ShowEnding(ending);
    }
    match ending {
      case Blanks(tail) => if tail != "" { DigitsAreInk(tail[0]); }
      case CutShort(figure) => FigureOpens(figure);
    }
  }

  lemma FigureOpens(f: Figure)
    requires Spelled(f)
    ensures ShowFigure(f) != "" && ShowFigure(f)[0] !in "c%p" && OneLine(ShowFigure(f))
  {
    var s := ShowFigure(f);
    DigitsAreInk(s[0]);
    forall k | 0 <= k < |f.digits| ensures f.digits[k] != '\n' {
      DigitsAreInk(f.digits[k]);
    }
  }

  lemma {:induction false} FiguresStayOnTheLine(figures: seq<Figure>, first: bool)
    requires GoodFigures(figures, first)
    ensures OneLine(ShowFigures(figures))
  {
    hide Spelled, ShowFigure, Apart, Value;
    if figures != [] {
      FigureOpens(figures[0]) by { WholeIsSpelled(figures[0]); }
      FiguresStayOnTheLine(figures[1..], false);
    }
  }

  lemma HeadingReads(h: Heading)
    requires GoodHeading(h)
    ensures ReadHeader(ShowHeading(h)) == Some(CountValue(h.vars))
  {
    hide ExtractWord, ExtractUnsigned, ShowFigure, IsBlank, Count, CountValue, NoDigitFirst;
    var counts := ShowFigure(h.vars) + (ShowFigure(h.clauses) + h.tail);
    CnfIsInk();
    assert ShowHeading(h) == "" + (h.word + (h.pad + ("cnf" + counts)));
    CountIsSpelled(h.vars);
    CountIsSpelled(h.clauses);
    WordIsExtracted("", h.word, h.pad + ("cnf" + counts));
    FigurePadFirst(h.vars, ShowFigure(h.clauses) + h.tail);
    WordIsExtracted(h.pad, "cnf", counts);
    FigureStartsApart(h.clauses, h.tail);
    CountIsExtracted(h.vars, ShowFigure(h.clauses) + h.tail);
    CountIsExtracted(h.clauses, h.tail);
  }

  lemma CountIsSpelled(f: Figure)
    requires Count(f)
    ensures Spelled(f)
  {}

  lemma FigurePadFirst(f: Figure, rest: string)
    requires Spelled(f) && f.pad != ""
    ensures ShowFigure(f) + rest != "" && IsBlank((ShowFigure(f) + rest)[0])
  {
    assert (ShowFigure(f) + rest)[0] == f.pad[0];
  }

  lemma CnfIsInk()
    ensures forall k :: 0 <= k < 3 ==> IsInk("cnf"[k])
    ensures Pad("")
  {}

  lemma HeadingIsOneLine(h: Heading)
    requires GoodHeading(h)
    ensures OneLine(ShowHeading(h)) && ShowHeading(h) != "" && ShowHeading(h)[0] == 'p'
  {
    hide ShowFigure, Count, CountValue, IsBlank;
    CountIsSpelled(h.vars);
    CountIsSpelled(h.clauses);
    FigureOpens(h.vars);
    FigureOpens(h.clauses);
    assert OneLine(h.word) by { NewlineIsBlank(); }
  }

  lemma NewlineIsBlank()
    ensures IsBlank('\n')
  {}

  /** What a good line does to the state. */
  function TakeLine(line: Line, state: State): State
    requires GoodLine(line, state.seenHeader)
  {
    match line
    case Noise(_) => state
    case Header(heading) => state.(numVars := CountValue(heading.vars), seenHeader := true)
    case Literals(_, _) => TakeAll(state, LineLiterals(line, state.seenHeader))
  }

  lemma LineReads(line: Line, state: State)
    requires GoodLine(line, state.seenHeader)
    ensures OneLine(ShowLine(line))
    ensures ReadLine(ShowLine(line), state) == Some(TakeLine(line, state))
  {
    hide ReadLiterals, ReadHeader, ShowFigures, ShowHeading, GoodFigures, GoodHeading, GoodEnding, Take, Leftover;
    match line {
      case Noise(text) =>
      case Header(heading) =>
        HeadingIsOneLine(heading);
        HeadingReads(heading);
      case Literals(figures, ending) =>
        FiguresRead(figures, ending, true, state);
        FiguresOpen(figures, ending);
        EmptyIsTheEnd(state);
    }
  }

  lemma EmptyIsTheEnd(state: State)
    ensures ReadLiterals("", state) == Some(state)
  {
    BlankIsTheEnd("");
  }

  // ---------------------------------------------------------------- a file reads as its layout

  lemma LineIsTakenOff(line: string, rest: string)
    requires OneLine(line)
    ensures LineOf(line + "\n" + rest) == line
    ensures line + "\n" + rest != "" && AfterLine(line + "\n" + rest) == rest
  {
    hide Span;
    var text := line + "\n" + rest;
    assert text == line + ("\n" + rest);
    SpanOfRun(NotNewline, line, "\n" + rest);
    assert text[..|line|] == line && text[|line| + 1..] == rest;
  }

  lemma {:induction false} TakeAllJoins(state: State, a: seq<int>, b: seq<int>)
    ensures TakeAll(state, a + b) == TakeAll(TakeAll(state, a), b)
    ensures TakeAll(state, a).seenHeader == state.seenHeader
    ensures TakeAll(state, a).numVars == state.numVars
    decreases a
  {
    if a == [] {
      assert a + b == b;
    } else {
      assert (a + b)[1..] == a[1..] + b;
      TakeAllJoins(Take(state, a[0]), a[1..], b);
    }
  }

  /** Counts and literals are kept apart, so the order of headers among them does not matter. */
  lemma {:induction false} TakeAllAlike(a: State, b: State, lits: seq<int>)
    requires a.clauses == b.clauses && a.current == b.current
    ensures var x, y := TakeAll(a, lits), TakeAll(b, lits);
            x.clauses == y.clauses && x.current == y.current
    decreases lits
  {
    if lits != [] {
      TakeAllAlike(Take(a, lits[0]), Take(b, lits[0]), lits[1..]);
    }
  }

  lemma MeaningSteps(lines: seq<Line>, state: State)
    requires lines != [] && GoodLines(lines, state.seenHeader)
    ensures var next := TakeLine(lines[0], state);
            && next.seenHeader == (state.seenHeader || lines[0].Header?)
            && Meaning(lines, state) == Meaning(lines[1..], next)
  {
    hide TakeAll, GoodLine, CountValue;
    var next, seen := TakeLine(lines[0], state), state.seenHeader || lines[0].Header?;
    var here, rest := LineLiterals(lines[0], state.seenHeader), LinesLiterals(lines[1..], seen);
    TakeAllJoins(state, here, rest);
    NoLiteralsTaken(state);
    if lines[0].Header? {
      TakeAllAlike(state, next, rest);
      assert here == [] && [] + rest == rest;
    }
    TakeAllJoins(next, rest, []);
  }

  lemma NoLiteralsTaken(state: State)
    ensures TakeAll(state, []) == state
  {}

  lemma {:induction false} LinesRead(lines: seq<Line>, state: State)
    requires GoodLines(lines, state.seenHeader)
    ensures ReadLines(ShowLines(lines), state) == Some(Meaning(lines, state))
    decreases lines
  {
    hide ReadLine, ShowLine, GoodLine, LineOf, AfterLine, TakeLine, Meaning;
    if lines == [] {
      NoLinesMean(state);
    } else {
      LineReads(lines[0], state);
      LineIsTakenOff(ShowLine(lines[0]), ShowLines(lines[1..]));
      MeaningSteps(lines, state);
      LinesRead(lines[1..], TakeLine(lines[0], state));
    }
  }

  lemma NoLinesMean(state: State)
    requires state.seenHeader
    ensures Meaning([], state) == state
  {}

  /** A file may also end without its last newline. */
  lemma {:induction false} FinalNewlineIsOptional(text: string, state: State)
    requires text != "" && text[|text| - 1] != '\n'
    ensures ReadLines(text + "\n", state) == ReadLines(text, state)
    decreases |text|
  {
    hide ReadLine, Span;
    var n := Span(NotNewline, text);
    if n == |text| {
      assert text + "\n" == text + "\n" + "" && text[..n] == text;
      LineIsTakenOff(text, "");
    } else {
      var line, rest := text[..n], text[n + 1..];
      assert text == line + "\n" + rest;
      assert text + "\n" == line + "\n" + (rest + "\n");
      LineIsTakenOff(line, rest);
      LineIsTakenOff(line, rest + "\n");
      assert rest != "" && rest[|rest| - 1] == text[|text| - 1];
      match ReadLine(line, state) {
        case None =>
        case Some(next) => FinalNewlineIsOptional(rest, next);
      }
    }
  }

  lemma EndedReadsAlike(text: string, state: State)
    ensures ReadLines(Ended(text), state) == ReadLines(text, state)
  {
    if Ended(text) != text {
      FinalNewlineIsOptional(text, state);
    }
  }

  /** A laid-out file is accepted, and read as its literals under its last header's count. */
  lemma LayoutIsRead(text: string, lines: seq<Line>)
    requires LaidOut(text, lines)
    ensures Read(text) == Finish(Meaning(lines, START)) && Read(text).Some?
  {
    hide ReadLines, GoodLines, Ended, LinesLiterals, LastCount;
    EndedReadsAlike(text, START);
    LinesRead(lines, START);
  }

  // ---------------------------------------------------------------- what is read has a layout

  /** Any text splits into a figure, perhaps without sign or digits, and a rest no digit begins. */
  lemma FigureAt(s: string) returns (f: Figure)
    requires OneLine(s)
    ensures var n := ScanNumeral(TrimLeft(s));
            && f == Figure(f.pad, n.sign, n.digits) && s == ShowFigure(f) + n.rest
            && Pad(f.pad) && OneLine(n.rest) && NoDigitFirst(n.rest)
            && AllDigits(f.digits) && (f.sign == "" || f.sign == "+" || f.sign == "-")
            && (f.digits != "" && NoDigitFirst(s) ==> Apart(f))
            && TrimLeft(s) == f.sign + f.digits + n.rest
  {
    hide ScanNumeral, TrimLeft, AllDigits, IsDecimalDigit, Pad, OneLine;
    var pad, t := BlanksAt(s);
    var n := ScanNumeral(t);
    f := Figure(pad, n.sign, n.digits);
    Regrouped(pad, n.sign, n.digits, n.rest);
    RestOnTheLine(pad + (n.sign + n.digits), n.rest);
    if f.pad == "" && f.sign == "" && f.digits != "" {
      assert s[0] == n.digits[0];
      FirstIsDigit(n.digits);
    }
  }

  lemma Regrouped(pad: string, sign: string, digits: string, rest: string)
    ensures pad + (sign + digits + rest) == pad + (sign + digits) + rest
  {}

  lemma BlanksAt(s: string) returns (pad: string, t: string)
    requires OneLine(s)
    ensures t == TrimLeft(s) && s == pad + t && Pad(pad)
  {
    var k := Span(IsBlank, s);
    pad, t := s[..k], s[k..];
  }

  lemma RestOnTheLine(front: string, rest: string)
    requires OneLine(front + rest)
    ensures OneLine(rest)
  {
    forall j | 0 <= j < |rest| ensures rest[j] != '\n' {
      assert rest[j] == (front + rest)[|front| + j];
    }
  }

  lemma FirstIsDigit(digits: string)
    requires AllDigits(digits) && digits != ""
    ensures IsDecimalDigit(digits[0])
  {}

  /** An accepted line of literals has a layout. */
  lemma {:induction false} LiteralsHaveLayout(s: string, first: bool, state: State)
    returns (figures: seq<Figure>, ending: Ending)
    requires ReadLiterals(s, state).Some? && OneLine(s) && (first || NoDigitFirst(s))
    ensures GoodFigures(figures, first) && GoodEnding(ending, first && figures == [])
    ensures ShowFigures(figures) + ShowEnding(ending) == s
    decreases |s|
  {
    hide ScanNumeral, TrimLeft, Take, ShowFigure, Pad, NoDigitFirst, OneLine, ValueOf, Apart, AllDigits;
    var f := FigureAt(s);
    var n := ScanNumeral(TrimLeft(s));
    hide IsBlank, IsDecimalDigit, SignedValue;
    if ExtractInt(s).Got? {
      GotIsWhole(s, f);
      hide Whole;
      var later, end := LiteralsHaveLayout(n.rest, false, Take(state, ExtractInt(s).value));
      figures, ending := [f] + later, end;
      assert figures[1..] == later;
      EndingAfter(ending);
      assert ShowFigures(figures) + ShowEnding(ending) == ShowFigure(f) + (ShowFigures(later) + ShowEnding(end));
    } else {
      assert n.rest == "";
      figures := [];
      ending := LastPart(s, f, first);
      assert ShowFigures(figures) + ShowEnding(ending) == ShowEnding(ending);
    }
  }

  lemma GotIsWhole(s: string, f: Figure)
    requires ExtractInt(s).Got? && Pad(f.pad)
    requires f.sign == ScanNumeral(TrimLeft(s)).sign && f.digits == ScanNumeral(TrimLeft(s)).digits
    ensures Whole(f)
  {
    hide TrimLeft, Pad, ValueOf;
  }

  lemma EndingAfter(ending: Ending)
    requires GoodEnding(ending, false)
    ensures forall first :: GoodEnding(ending, first)
  {}

  lemma LastPart(s: string, f: Figure, first: bool) returns (ending: Ending)
    requires s == ShowFigure(f) && Pad(f.pad) && AllDigits(f.digits)
    requires f.sign == "" || f.sign == "+" || f.sign == "-"
    requires f.digits == "" || !(INT64_MIN <= (if f.sign == "-" then -(ValueOf(f.digits) as int) else ValueOf(f.digits)) <= INT64_MAX)
    requires first || NoDigitFirst(s)
    requires f.digits != "" && NoDigitFirst(s) ==> Apart(f)
    ensures GoodEnding(ending, first) && ShowEnding(ending) == s
  {
    hide ValueOf;
    if f.sign == "" && f.digits == "" {
      ending := Blanks(s);
      assert s == f.pad;
    } else {
      ending := CutShort(f);
    }
  }

  lemma HeaderHasLayout(line: string) returns (h: Heading)
    requires line != "" && line[0] == 'p' && OneLine(line) && ReadHeader(line).Some?
    ensures GoodHeading(h) && ShowHeading(h) == line
  {
    hide ScanNumeral, TrimLeft, ShowFigure, Pad, ValueOf, Apart, AllDigits;
    PIsInk();
    var w1, r1 := WordAt(line);
    var pad, word2, r2 := SecondWord(r1);
    var vars := FigureAt(r2);
    var r3 := ScanNumeral(TrimLeft(r2)).rest;
    var clauses := FigureAt(r3);
    var tail := ScanNumeral(TrimLeft(r3)).rest;
    h := Heading(w1, pad, vars, clauses, tail);
    VarsPad(r2, vars, r3);
    assert ShowHeading(h) == line;
  }

  lemma PIsInk()
    ensures IsInk('p')
  {}

  /** A word at the front of a text, and what follows. */
  lemma WordAt(s: string) returns (word: string, rest: string)
    requires OneLine(s) && s != "" && IsInk(s[0])
    ensures ExtractWord(s) == Got(word, rest) && s == word + rest
    ensures word != "" && word[0] == s[0] && forall k :: 0 <= k < |word| ==> IsInk(word[k])
    ensures OneLine(rest) && (rest != "" ==> IsBlank(rest[0]))
  {
    assert Span(IsBlank, s) == 0;
    assert TrimLeft(s) == s;
    var n := Span(IsInk, s);
    word, rest := s[..n], s[n..];
  }

  lemma SecondWord(s: string) returns (pad: string, word: string, rest: string)
    requires OneLine(s) && (s != "" ==> IsBlank(s[0])) && ExtractWord(s).Got?
    ensures ExtractWord(s) == Got(word, rest) && s == pad + (word + rest)
    ensures Pad(pad) && pad != "" && OneLine(rest) && (rest != "" ==> IsBlank(rest[0]))
  {
    var k := Span(IsBlank, s);
    var t := TrimLeft(s);
    var n := Span(IsInk, t);
    pad, word, rest := s[..k], t[..n], t[n..];
    assert s == s[..k] + t && t == t[..n] + t[n..];
  }

  lemma VarsPad(s: string, f: Figure, rest: string)
    requires s == ShowFigure(f) + rest && (s != "" ==> IsBlank(s[0]))
    requires f.digits != "" && AllDigits(f.digits) && (f.sign == "" || f.sign == "+" || f.sign == "-")
    ensures f.pad != ""
  {
    if f.pad == "" {
      assert s[0] == (f.sign + f.digits)[0];
      DigitsAreInk(s[0]);
    }
  }

  /** An accepted line has a layout. */
  lemma LineHasLayout(s: string, state: State) returns (line: Line)
    requires OneLine(s) && ReadLine(s, state).Some?
    ensures GoodLine(line, state.seenHeader) && ShowLine(line) == s
  {
    hide ReadHeader, ReadLiterals, ShowHeading, GoodHeading;
    if s == "" || s[0] == 'c' || s[0] == '%' {
      line := Noise(s);
    } else if s[0] == 'p' {
      var h := HeaderHasLayout(s);
      line := Header(h);
    } else {
      var figures, ending := LiteralsHaveLayout(s, true, state);
      line := Literals(figures, ending);
    }
  }

  /** An accepted text that ends its lines and holds a header has a layout. */
  lemma {:induction false} LinesHaveLayout(text: string, state: State) returns (lines: seq<Line>)
    requires text == "" || text[|text| - 1] == '\n'
    requires ReadLines(text, state).Some? && ReadLines(text, state).value.seenHeader
    ensures GoodLines(lines, state.seenHeader) && ShowLines(lines) == text
    decreases |text|
  {
    hide ReadLine, ShowLine, GoodLine, TakeLine, LineOf, AfterLine, OneLine;
    if text == "" {
      lines := [];
    } else {
      var s, rest := LineOf(text), AfterLine(text);
      TextSplits(text);
      var line := LineHasLayout(s, state);
      LineReads(line, state);
      SeenAfter(line, state);
      var more := LinesHaveLayout(rest, TakeLine(line, state));
      lines := [line] + more;
      assert lines[1..] == more;
    }
  }

  lemma TextSplits(text: string)
    requires text != "" && text[|text| - 1] == '\n'
    ensures var s, rest := LineOf(text), AfterLine(text);
            && text == s + "\n" + rest && OneLine(s)
            && (rest == "" || rest[|rest| - 1] == '\n')
  {
    var n := Span(NotNewline, text);
    var s, rest := text[..n], text[n + 1..];
    assert text == s + "\n" + rest;
    assert forall k :: 0 <= k < n ==> NotNewline(s[k]);
  }

  lemma SeenAfter(line: Line, state: State)
    requires GoodLine(line, state.seenHeader)
    ensures TakeLine(line, state).seenHeader == (state.seenHeader || line.Header?)
  {
    if line.Literals? {
      TakeAllJoins(state, LineLiterals(line, state.seenHeader), []);
    }
  }

  /** The reader accepts exactly the texts that have a layout. */
  lemma AcceptedExactly(text: string)
    ensures Read(text).Some? <==> exists lines :: LaidOut(text, lines)
  {
    hide ReadLines, GoodLines, ShowLines;
    if Read(text).Some? {
      EndedReadsAlike(text, START);
      var lines := LinesHaveLayout(Ended(text), START);
      assert LaidOut(text, lines);
    }
    if lines :| LaidOut(text, lines) {
      LayoutIsRead(text, lines);
    }
  }
}
