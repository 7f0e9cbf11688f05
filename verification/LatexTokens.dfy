/**
 * The LaTeX tokenizer of the viewer.
 *
 * A backslash takes a whole run of letters, or else exactly one character of any kind, blanks
 * included. A backslash that ends the source gives a command with no name: the character after it
 * is undefined, which the letter test reads as the word "undefined" and so takes for a letter run,
 * of which no character is left.
 */
module LatexTokens {
  import opened Scanning

  datatype Token =
    | Open | Close | Caret | Underscore
    | Number(digits: string)
    | Identifier(letter: char)
    | Operator(symbol: char)
    | Command(name: string)

  predicate IsLetter(c: char) {
    'a' <= c <= 'z' || 'A' <= c <= 'Z'
  }

  predicate IsDigit(c: char) {
    '0' <= c <= '9' || c == '.'
  }

  /** The characters `\s` matches. */
  predicate IsBlank(c: char) {
    || '\U{9}' <= c <= '\U{D}' || c == ' ' || c == '\U{A0}' || c == '\U{1680}'
    || '\U{2000}' <= c <= '\U{200A}' || c == '\U{2028}' || c == '\U{2029}' || c == '\U{202F}'
    || c == '\U{205F}' || c == '\U{3000}' || c == '\U{FEFF}'
  }

  /** A token and the number of characters it is spelled with. */
  datatype Lexed = Lexed(token: Token, length: nat)

  function CommandAt(s: string): (r: Lexed)
    requires s != [] && s[0] == '\\'
    ensures 0 < r.length <= |s| && Spelling(r.token) == s[..r.length]
  {
    if |s| == 1 then Lexed(Command(""), 1)
    else if IsLetter(s[1]) then
      var n := Span(IsLetter, s[1..]);
      Lexed(Command(s[1..1 + n]), 1 + n)
    else Lexed(Command([s[1]]), 2)
  }

  function TokenAt(s: string): (r: Lexed)
    requires s != [] && !IsBlank(s[0])
    ensures 0 < r.length <= |s| && Spelling(r.token) == s[..r.length]
  {
    var c := s[0];
    if c == '\\' then CommandAt(s)
    else if c == '{' then Lexed(Open, 1)
    else if c == '}' then Lexed(Close, 1)
    else if c == '^' then Lexed(Caret, 1)
    else if c == '_' then Lexed(Underscore, 1)
    else if IsDigit(c) then var n := Span(IsDigit, s); Lexed(Number(s[..n]), n)
    else if IsLetter(c) then Lexed(Identifier(c), 1)
    else Lexed(Operator(c), 1)
  }

  function Tokenize(s: string): seq<Token> {
    if s == [] then []
    else if IsBlank(s[0]) then Tokenize(s[1..])
    else var t := TokenAt(s); [t.token] + Tokenize(s[t.length..])
  }

  /** The source text of a token. */
  function Spelling(token: Token): string {
    match token
    case Open => "{"
    case Close => "}"
    case Caret => "^"
    case Underscore => "_"
    case Number(digits) => digits
    case Identifier(letter) => [letter]
    case Operator(symbol) => [symbol]
    case Command(name) => "\\" + name
  }

  // ---------------------------------------------------------------- the loop

  /** `tokenizeLatex`. */
  method TokenizeLatex(src: string) returns (toks: seq<Token>)
    ensures toks == Tokenize(src)
  {
    hide Tokenize, TokenAt, IsDigit, IsLetter;
    toks := [];
    var i := 0;
    assert src[0..] == src;
    assert [] + Tokenize(src) == Tokenize(src);
    while i < |src|
      invariant 0 <= i <= |src|
      invariant toks + Tokenize(src[i..]) == Tokenize(src)
    {
      var c := src[i];
      BackslashIsNoBlank(c);
      if c != '\\' && IsBlank(c) {
        SkipBlank(src, i);
        i := i + 1;
        continue;
      }
      var tok, j;
      if c == '\\' {
        tok, j := ReadCommand(src, i);
      } else {
        tok, j := ReadPlain(src, i);
      }
      TakeToken(src, i, tok, j - i);
      toks, i := toks + [tok], j;
    }
    EmptyHasNoTokens();
    assert src[i..] == [];
    assert toks + [] == toks;
  }

  /** The branch of a backslash. */
  method ReadCommand(src: string, i: nat) returns (tok: Token, j: nat)
    requires i < |src| && src[i] == '\\'
    ensures i < j <= |src| && TokenAt(src[i..]) == Lexed(tok, j - i)
  {
    hide Span, IsLetter, Spelling;
    var name;
    j, name := i + 1, "";
    if j == |src| {
    } else if IsLetter(src[j]) {
      j, name := TakeWhile(IsLetter, src, j);
      assert src[i..][1..] == src[i + 1..];
      assert src[i..][1..j - i] == name;
    } else {
      name, j := [src[j]], j + 1;
    }
    tok := Command(name);
  }

  /** The branches of the other characters, blanks apart. */
  method ReadPlain(src: string, i: nat) returns (tok: Token, j: nat)
    requires i < |src| && src[i] != '\\' && !IsBlank(src[i])
    ensures i < j <= |src| && TokenAt(src[i..]) == Lexed(tok, j - i)
  {
    hide Span, IsDigit, IsLetter, IsBlank, Spelling, CommandAt;
    var c := src[i];
    j := i + 1;
    if c == '{' || c == '}' || c == '^' || c == '_' {
      tok := if c == '{' then Open else if c == '}' then Close else if c == '^' then Caret else Underscore;
    } else if IsDigit(c) {
      var n;
      j, n := TakeWhile(IsDigit, src, i);
      assert src[i..][..j - i] == n;
      tok := Number(n);
    } else if IsLetter(c) {
      tok := Identifier(c);
    } else {
      tok := Operator(c);
    }
  }

  lemma EmptyHasNoTokens()
    ensures Tokenize("") == []
  {}

  lemma SkipBlank(src: string, i: nat)
    requires i < |src| && IsBlank(src[i])
    ensures Tokenize(src[i..]) == Tokenize(src[i + 1..])
  {
    assert src[i..][1..] == src[i + 1..];
  }

  lemma TakeToken(src: string, i: nat, token: Token, length: nat)
    requires i < |src| && !IsBlank(src[i])
    requires TokenAt(src[i..]) == Lexed(token, length)
    ensures i + length <= |src|
    ensures Tokenize(src[i..]) == [token] + Tokenize(src[i + length..])
  {
    hide TokenAt, IsBlank;
    assert src[i..][length..] == src[i + length..];
  }

  /** The inner loops: append to a run while the next character belongs to it. */
  method TakeWhile(p: char -> bool, src: string, from: nat) returns (i: nat, run: string)
    requires from <= |src|
    ensures i == from + Span(p, src[from..])
    ensures from <= i <= |src| && run == src[from..i]
  {
    i, run := from, "";
    while i < |src| && p(src[i])
      invariant from <= i <= |src| && run == src[from..i]
      invariant i + Span(p, src[i..]) == from + Span(p, src[from..])
    {
      assert src[i..][1..] == src[i + 1..];
      run, i := run + [src[i]], i + 1;
    }
  }

  // ---------------------------------------------------------------- the characters of a token

  /** The tokens a source can hold: what a spelling followed by a blank is read back as. */
  predicate Spellable(token: Token) {
    match token
    case Number(digits) => digits != [] && forall k :: 0 <= k < |digits| ==> IsDigit(digits[k])
    case Identifier(letter) => IsLetter(letter)
    case Operator(symbol) =>
      && !IsBlank(symbol) && !IsLetter(symbol) && !IsDigit(symbol)
      && symbol !in "\\{}^_"
    case Command(name) =>
      || (|name| == 1)
      || (name != [] && forall k :: 0 <= k < |name| ==> IsLetter(name[k]))
    case _ => true
  }

  lemma TokenIsSpellable(s: string)
    requires s != [] && !IsBlank(s[0])
    ensures Spellable(TokenAt(s).token) || (|s| == 1 && TokenAt(s) == Lexed(Command(""), 1))
  {
    if s[0] == '\\' && |s| > 1 && IsLetter(s[1]) {
      var n := Span(IsLetter, s[1..]);
      assert TokenAt(s).token == Command(s[1..1 + n]);
      assert n > 0;
      assert forall k :: 0 <= k < n ==> s[1..1 + n][k] == s[1..][k];
    }
  }

  lemma SpaceIsBlank()
    ensures IsBlank(' ') && !IsLetter(' ') && !IsDigit(' ')
    ensures !IsBlank('\\') && !IsBlank('{') && !IsBlank('}') && !IsBlank('^') && !IsBlank('_')
  {}

  lemma BackslashIsNoBlank(c: char)
    ensures IsBlank(c) ==> c != '\\' && !IsLetter(c) && !IsDigit(c)
  {}

  // ---------------------------------------------------------------- nothing is lost but blanks

  function Spellings(toks: seq<Token>): string {
    if toks == [] then "" else Spelling(toks[0]) + Spellings(toks[1..])
  }

  /** The source without the blanks that no backslash escapes. */
  function WithoutBlanks(s: string): string {
    if s == [] then []
    else if s[0] == '\\' && |s| > 1 then s[..2] + WithoutBlanks(s[2..])
    else if IsBlank(s[0]) then WithoutBlanks(s[1..])
    else [s[0]] + WithoutBlanks(s[1..])
  }

  lemma {:induction false} RunIsKept(run: string, rest: string)
    requires forall k :: 0 <= k < |run| ==> IsLetter(run[k]) || IsDigit(run[k])
    ensures WithoutBlanks(run + rest) == run + WithoutBlanks(rest)
  {
    hide IsLetter, IsDigit, IsBlank, WithoutBlanks;
    if run == [] {
      assert run + rest == rest;
    } else {
      LettersAndDigitsStay(run[0]);
      OrdinaryIsKept(run[0], run[1..] + rest);
      RunIsKept(run[1..], rest);
      assert [run[0]] + (run[1..] + rest) == run + rest;
      assert [run[0]] + run[1..] == run;
    }
  }

  lemma LettersAndDigitsStay(c: char)
    ensures IsLetter(c) || IsDigit(c) ==> c != '\\' && !IsBlank(c)
  {}

  lemma OrdinaryIsKept(c: char, rest: string)
    requires !IsBlank(c) && (c == '\\' ==> rest == [])
    ensures WithoutBlanks([c] + rest) == [c] + WithoutBlanks(rest)
  {
    assert ([c] + rest)[1..] == rest;
  }

  lemma EscapeIsKept(c: char, rest: string)
    ensures WithoutBlanks(['\\', c] + rest) == ['\\', c] + WithoutBlanks(rest)
  {
    assert (['\\', c] + rest)[2..] == rest && (['\\', c] + rest)[..2] == ['\\', c];
  }

  lemma CommandIsKept(name: string, rest: string)
    requires Spellable(Command(name)) || (name == [] && rest == [])
    ensures WithoutBlanks(("\\" + name) + rest) == "\\" + name + WithoutBlanks(rest)
  {
    hide IsLetter, IsDigit, IsBlank, WithoutBlanks;
    if name == [] {
      BackslashIsNoBlank('\\');
      OrdinaryIsKept('\\', rest);
      assert "\\" + name == ['\\'];
    } else {
      EscapeIsKept(name[0], name[1..] + rest);
      RunIsKept(name[1..], rest);
      assert ['\\', name[0]] + (name[1..] + rest) == ("\\" + name) + rest;
      assert ['\\', name[0]] + name[1..] == "\\" + name;
    }
  }

  lemma TokenIsKept(token: Token, rest: string)
    requires Spellable(token) || (token == Command("") && rest == [])
    ensures WithoutBlanks(Spelling(token) + rest) == Spelling(token) + WithoutBlanks(rest)
  {
    hide IsLetter, IsDigit, IsBlank, WithoutBlanks;
    SpaceIsBlank();
    match token {
      case Number(digits) => RunIsKept(digits, rest);
      case Command(name) => CommandIsKept(name, rest);
      case _ =>
        LettersAndDigitsStay(Spelling(token)[0]);
        OrdinaryIsKept(Spelling(token)[0], rest);
    }
  }

  /** The spellings of the tokens, put together, are the source without its unescaped blanks. */
  lemma {:induction false} OnlyBlanksAreLost(s: string)
    ensures Spellings(Tokenize(s)) == WithoutBlanks(s)
  {
    hide TokenAt, Spelling, IsBlank, Spellable;
    if s == [] {
    } else if IsBlank(s[0]) {
      assert s[0] != '\\' by { BackslashIsNoBlank(s[0]); }
      OnlyBlanksAreLost(s[1..]);
    } else {
      var t := TokenAt(s);
      OnlyBlanksAreLost(s[t.length..]);
      TokenIsSpellable(s);
      TokenIsKept(t.token, s[t.length..]) by { assert t.length == |s| ==> s[t.length..] == []; }
      assert s[..t.length] + s[t.length..] == s;
      var rest := Tokenize(s[t.length..]);
      assert ([t.token] + rest)[1..] == rest;
    }
  }

  // ---------------------------------------------------------------- re-tokenising

  /** Every token is spellable, but that a nameless command may stand last. */
  predicate Lexical(toks: seq<Token>) {
    forall k :: 0 <= k < |toks| ==>
      Spellable(toks[k]) || (k == |toks| - 1 && toks[k] == Command(""))
  }

  /** The spellings with one space between neighbours. */
  function Spaced(toks: seq<Token>): string {
    if toks == [] then ""
    else if |toks| == 1 then Spelling(toks[0])
    else Spelling(toks[0]) + " " + Spaced(toks[1..])
  }

  lemma CommandIsRead(name: string, rest: string)
    requires Spellable(Command(name)) && (rest == [] || rest[0] == ' ')
    ensures CommandAt("\\" + name + rest) == Lexed(Command(name), |name| + 1)
  {
    hide IsBlank, Span, Spelling;
    var s := "\\" + name + rest;
    SpaceIsBlank();
    assert s[1..] == name + rest;
    assert s[1] == name[0];
    if IsLetter(name[0]) {
      SpanOfRun(IsLetter, name, rest);
      assert s[1..1 + |name|] == name;
    } else {
      assert [s[1]] == name;
    }
  }

  lemma NumberIsRead(digits: string, rest: string)
    requires Spellable(Number(digits)) && (rest == [] || rest[0] == ' ')
    ensures TokenAt(digits + rest) == Lexed(Number(digits), |digits|)
  {
    hide IsBlank, Span, Spelling, CommandAt;
    var s := digits + rest;
    SpaceIsBlank();
    assert s[0] == digits[0];
    SpanOfRun(IsDigit, digits, rest);
    assert s[..|digits|] == digits;
  }

  lemma SpellableIsRead(token: Token, rest: string)
    requires Spellable(token) && (rest == [] || rest[0] == ' ')
    ensures Spelling(token) != [] && !IsBlank(Spelling(token)[0])
    ensures TokenAt(Spelling(token) + rest) == Lexed(token, |Spelling(token)|)
  {
    hide IsBlank, Span, CommandAt;
    LettersAndDigitsStay(Spelling(token)[0]);
    SpaceIsBlank();
    match token {
      case Number(digits) => NumberIsRead(digits, rest);
      case Command(name) => CommandIsRead(name, rest);
      case _ =>
    }
  }

  lemma TailIsLexical(toks: seq<Token>)
    requires toks != [] && Lexical(toks)
    ensures Lexical(toks[1..])
    ensures |toks| > 1 ==> Spellable(toks[0])
  {
    hide Spellable;
    forall k | 0 <= k < |toks| - 1 ensures toks[1..][k] == toks[k + 1] {}
  }

  /** Spelling out any lexical token list with spaces and tokenising it gives the list back. */
  lemma {:induction false} SpacedReadsBack(toks: seq<Token>)
    requires Lexical(toks)
    ensures Tokenize(Spaced(toks)) == toks
  {
    hide Spelling, TokenAt, IsBlank, Spellable, Lexical, Tokenize;
    if toks == [] {
      EmptyHasNoTokens();
    } else if |toks| == 1 {
      LastReadsBack(toks[0]) by { LastIsLexical(toks); }
      assert toks == [toks[0]];
    } else {
      TailIsLexical(toks);
      var token, rest := toks[0], " " + Spaced(toks[1..]);
      var s := Spelling(token) + rest;
      SpellableIsRead(token, rest);
      TakeToken(s, 0, token, |Spelling(token)|) by { assert s[0..] == s; }
      assert s[0..] == s && s[|Spelling(token)|..] == rest;
      SpaceIsSkipped(Spaced(toks[1..]));
      SpacedReadsBack(toks[1..]);
      assert Spaced(toks) == s;
      assert [token] + toks[1..] == toks;
    }
  }

  lemma LastIsLexical(toks: seq<Token>)
    requires |toks| == 1 && Lexical(toks)
    ensures Spellable(toks[0]) || toks[0] == Command("")
  {}

  lemma SpaceIsSkipped(s: string)
    ensures Tokenize(" " + s) == Tokenize(s)
  {
    assert (" " + s)[1..] == s;
  }

  lemma LastReadsBack(token: Token)
    requires Spellable(token) || token == Command("")
    ensures Tokenize(Spelling(token)) == [token]
  {
    hide Spellable, IsLetter, IsDigit, Tokenize;
    var s := Spelling(token);
    if token == Command("") {
      assert s == "\\";
      assert TokenAt(s) == Lexed(token, 1);
    } else {
      SpellableIsRead(token, []);
      assert s + [] == s;
    }
    assert s[0..] == s;
    TakeToken(s, 0, token, |s|);
    assert s[|s|..] == [];
    EmptyHasNoTokens();
  }

  /** The tokenizer gives only lexical lists, so they are exactly its results. */
  lemma {:induction false} TokensAreLexical(s: string)
    ensures Lexical(Tokenize(s))
  {
    hide Spelling, TokenAt, IsBlank, Spellable;
    if s == [] {
    } else if IsBlank(s[0]) {
      TokensAreLexical(s[1..]);
    } else {
      var t := TokenAt(s);
      var rest := Tokenize(s[t.length..]);
      TokensAreLexical(s[t.length..]);
      TokenIsSpellable(s);
      if t.length == |s| {
        assert s[t.length..] == [];
        assert rest == [];
      }
      var toks := [t.token] + rest;
      forall k | 0 <= k < |toks|
        ensures Spellable(toks[k]) || (k == |toks| - 1 && toks[k] == Command(""))
      {
        assert k > 0 ==> toks[k] == rest[k - 1];
      }
    }
  }

  /** Re-tokenising the space-joined spellings of any source gives the same tokens. */
  lemma RetokenisingIsStable(s: string)
    ensures Tokenize(Spaced(Tokenize(s))) == Tokenize(s)
  {
    TokensAreLexical(s);
    SpacedReadsBack(Tokenize(s));
  }
}
