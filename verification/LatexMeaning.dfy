/**
 * What the converter's output means: mathematical expressions, how each is written in LaTeX, and the
 * MathML tree each stands for, all three said without the parser. Every expression, written in LaTeX,
 * converts to the document of its tree.
 */
module LatexMeaning {
  import opened Wrappers
  import opened Markup
  import opened LatexTokens
  import opened LatexSymbols
  import opened LatexParser
  import opened LatexToMathML

  /** An operand. */
  datatype Math =
    | Numeral(digits: string)
    | Letter(c: char)
    | Sign(c: char)
    | GreekLetter(name: string)
    | NamedSign(name: string)
    | FunctionName(name: string)
    | Punctuation(name: string)
    | Group(items: seq<Term>)
    | Fraction(above: Math, below: Math)
    | Root(of: Math)
    | Bracket(right: bool, c: char)
    | NamedBracket(right: bool, name: string)

  /** An operand with its scripts, in the order they are written; the last of a kind is the one that counts. */
  datatype Term = Term(base: Math, scripts: seq<Script>)

  datatype Script = Script(raised: bool, arg: Math)

  // ---------------------------------------------------------------- in LaTeX

  function Spell(m: Math): (r: seq<Token>)
    ensures r != []
    decreases m, 0
  {
    match m
    case Numeral(digits) => [Number(digits)]
    case Letter(c) => [Identifier(c)]
    case Sign(c) => [Operator(c)]
    case GreekLetter(name) => [Command(name)]
    case NamedSign(name) => [Command(name)]
    case FunctionName(name) => [Command(name)]
    case Punctuation(name) => [Command(name)]
    case Group(items) => [Open] + SpellAll(items) + [Close]
    case Fraction(above, below) => [Command("frac")] + Spell(above) + Spell(below)
    case Root(of) => [Command("sqrt")] + Spell(of)
    case Bracket(right, c) => [Command(if right then "right" else "left"), Operator(c)]
    case NamedBracket(right, name) => [Command(if right then "right" else "left"), Command(name)]
  }

  function SpellScript(script: Script): (r: seq<Token>)
    ensures r != [] && IsScript(r[0])
    decreases script, 0
  {
    [if script.raised then Caret else Underscore] + Spell(script.arg)
  }

  function SpellScripts(scripts: seq<Script>): seq<Token>
    decreases scripts, 1
  {
    if scripts == [] then [] else SpellScript(scripts[0]) + SpellScripts(scripts[1..])
  }

  function SpellItem(item: Term): seq<Token>
    decreases item, 0
  {
    Spell(item.base) + SpellScripts(item.scripts)
  }

  function SpellAll(items: seq<Term>): seq<Token>
    decreases items, 1
  {
    if items == [] then [] else SpellItem(items[0]) + SpellAll(items[1..])
  }

  // ---------------------------------------------------------------- in MathML

  function MathTree(m: Math): Node
    decreases m, 0
  {
    match m
    case Numeral(digits) => Element("mn", Glyphs(digits))
    case Letter(c) => Element("mi", [Glyph(c)])
    case Sign(c) => Element("mo", [Glyph(c)])
    case GreekLetter(name) => Element("mi", Shown(Greek(name)))
    case NamedSign(name) => Element("mo", Shown(Operation(name)))
    case FunctionName(name) => Element("mi", Glyphs(name))
    case Punctuation(name) => Element("mo", if name == " " then [] else Glyphs(name))
    case Group(items) => Element("mrow", MathTrees(items))
    case Fraction(above, below) => Element("mfrac", [MathTree(above), MathTree(below)])
    case Root(of) => Element("msqrt", [MathTree(of)])
    case Bracket(_, c) => Element("mo", [Glyph(c)])
    case NamedBracket(_, name) => Element("mo", Shown(Operation(name)))
  }

  function Shown(symbol: Option<char>): seq<Node> {
    match symbol
    case None => []
    case Some(c) => [Glyph(c)]
  }

  function ScriptTree(script: Script): Node
    decreases script, 0
  {
    MathTree(script.arg)
  }

  /** The last script of one kind, as a list of at most one. */
  function LastScript(scripts: seq<Script>, raised: bool): (r: seq<Node>)
    ensures |r| <= 1
    decreases scripts, 1
  {
    if scripts == [] then []
    else
      var later := LastScript(scripts[1..], raised);
      if later != [] then later
      else if scripts[0].raised == raised then [ScriptTree(scripts[0])] else []
  }

  function ItemTree(item: Term): Node
    decreases item, 0
  {
    var (base, sub, sup) := (MathTree(item.base), LastScript(item.scripts, false), LastScript(item.scripts, true));
    if sub != [] && sup != [] then Element("msubsup", [base, sub[0], sup[0]])
    else if sub != [] then Element("msub", [base, sub[0]])
    else if sup != [] then Element("msup", [base, sup[0]])
    else base
  }

  function MathTrees(items: seq<Term>): seq<Node>
    decreases items, 1
  {
    if items == [] then [] else [ItemTree(items[0])] + MathTrees(items[1..])
  }

  // ---------------------------------------------------------------- what can be written

  predicate IsRoman(c: char) { 'A' <= c <= 'Z' || 'a' <= c <= 'z' }

  /** A digit or the decimal point. */
  predicate IsFigure(c: char) { '0' <= c <= '9' || c == '.' }

  predicate IsSign(c: char) {
    && !IsBlank(c) && !IsRoman(c) && !IsFigure(c)
    && c != '\\' && c != '{' && c != '}' && c != '^' && c != '_'
  }

  /** Numerals have digits, letters are letters, and names are in their table, and in none that is asked before. */
  predicate Proper(m: Math)
    decreases m, 0
  {
    match m
    case Numeral(digits) => digits != "" && forall k :: 0 <= k < |digits| ==> IsFigure(digits[k])
    case Letter(c) => IsRoman(c)
    case Sign(c) => IsSign(c)
    case GreekLetter(name) => Greek(name).Some?
    case NamedSign(name) => Greek(name).None? && Operation(name).Some?
    case FunctionName(name) => Greek(name).None? && Operation(name).None? && name in FUNCS
    case Punctuation(name) => IsPunctuation(name)
    case Group(items) => AllProper(items)
    case Fraction(above, below) => Proper(above) && Proper(below)
    case Root(of) => Proper(of)
    case Bracket(_, c) => IsSign(c)
    case NamedBracket(_, name) => Operation(name).Some?
  }

  predicate ProperScript(script: Script)
    decreases script, 0
  {
    Proper(script.arg)
  }

  predicate ProperScripts(scripts: seq<Script>)
    decreases scripts, 1
  {
    forall k :: 0 <= k < |scripts| ==> ProperScript(scripts[k])
  }

  predicate AllProper(items: seq<Term>)
    decreases items, 1
  {
    forall k :: 0 <= k < |items| ==> Proper(items[k].base) && ProperScripts(items[k].scripts)
  }

  // ---------------------------------------------------------------- reading one operand

  /** An operand's first token starts neither a script nor the end of a group. */
  lemma FirstToken(m: Math)
    ensures !IsScript(Spell(m)[0]) && Spell(m)[0] != Close
  {
  }

  predicate IsNamed(m: Math) {
    m.GreekLetter? || m.NamedSign? || m.FunctionName? || m.Punctuation?
  }

  lemma OneGlyph(c: char)
    ensures Glyphs([c]) == [Glyph(c)] && Glyphs("") == []
  {
    assert Glyphs([c])[0] == Glyph(c);
  }

  lemma StructureIsInNoSignTable(name: string)
    requires IsStructure(name)
    ensures Greek(name).None? && Operation(name).None?
  {
  }

  lemma StructureIsNoFunction(name: string)
    requires IsStructure(name)
    ensures name !in FUNCS && !IsPunctuation(name)
  {
  }

  lemma PunctuationIsInNoOtherTable(name: string)
    requires IsPunctuation(name)
    ensures Greek(name).None? && Operation(name).None? && name !in FUNCS
  {
  }

  /** A command is looked up in the tables in their order. */
  lemma NamedIsSymbol(m: Math)
    requires Proper(m) && IsNamed(m)
    ensures !IsStructure(m.name) && Symbol(m.name) == Some(MathTree(m))
  {
    hide Greek, Operation, FUNCS, IsPunctuation, IsStructure, Glyphs;
    if IsStructure(m.name) {
      StructureIsInNoSignTable(m.name);
      StructureIsNoFunction(m.name);
    }
    OneGlyph('x');
    if m.GreekLetter? {
      OneGlyph(Greek(m.name).value);
    } else if m.NamedSign? {
      OneGlyph(Operation(m.name).value);
    } else if m.Punctuation? {
      PunctuationIsInNoOtherTable(m.name);
    }
  }

  /** One token, which stands for itself. */
  lemma TokenReads(toks: seq<Token>, i: nat, m: Math)
    requires Proper(m) && (m.Numeral? || m.Letter? || m.Sign?)
    requires i < |toks| && toks[i] == Spell(m)[0]
    ensures Atom(toks, i) == Parsed([MathTree(m)], i + 1)
  {
    hide Sequence, Symbol, Fence, Dangling, Glyphs;
    match m {
      case Letter(c) => OneGlyph(c);
      case Sign(c) => OneGlyph(c);
      case _ =>
    }
  }

  /** One command, which a table knows. */
  lemma NameReads(toks: seq<Token>, i: nat, m: Math)
    requires Proper(m) && IsNamed(m)
    requires i < |toks| && toks[i] == Command(m.name)
    ensures Atom(toks, i) == Parsed([MathTree(m)], i + 1)
  {
    NamedIsSymbol(m);
    hide Sequence, Symbol, Fence, Dangling, Proper, MathTree;
  }

  /** A fence command and what it shows. */
  lemma BracketReads(toks: seq<Token>, i: nat, m: Math)
    requires Proper(m) && (m.Bracket? || m.NamedBracket?)
    requires i + 1 < |toks| && toks[i] == Spell(m)[0] && toks[i + 1] == Spell(m)[1]
    ensures Atom(toks, i) == Parsed([MathTree(m)], i + 2)
  {
    hide Sequence, Symbol, Dangling, Glyphs, Operation, InheritedFunction;
    match m {
      case Bracket(_, c) => OneGlyph(c);
      case NamedBracket(_, name) => OneGlyph(Operation(name).value);
    }
  }

  // ---------------------------------------------------------------- reading expressions

  lemma {:induction false} AtomReads(pre: seq<Token>, m: Math, rest: seq<Token>)
    requires Proper(m)
    ensures Atom(pre + Spell(m) + rest, |pre|) == Parsed([MathTree(m)], |pre| + |Spell(m)|)
    decreases m, 1
  {
    hide Atom;
    var toks := pre + Spell(m) + rest;
    assert forall k | 0 <= k < |Spell(m)| :: toks[|pre| + k] == Spell(m)[k];
    if m.Group? {
      GroupReads(pre, m, rest);
    } else if m.Fraction? {
      FractionReads(pre, m, rest);
    } else if m.Root? {
      RootReads(pre, m, rest);
    } else if IsNamed(m) {
      NameReads(toks, |pre|, m);
    } else if m.Bracket? || m.NamedBracket? {
      BracketReads(toks, |pre|, m);
    } else {
      TokenReads(toks, |pre|, m);
    }
  }

  lemma {:induction false} GroupReads(pre: seq<Token>, m: Math, rest: seq<Token>)
    requires Proper(m) && m.Group?
    ensures Atom(pre + Spell(m) + rest, |pre|) == Parsed([MathTree(m)], |pre| + |Spell(m)|)
    decreases m, 0
  {
    hide Sequence, Dangling, Symbol, Fence, SpellAll, MathTrees, AllProper;
    var toks := pre + Spell(m) + rest;
    var body := SpellAll(m.items);
    assert toks == (pre + [Open]) + body + ([Close] + rest);
    assert toks[|pre|] == Open;
    ItemsRead(pre + [Open], m.items, [Close] + rest, true);
    assert toks[|pre| + 1 + |body|] == Close;
  }

  lemma FracTakesTwo(toks: seq<Token>, i: nat, j: nat, k: nat, a: Node, b: Node)
    requires i < |toks| && toks[i] == Command("frac") && j <= |toks|
    requires Atom(toks, i + 1) == Parsed([a], j) && Atom(toks, j) == Parsed([b], k)
    ensures Atom(toks, i) == Parsed([Element("mfrac", [a, b])], k)
  {
    hide Symbol, Fence, Sequence, Dangling;
    assert [a] + [b] == [a, b];
  }

  lemma {:induction false} FractionReads(pre: seq<Token>, m: Math, rest: seq<Token>)
    requires Proper(m) && m.Fraction?
    ensures Atom(pre + Spell(m) + rest, |pre|) == Parsed([MathTree(m)], |pre| + |Spell(m)|)
    decreases m, 0
  {
    hide Atom;
    var toks := pre + Spell(m) + rest;
    var (above, below) := (Spell(m.above), Spell(m.below));
    assert Spell(m) == [Command("frac")] + above + below;
    assert MathTree(m) == Element("mfrac", [MathTree(m.above), MathTree(m.below)]);
    hide Spell, MathTree, Proper;
    var start := pre + [Command("frac")];
    assert toks == start + above + (below + rest) && toks[|pre|] == Command("frac");
    assert toks == (start + above) + below + rest;
    AtomReads(start, m.above, below + rest);
    AtomReads(start + above, m.below, rest);
    FracTakesTwo(toks, |pre|, |start + above|, |start + above| + |below|, MathTree(m.above), MathTree(m.below));
  }

  lemma RootTakesOne(toks: seq<Token>, i: nat, j: nat, a: Node)
    requires i < |toks| && toks[i] == Command("sqrt") && Atom(toks, i + 1) == Parsed([a], j)
    ensures Atom(toks, i) == Parsed([Element("msqrt", [a])], j)
  {
    hide Symbol, Fence, Sequence, Dangling;
  }

  lemma {:induction false} RootReads(pre: seq<Token>, m: Math, rest: seq<Token>)
    requires Proper(m) && m.Root?
    ensures Atom(pre + Spell(m) + rest, |pre|) == Parsed([MathTree(m)], |pre| + |Spell(m)|)
    decreases m, 0
  {
    hide Atom;
    var toks := pre + Spell(m) + rest;
    var of := Spell(m.of);
    assert Spell(m) == [Command("sqrt")] + of;
    assert MathTree(m) == Element("msqrt", [MathTree(m.of)]);
    hide Spell, MathTree, Proper;
    var start := pre + [Command("sqrt")];
    assert toks == start + of + rest && toks[|pre|] == Command("sqrt");
    AtomReads(start, m.of, rest);
    RootTakesOne(toks, |pre|, |start| + |of|, MathTree(m.of));
  }

  lemma ScriptTakesOne(toks: seq<Token>, i: nat, raised: bool, j: nat, a: Node, sub: seq<Node>, sup: seq<Node>)
    requires i < |toks| && toks[i] == (if raised then Caret else Underscore) && j <= |toks|
    requires Atom(toks, i + 1) == Parsed([a], j)
    ensures LatexParser.Scripts(toks, i, sub, sup)
         == if raised then LatexParser.Scripts(toks, j, sub, [a]) else LatexParser.Scripts(toks, j, [a], sup)
  {
    hide Atom;
  }

  lemma {:induction false} OneScriptReads(pre: seq<Token>, script: Script, tail: seq<Token>, sub: seq<Node>, sup: seq<Node>)
    requires ProperScript(script)
    ensures var (toks, j) := (pre + SpellScript(script) + tail, |pre + SpellScript(script)|);
      LatexParser.Scripts(toks, |pre|, sub, sup)
      == if script.raised then LatexParser.Scripts(toks, j, sub, [ScriptTree(script)])
         else LatexParser.Scripts(toks, j, [ScriptTree(script)], sup)
    decreases script, 0
  {
    hide Atom, Spell, Proper, LatexParser.Scripts;
    var (sign, arg) := ([if script.raised then Caret else Underscore], Spell(script.arg));
    var toks := pre + SpellScript(script) + tail;
    assert toks == (pre + sign) + arg + tail && toks[|pre|] == sign[0];
    AtomReads(pre + sign, script.arg, tail);
    ScriptTakesOne(toks, |pre|, script.raised, |pre + SpellScript(script)|, ScriptTree(script), sub, sup);
  }

  lemma NoScripts(pre: seq<Token>, rest: seq<Token>, sub: seq<Node>, sup: seq<Node>)
    requires rest == [] || !IsScript(rest[0])
    ensures LatexParser.Scripts(pre + [] + rest, |pre|, sub, sup) == LatexParser.Scripted(sub, sup, |pre|)
  {
    hide Atom;
  }

  /** A run of scripts takes over what came before, kind by kind. */
  lemma {:induction false} ScriptsRead(
      pre: seq<Token>, scripts: seq<Script>, rest: seq<Token>, sub: seq<Node>, sup: seq<Node>)
    requires ProperScripts(scripts) && (rest == [] || !IsScript(rest[0]))
    ensures LatexParser.Scripts(pre + SpellScripts(scripts) + rest, |pre|, sub, sup)
         == LatexParser.Scripted(Later(sub, LastScript(scripts, false)), Later(sup, LastScript(scripts, true)),
                                 |pre| + |SpellScripts(scripts)|)
    decreases scripts, 1
  {
    hide LatexParser.Scripts, SpellScript, ScriptTree, ProperScript, IsScript;
    if scripts == [] {
      NoScripts(pre, rest, sub, sup);
    } else {
      var (script, more) := (scripts[0], scripts[1..]);
      LastOfMore(scripts, false);
      LastOfMore(scripts, true);
      hide LastScript;
      var (head, tail) := (pre + SpellScript(script), SpellScripts(more) + rest);
      SplitScripts(pre, scripts, rest);
      OneScriptReads(pre, script, tail, sub, sup);
      if script.raised {
        ScriptsRead(head, more, rest, sub, [ScriptTree(script)]);
      } else {
        ScriptsRead(head, more, rest, [ScriptTree(script)], sup);
      }
    }
  }

  lemma SplitScripts(pre: seq<Token>, scripts: seq<Script>, rest: seq<Token>)
    requires scripts != []
    ensures var (toks, head) := (pre + SpellScripts(scripts) + rest, pre + SpellScript(scripts[0]));
      && toks == head + (SpellScripts(scripts[1..]) + rest) && toks == head + SpellScripts(scripts[1..]) + rest
      && |SpellScripts(scripts)| == |SpellScript(scripts[0])| + |SpellScripts(scripts[1..])|
  {
    hide SpellScript;
  }

  lemma LastOfMore(scripts: seq<Script>, raised: bool)
    requires scripts != []
    ensures LastScript(scripts, raised)
         == Later(if scripts[0].raised == raised then [ScriptTree(scripts[0])] else [], LastScript(scripts[1..], raised))
  {
  }

  function Later(before: seq<Node>, later: seq<Node>): seq<Node> {
    if later != [] then later else before
  }

  lemma {:induction false} ItemReads(pre: seq<Token>, item: Term, rest: seq<Token>)
    requires Proper(item.base) && ProperScripts(item.scripts) && (rest == [] || !IsScript(rest[0]))
    ensures LatexParser.Item(pre + SpellItem(item) + rest, |pre|) == Parsed([ItemTree(item)], |pre| + |SpellItem(item)|)
    decreases item, 0
  {
    hide Atom, Proper, Spell, MathTree, Scripts, LastScript, SpellScripts, ProperScripts;
    var toks := pre + SpellItem(item) + rest;
    var (base, scripts) := (Spell(item.base), SpellScripts(item.scripts));
    assert toks == pre + base + (scripts + rest);
    assert toks == (pre + base) + scripts + rest;
    AtomReads(pre, item.base, scripts + rest);
    ScriptsRead(pre + base, item.scripts, rest, [], []);
    Dressed(MathTree(item.base), LastScript(item.scripts, false), LastScript(item.scripts, true));
  }

  lemma Dressed(base: Node, sub: seq<Node>, sup: seq<Node>)
    requires |sub| <= 1 && |sup| <= 1
    ensures Dress([base], sub, sup)
         == if sub != [] && sup != [] then [Element("msubsup", [base, sub[0], sup[0]])]
            else if sub != [] then [Element("msub", [base, sub[0]])]
            else if sup != [] then [Element("msup", [base, sup[0]])]
            else [base]
  {
    if sub != [] && sup != [] {
      assert [base] + sub + sup == [base, sub[0], sup[0]];
    } else if sub != [] {
      assert [base] + sub == [base, sub[0]];
    } else if sup != [] {
      assert [base] + sup == [base, sup[0]];
    }
  }

  lemma {:induction false} ItemsRead(pre: seq<Token>, items: seq<Term>, rest: seq<Token>, group: bool)
    requires AllProper(items) && (rest == [] || (group && rest[0] == Close))
    ensures LatexParser.Sequence(pre + SpellAll(items) + rest, |pre|, group)
         == Parsed(MathTrees(items), |pre| + |SpellAll(items)|)
    decreases items, 1
  {
    hide LatexParser.Item, Spell, Proper, ProperScripts, ItemTree, SpellItem;
    var toks := pre + SpellAll(items) + rest;
    if items == [] {
      assert toks == pre + rest;
    } else {
      var (item, more) := (items[0], items[1..]);
      var (head, tail) := (SpellItem(item), SpellAll(more));
      FirstOfItem(item);
      AfterItem(more, rest);
      assert toks == pre + head + (tail + rest);
      assert toks == (pre + head) + tail + rest;
      assert toks[|pre|] == head[0];
      ItemReads(pre, item, tail + rest);
      ItemsRead(pre + head, more, rest, group);
    }
  }

  lemma FirstOfItem(item: Term)
    ensures SpellItem(item) != [] && !IsScript(SpellItem(item)[0]) && SpellItem(item)[0] != Close
  {
    hide Spell;
    FirstToken(item.base);
  }

  /** What follows an item is another item, or the end. */
  lemma AfterItem(items: seq<Term>, rest: seq<Token>)
    requires rest == [] || rest[0] == Close
    ensures var next := SpellAll(items) + rest; next == [] || !IsScript(next[0])
  {
    if items != [] { FirstOfItem(items[0]); }
  }

  // ---------------------------------------------------------------- the converter

  /** The page's frame: a block of display mathematics in the MathML namespace, with one row. */
  function Page(body: string): string {
    "<math" + (" xmlns=\"http://" + "www.w3.org/1998/" + "Math/MathML\"" + " display=\"block\"") + "><mrow>"
    + body + "</mrow></math>"
  }

  lemma DocumentIsPage(nodes: seq<Node>)
    ensures Document(nodes) == Page(RenderAll(nodes))
  {
    hide RenderAll;
  }

  /** Any source whose tokens spell an expression converts to the document of that expression's tree. */
  lemma ExpressionConverts(latex: string, items: seq<Term>)
    requires AllProper(items) && Tokenize(latex) == SpellAll(items)
    ensures Convert(latex) == Html(Page(RenderAll(MathTrees(items))))
  {
    hide Tokenize, LatexParser.Sequence, SpellAll, MathTrees, AllProper, Document, Page, RenderAll;
    var toks := SpellAll(items);
    assert [] + toks + [] == toks;
    ItemsRead([], items, [], false);
    DocumentIsPage(MathTrees(items));
  }

  // ---------------------------------------------------------------- written with spaces

  predicate Letters(name: string) {
    name != [] && forall k :: 0 <= k < |name| ==> IsLetter(name[k])
  }

  lemma ShortGreekNames(name: string)
    requires Greek(name).Some? && |name| <= 3
    ensures Letters(name)
  {
  }

  lemma MiddlingGreekNames(name: string)
    requires Greek(name).Some? && 4 <= |name| <= 5
    ensures Letters(name)
  {
  }

  lemma LongGreekNames(name: string)
    requires Greek(name).Some? && |name| > 5
    ensures Letters(name)
  {
  }

  lemma ShortOperationNames(name: string)
    requires Operation(name).Some? && |name| <= 3
    ensures Letters(name)
  {
  }

  lemma MiddlingOperationNames(name: string)
    requires Operation(name).Some? && 4 <= |name| <= 5
    ensures Letters(name)
  {
  }

  lemma LongOperationNames(name: string)
    requires Operation(name).Some? && |name| == 6
    ensures Letters(name)
  {
  }

  lemma LongerOperationNames(name: string)
    requires Operation(name).Some? && 7 <= |name| <= 9
    ensures Letters(name)
  {
  }

  lemma LongestOperationNames(name: string)
    requires Operation(name).Some? && |name| > 9
    ensures Letters(name)
  {
  }

  lemma FunctionNamesAreLetters(name: string)
    requires name in FUNCS
    ensures Letters(name)
  {
  }

  lemma LettersAreSpellable(name: string)
    ensures Letters(name) ==> Spellable(Command(name))
    ensures Letters("frac") && Letters("sqrt") && Letters("left") && Letters("right")
  {
  }

  /** The name of every known symbol can be written. */
  lemma NamesAreSpellable(name: string)
    requires Greek(name).Some? || Operation(name).Some? || name in FUNCS || IsPunctuation(name)
    ensures Spellable(Command(name))
  {
    hide Greek, Operation, FUNCS, Letters, Spellable;
    if Greek(name).Some? {
      if |name| <= 3 {
        ShortGreekNames(name);
      } else if |name| <= 5 {
        MiddlingGreekNames(name);
      } else {
        LongGreekNames(name);
      }
    } else if Operation(name).Some? {
      if |name| <= 3 {
        ShortOperationNames(name);
      } else if |name| <= 5 {
        MiddlingOperationNames(name);
      } else if |name| == 6 {
        LongOperationNames(name);
      } else if |name| <= 9 {
        LongerOperationNames(name);
      } else {
        LongestOperationNames(name);
      }
    } else if name in FUNCS {
      FunctionNamesAreLetters(name);
    } else {
      OneCharacterIsSpellable(name);
    }
    LettersAreSpellable(name);
  }

  lemma OneCharacterIsSpellable(name: string)
    requires |name| == 1
    ensures Spellable(Command(name))
  {
  }

  lemma CharactersAreSpellable(m: Math)
    requires Proper(m)
    ensures m.Numeral? ==> Spellable(Number(m.digits))
    ensures m.Letter? ==> Spellable(Identifier(m.c))
    ensures m.Sign? || m.Bracket? ==> Spellable(Operator(m.c))
  {
    hide IsBlank;
  }

  predicate AllSpellable(toks: seq<Token>) {
    forall k :: 0 <= k < |toks| ==> Spellable(toks[k])
  }

  lemma SpellableJoin(a: seq<Token>, b: seq<Token>)
    requires AllSpellable(a) && AllSpellable(b)
    ensures AllSpellable(a + b)
  {
    hide Spellable;
  }

  lemma {:induction false} SpelledIsSpellable(m: Math)
    requires Proper(m)
    ensures AllSpellable(Spell(m))
    decreases m, 0
  {
    hide Spellable, Greek, Operation, FUNCS, IsPunctuation, AllSpellable;
    SignsAreSpellable();
    CharactersAreSpellable(m);
    match m {
      case Numeral(digits) => OneIsSpellable(Number(digits));
      case Letter(c) => OneIsSpellable(Identifier(c));
      case Sign(c) => OneIsSpellable(Operator(c));
      case Bracket(right, c) => TwoAreSpellable(Command(if right then "right" else "left"), Operator(c));
      case NamedBracket(right, name) =>
        NamesAreSpellable(name);
        TwoAreSpellable(Command(if right then "right" else "left"), Command(name));
      case Group(items) =>
        AllSpelledAreSpellable(items);
        SpellableJoin([Open], SpellAll(items));
        SpellableJoin([Open] + SpellAll(items), [Close]);
      case Fraction(above, below) =>
        SpelledIsSpellable(above);
        SpelledIsSpellable(below);
        SpellableJoin([Command("frac")], Spell(above));
        SpellableJoin([Command("frac")] + Spell(above), Spell(below));
      case Root(of) =>
        SpelledIsSpellable(of);
        SpellableJoin([Command("sqrt")], Spell(of));
      case _ =>
        NamesAreSpellable(m.name);
        OneIsSpellable(Command(m.name));
    }
  }

  lemma OneIsSpellable(token: Token)
    requires Spellable(token)
    ensures AllSpellable([token])
  {
    hide Spellable;
  }

  lemma TwoAreSpellable(a: Token, b: Token)
    requires Spellable(a) && Spellable(b)
    ensures AllSpellable([a, b])
  {
    hide Spellable;
  }

  lemma SignsAreSpellable()
    ensures AllSpellable([Open]) && AllSpellable([Close]) && AllSpellable([Caret]) && AllSpellable([Underscore])
    ensures AllSpellable([Command("frac")]) && AllSpellable([Command("sqrt")])
    ensures Spellable(Command("left")) && Spellable(Command("right"))
  {
    hide Spellable, Letters;
    LettersAreSpellable("frac");
    LettersAreSpellable("sqrt");
    LettersAreSpellable("left");
    LettersAreSpellable("right");
    SignTokens();
  }

  lemma SignTokens()
    ensures Spellable(Open) && Spellable(Close) && Spellable(Caret) && Spellable(Underscore)
  {
  }

  lemma {:induction false} ScriptsAreSpellable(scripts: seq<Script>)
    requires ProperScripts(scripts)
    ensures AllSpellable(SpellScripts(scripts))
    decreases scripts, 1
  {
    hide AllSpellable, Spell, Proper;
    if scripts == [] {
      NothingIsSpellable();
    } else {
      ScriptIsSpellable(scripts[0]);
      ScriptsAreSpellable(scripts[1..]);
      SpellableJoin(SpellScript(scripts[0]), SpellScripts(scripts[1..]));
    }
  }

  lemma NothingIsSpellable()
    ensures AllSpellable([])
  {
  }

  lemma {:induction false} ScriptIsSpellable(script: Script)
    requires ProperScript(script)
    ensures AllSpellable(SpellScript(script))
    decreases script, 0
  {
    hide AllSpellable, Spell, Proper;
    SignsAreSpellable();
    SpelledIsSpellable(script.arg);
    SpellableJoin([if script.raised then Caret else Underscore], Spell(script.arg));
  }

  lemma {:induction false} AllSpelledAreSpellable(items: seq<Term>)
    requires AllProper(items)
    ensures AllSpellable(SpellAll(items))
    decreases items, 1
  {
    hide AllSpellable, Spell, Proper, SpellScripts, ProperScripts;
    if items == [] {
      NothingIsSpellable();
    } else {
      SpelledIsSpellable(items[0].base);
      ScriptsAreSpellable(items[0].scripts);
      SpellableJoin(Spell(items[0].base), SpellScripts(items[0].scripts));
      AllSpelledAreSpellable(items[1..]);
      SpellableJoin(SpellItem(items[0]), SpellAll(items[1..]));
    }
  }

  /** Every expression, written with a space between tokens, converts to the document of its tree. */
  lemma WrittenConverts(items: seq<Term>)
    requires AllProper(items)
    ensures Convert(Spaced(SpellAll(items))) == Html(Page(RenderAll(MathTrees(items))))
  {
    hide Tokenize, Spaced, SpellAll, MathTrees, AllProper, Convert, Spellable, Page, RenderAll;
    AllSpelledAreSpellable(items);
    SpacedReadsBack(SpellAll(items));
    ExpressionConverts(Spaced(SpellAll(items)), items);
  }
}
