/**
 * The LaTeX to MathML converter as it runs: the parser builds markup text while it walks the
 * tokens. Each method is proved to write exactly the rendering of the tree the parser stands for,
 * so what is known of the trees holds of the text: it is properly nested, it reads back as the
 * tree, and its elements have their number of children.
 */
module LatexToMathML {
  import opened Wrappers
  import opened Markup
  import opened LatexTokens
  import opened LatexSymbols
  import opened LatexParser
  import opened LatexArity

  /** Markup and the index of the next token, or the command the converter throws on. */
  datatype Written = Written(node: string, i: nat) | Thrown(name: string)

  function Rendered(p: Parsed): Written {
    match p
    case Parsed(nodes, i) => Written(RenderAll(nodes), i)
    case Unsupported(name) => Thrown(name)
  }

  // ---------------------------------------------------------------- the parser's loops

  /** `parseAtom`. */
  method ParseAtom(toks: seq<Token>, i: nat) returns (r: Written)
    requires i <= |toks|
    ensures r == Rendered(Atom(toks, i))
    decreases |toks| - i, 0
  {
    hide Sequence, EscapeHTML, RenderAll, Symbol, FenceText, Leaf;
    WrittenNothing();
    if i == |toks| {
      return Written("<mi></mi>", i);
    }
    match toks[i] {
      case Open =>
        var g := ParseSeq(toks, i + 1, true);
        if g.Thrown? {
          return g;
        }
        var j := g.i;
        if j < |toks| && toks[j] == Close {
          j := j + 1;
        }
        WrittenElement("mrow", Sequence(toks, i + 1, true).nodes);
        return Written("<mrow>" + g.node + "</mrow>", j);
      case Number(digits) =>
        WrittenLeaf("mn", digits);
        return Written("<mn>" + EscapeHTML(digits) + "</mn>", i + 1);
      case Identifier(letter) =>
        WrittenLeaf("mi", [letter]);
        return Written("<mi>" + EscapeHTML([letter]) + "</mi>", i + 1);
      case Operator(symbol) =>
        WrittenLeaf("mo", [symbol]);
        return Written("<mo>" + EscapeHTML([symbol]) + "</mo>", i + 1);
      case Command(name) =>
        r := ParseCommand(toks, i, name);
      case Close =>
        return Written("<mi></mi>", i + 1);
      case _ =>
        return Written("<mi></mi>", i);
    }
  }

  method ParseFraction(toks: seq<Token>, i: nat) returns (r: Written)
    requires i < |toks| && toks[i] == Command("frac")
    ensures r == Rendered(Atom(toks, i))
    decreases |toks| - i - 1, 1
  {
    hide RenderAll, Dangling, Symbol, Fence;
    var a := ParseAtom(toks, i + 1);
    if a.Thrown? {
      return a;
    }
    var b := ParseAtom(toks, a.i);
    if b.Thrown? {
      return b;
    }
    RenderJoins(Atom(toks, i + 1).nodes, Atom(toks, a.i).nodes);
    WrittenElement("mfrac", Atom(toks, i + 1).nodes + Atom(toks, a.i).nodes);
    return Written("<mfrac>" + (a.node + b.node) + "</mfrac>", b.i);
  }

  method ParseCommand(toks: seq<Token>, i: nat, name: string) returns (r: Written)
    requires i < |toks| && toks[i] == Command(name)
    ensures r == Rendered(Atom(toks, i))
    decreases |toks| - i - 1, 2
  {
    hide EscapeHTML, RenderAll, Greek, Operation, InheritedFunction, Dangling;
    if name == "frac" {
      r := ParseFraction(toks, i);
      return;
    }
    if name == "sqrt" {
      var a := ParseAtom(toks, i + 1);
      if a.Thrown? {
        return a;
      }
      WrittenElement("msqrt", Atom(toks, i + 1).nodes);
      return Written("<msqrt>" + a.node + "</msqrt>", a.i);
    }
    if name == "left" || name == "right" {
      r := ParseFence(toks, i);
      return;
    }
    r := ParseSymbol(name, i);
  }

  method ParseFence(toks: seq<Token>, i: nat) returns (r: Written)
    requires i < |toks|
    ensures r == match Fence(toks, i + 1)
                 case Some(node) => Written(RenderAll([node]), i + 2)
                 case None => Written("", i + 1)
  {
    hide EscapeHTML, RenderAll, Greek, Operation, InheritedFunction;
    if i + 1 < |toks| && (toks[i + 1].Operator? || toks[i + 1].Command?) {
      var d := toks[i + 1];
      var sym := if d.Operator? then [d.symbol] else FenceText(d.name);
      WrittenLeaf("mo", sym);
      return Written("<mo>" + EscapeHTML(sym) + "</mo>", i + 2);
    }
    return Written("", i + 1);
  }

  method ParseSymbol(name: string, i: nat) returns (r: Written)
    ensures r == match Symbol(name)
                 case Some(node) => Written(RenderAll([node]), i + 1)
                 case None => Thrown(name)
  {
    hide EscapeHTML, RenderAll, Greek, Operation, FUNCS, Leaf;
    if Greek(name).Some? {
      WrittenPlainLeaf("mi", [Greek(name).value]);
      return Written("<mi>" + [Greek(name).value] + "</mi>", i + 1);
    }
    if Operation(name).Some? {
      WrittenPlainLeaf("mo", [Operation(name).value]);
      return Written("<mo>" + [Operation(name).value] + "</mo>", i + 1);
    }
    if name in FUNCS {
      FunctionNamesArePlain(name);
      WrittenPlainLeaf("mi", name);
      return Written("<mi>" + name + "</mi>", i + 1);
    }
    if IsPunctuation(name) {
      var trimmed := if name == " " then "" else name;
      WrittenLeaf("mo", trimmed);
      return Written("<mo>" + EscapeHTML(trimmed) + "</mo>", i + 1);
    }
    return Thrown(name);
  }

  /** `parseSeq`: atoms one after another, each with the run of scripts behind it. */
  method ParseSeq(toks: seq<Token>, from: nat, group: bool) returns (r: Written)
    requires from <= |toks|
    ensures r == Rendered(Sequence(toks, from, group))
    decreases |toks| - from, 3
  {
    hide Atom, RenderAll, Enclose, Scripts, Item;
    var out, i := "", from;
    ghost var done: seq<Node> := [];
    NothingIsWritten();
    PrependNothing(Sequence(toks, from, group));
    while i < |toks| && !(group && toks[i] == Close)
      invariant from <= i <= |toks|
      invariant out == RenderAll(done)
      invariant Prepend(done, Sequence(toks, i, group)) == Sequence(toks, from, group)
    {
      var item := ParseItem(toks, i);
      if item.Thrown? {
        return item;
      }
      RenderJoins(done, Item(toks, i).nodes);
      PrependTwice(done, Item(toks, i).nodes, Sequence(toks, item.i, group));
      done := done + Item(toks, i).nodes;
      out, i := out + item.node, item.i;
    }
    assert done + [] == done;
    r := Written(out, i);
  }

  lemma NothingIsWritten()
    ensures RenderAll([]) == ""
  {}

  lemma PrependNothing(rest: Parsed)
    ensures Prepend([], rest) == rest
  {
    if rest.Parsed? {
      assert [] + rest.nodes == rest.nodes;
    }
  }

  /** The body of that loop. */
  method ParseItem(toks: seq<Token>, from: nat) returns (r: Written)
    requires from < |toks|
    ensures r == Rendered(Item(toks, from))
    decreases |toks| - from, 2
  {
    hide Atom, RenderAll, EscapeHTML, Dangling;
    var atom := ParseAtom(toks, from);
    if atom.Thrown? {
      return atom;
    }
    var i, node := atom.i, atom.node;
    var sub: Option<string>, sup: Option<string> := None, None;
    ghost var subNodes: seq<Node>, supNodes: seq<Node> := [], [];
    NothingIsWritten();
    while i < |toks| && IsScript(toks[i])
      invariant atom.i <= i <= |toks|
      invariant Text(sub) == RenderAll(subNodes) && Text(sup) == RenderAll(supNodes)
      invariant Scripts(toks, atom.i, [], []) == Scripts(toks, i, subNodes, supNodes)
      invariant |subNodes| <= 1 && |supNodes| <= 1
    {
      var kind := toks[i];
      i := i + 1;
      var s := ParseAtom(toks, i);
      if s.Thrown? {
        return s;
      }
      if kind == Caret {
        sup, supNodes := Some(s.node), Atom(toks, i).nodes;
      } else {
        sub, subNodes := Some(s.node), Atom(toks, i).nodes;
      }
      i := s.i;
    }
    WrittenScripts(Atom(toks, from).nodes, subNodes, supNodes);
    if Truthy(sub) && Truthy(sup) {
      node := "<msubsup>" + (node + sub.value + sup.value) + "</msubsup>";
    } else if Truthy(sub) {
      node := "<msub>" + (node + sub.value) + "</msub>";
    } else if Truthy(sup) {
      node := "<msup>" + (node + sup.value) + "</msup>";
    }
    r := Written(node, i);
  }

  /** A script that is missing and a script that is written as nothing are both false. */
  predicate Truthy(script: Option<string>) {
    script.Some? && script.value != ""
  }

  function Text(script: Option<string>): string {
    if script.Some? then script.value else ""
  }

  // ---------------------------------------------------------------- what is written for a tree

  lemma WrittenElement(tag: string, children: seq<Node>)
    ensures RenderAll([Element(tag, children)]) == "<" + tag + ">" + RenderAll(children) + "</" + tag + ">"
  {
    RenderOne(Element(tag, children));
  }

  lemma WrittenLeaf(tag: string, text: string)
    ensures RenderAll([Leaf(tag, text)]) == "<" + tag + ">" + EscapeHTML(text) + "</" + tag + ">"
  {
    WrittenElement(tag, Glyphs(text));
    TextIsEscaped(text);
  }

  lemma WrittenNothing()
    ensures RenderAll([Leaf("mi", "")]) == "<mi></mi>"
  {
    WrittenLeaf("mi", "");
  }

  lemma WrittenPlainLeaf(tag: string, text: string)
    requires IsPlain(text)
    ensures RenderAll([Leaf(tag, text)]) == "<" + tag + ">" + text + "</" + tag + ">"
  {
    WrittenLeaf(tag, text);
    PlainTextIsKept(text);
  }

  lemma WrittenScripts(base: seq<Node>, sub: seq<Node>, sup: seq<Node>)
    ensures var node, below, above := RenderAll(base), RenderAll(sub), RenderAll(sup);
            RenderAll(Dress(base, sub, sup))
            == if below != "" && above != "" then "<msubsup>" + (node + below + above) + "</msubsup>"
               else if below != "" then "<msub>" + (node + below) + "</msub>"
               else if above != "" then "<msup>" + (node + above) + "</msup>"
               else node
  {
    hide RenderAll;
    if sub != [] && sup != [] {
      WrittenBoth(base, sub, sup);
    } else if sub != [] {
      WrittenSub(base, sub);
    } else if sup != [] {
      WrittenSup(base, sup);
    }
  }

  lemma WrittenBoth(base: seq<Node>, sub: seq<Node>, sup: seq<Node>)
    ensures RenderAll([Element("msubsup", base + sub + sup)])
            == "<msubsup>" + (RenderAll(base) + RenderAll(sub) + RenderAll(sup)) + "</msubsup>"
  {
    hide RenderAll;
    RenderJoins(base, sub);
    RenderJoins(base + sub, sup);
    WrittenElement("msubsup", base + sub + sup);
  }

  lemma WrittenSub(base: seq<Node>, sub: seq<Node>)
    ensures RenderAll([Element("msub", base + sub)]) == "<msub>" + (RenderAll(base) + RenderAll(sub)) + "</msub>"
  {
    hide RenderAll;
    RenderJoins(base, sub);
    WrittenElement("msub", base + sub);
  }

  lemma WrittenSup(base: seq<Node>, sup: seq<Node>)
    ensures RenderAll([Element("msup", base + sup)]) == "<msup>" + (RenderAll(base) + RenderAll(sup)) + "</msup>"
  {
    hide RenderAll;
    RenderJoins(base, sup);
    WrittenElement("msup", base + sup);
  }

  // ---------------------------------------------------------------- the converter

  const NAMESPACE := " xmlns=\"http://" + "www.w3.org/1998/" + "Math/MathML\""

  const ATTRIBUTES := NAMESPACE + " display=\"block\""

  function Document(nodes: seq<Node>): string {
    "<math" + ATTRIBUTES + "><mrow>" + RenderAll(nodes) + "</mrow></math>"
  }

  /** The tree a document is read as. */
  function Tree(nodes: seq<Node>): Node {
    Element("math", [Element("mrow", nodes)])
  }

  datatype Conversion = Html(text: string) | Refusal(name: string)

  function Convert(latex: string): Conversion {
    match Sequence(Tokenize(latex), 0, false)
    case Parsed(nodes, _) => Html(Document(nodes))
    case Unsupported(name) => Refusal(name)
  }

  /** `latexToMathML`, a throw being a refusal. */
  method LatexToMathML(latex: string) returns (r: Conversion)
    ensures r == Convert(latex)
  {
    hide Sequence, Tokenize, RenderAll;
    var toks := TokenizeLatex(latex);
    var s := ParseSeq(toks, 0, false);
    match s {
      case Written(node, _) => return Html("<math" + ATTRIBUTES + "><mrow>" + node + "</mrow></math>");
      case Thrown(name) => return Refusal(name);
    }
  }

  lemma DocumentReads(nodes: seq<Node>)
    requires AllNamed(nodes)
    ensures Reads(Document(nodes), [Tree(nodes)])
  {
    hide Feed, Step, Extend, NameOf, AllNamed, Named, ATTRIBUTES, RenderAll, EndOfTag;
    var row := Element("mrow", nodes);
    var inner := RenderAll([row]);
    WrittenElement("mrow", nodes);
    RowIsNamed(nodes);
    var root := [Frame("", [])];
    var start := Reading(root, Content);
    var head, tail := "<" + ("math" + ATTRIBUTES) + ">", "</math>";
    assert Document(nodes) == head + inner + tail;
    FeedJoins(start, head + inner, tail);
    FeedJoins(start, head, inner);
    HeadIsRead(root);
    NodesRead([row], root + [Frame("math", [])]);
    ExtendFresh(root, "math", [row]);
    TailIsRead(root, [row]);
    ExtendFresh([], "", [Tree(nodes)]);
    assert [] + root == root && [] + [Frame("", [Tree(nodes)])] == [Frame("", [Tree(nodes)])];
  }

  lemma RowIsNamed(nodes: seq<Node>)
    requires AllNamed(nodes)
    ensures AllNamed([Element("mrow", nodes)])
  {}

  lemma AttributesAreTagText()
    ensures TagText(ATTRIBUTES) && ATTRIBUTES != [] && ATTRIBUTES[0] == ' '
  {
    assert TagText(" xmlns=\"http://") && TagText("www.w3.org/1998/") && TagText("Math/MathML\"");
    assert TagText(NAMESPACE);
    assert TagText(" display=\"block\"");
  }

  lemma HeadIsRead(open: seq<Frame>)
    requires open != []
    ensures Feed(Reading(open, Content), "<" + ("math" + ATTRIBUTES) + ">")
            == Reading(open + [Frame("math", [])], Content)
  {
    hide Feed, ATTRIBUTES;
    AttributesAreTagText();
    TagIsRead(open, "math" + ATTRIBUTES);
    NameStops("math", ATTRIBUTES);
  }

  lemma {:induction false} NameStops(name: string, rest: string)
    requires rest != [] && rest[0] == ' '
    requires forall k :: 0 <= k < |name| ==> name[k] != ' '
    ensures NameOf(name + rest) == name
  {
    if name == [] {
      assert name + rest == rest;
    } else {
      assert (name + rest)[1..] == name[1..] + rest;
      NameStops(name[1..], rest);
      assert [name[0]] + name[1..] == name;
    }
  }

  lemma TailIsRead(open: seq<Frame>, nodes: seq<Node>)
    requires open != []
    ensures Feed(Reading(open + [Frame("math", nodes)], Content), "</math>")
            == Reading(Extend(open, [Element("math", nodes)]), Content)
  {
    hide Feed, Extend;
    var body := open + [Frame("math", nodes)];
    TagIsRead(body, "/math");
    assert "/math"[1..] == "math";
    assert "</math>" == "<" + "/math" + ">";
    assert body[..|body| - 1] == open;
  }

  /**
   * Whenever the converter does not throw, its output is properly nested and reads back as a tree
   * whose elements all have proper names; if every `\left` and `\right` is followed by something
   * it can show, every fraction and every script has exactly its operands.
   */
  lemma OutputIsWellFormed(latex: string)
    requires Convert(latex).Html?
    ensures var toks := Tokenize(latex); var nodes := Sequence(toks, 0, false).nodes;
            && Reads(Convert(latex).text, [Tree(nodes)])
            && WellBuilt(Tree(nodes), FencesShow(toks))
  {
    hide Sequence, WellBuilt, FencesShow, Reads, Document;
    var toks := Tokenize(latex);
    var nodes := Sequence(toks, 0, false).nodes;
    SequenceIsWellBuilt(toks, 0, false, FencesShow(toks));
    AllWellBuiltAreNamed(nodes, FencesShow(toks));
    DocumentReads(nodes);
    TreeIsWellBuilt(nodes, FencesShow(toks));
  }

  /**
   * The output has every arity right exactly if no fence command with nothing to show stands at an
   * operand of a fraction or at the base of an item whose scripts survive.
   */
  lemma ArityHoldsExactly(latex: string)
    requires Convert(latex).Html?
    ensures var toks := Tokenize(latex);
            WellBuilt(Tree(Sequence(toks, 0, false).nodes), true) <==> SequenceFits(toks, 0, false)
  {
    hide Sequence, SequenceFits, WellBuilt, AllWellBuilt, Tokenize, IsName;
    var toks := Tokenize(latex);
    var nodes := Sequence(toks, 0, false).nodes;
    SequenceFitsExactly(toks, 0, false);
    NamesAreNames();
    ElementFitsExactly("mrow", nodes);
    ElementFitsExactly("math", [Element("mrow", nodes)]);
    OneFitsExactly(Tree(nodes));
  }

  lemma OneFitsExactly(node: Node)
    ensures AllWellBuilt([node], true) <==> WellBuilt(node, true)
  {
    assert [node][0] == node;
  }

  lemma TreeIsWellBuilt(nodes: seq<Node>, strict: bool)
    requires AllWellBuilt(nodes, strict)
    ensures WellBuilt(Tree(nodes), strict)
  {
    NamesAreNames();
  }

  /** The converter throws only on a command that is in the source and in none of its tables. */
  lemma RefusesOnlyTheUnknown(latex: string)
    ensures Convert(latex).Refusal? ==>
              Command(Convert(latex).name) in Tokenize(latex) && !Supported(Convert(latex).name)
  {
    hide Sequence, Tokenize, Supported;
    ParsesAllOrRefuses(Tokenize(latex));
  }

  /** Without that condition the shape can fail: this fraction is written with one child. */
  lemma DanglingFenceBreaksAFraction()
    ensures var toks := Tokenize("\\frac \\left");
            && Sequence(toks, 0, false) == Parsed([Element("mfrac", [Leaf("mi", "")])], 2)
            && !WellBuilt(Element("mfrac", [Leaf("mi", "")]), true)
  {
    hide Leaf, Tokenize, Spellable;
    var toks := [Command("frac"), Command("left")];
    NamesAreSpellable();
    SpacedReadsBack(toks);
    assert Spaced(toks[1..]) == "\\left";
    assert Spaced(toks) == "\\frac \\left";
    assert Atom(toks, 1) == Parsed([], 2);
    assert Atom(toks, 2) == Parsed([Leaf("mi", "")], 2);
    var fraction := Element("mfrac", [] + [Leaf("mi", "")]);
    assert Atom(toks, 0) == Parsed([fraction], 2);
    assert Item(toks, 0) == Parsed([fraction], 2);
    assert Sequence(toks, 2, false) == Parsed([], 2);
    assert [fraction] + [] == [fraction];
    assert Sequence(toks, 0, false) == Parsed([fraction], 2);
    assert fraction == Element("mfrac", [Leaf("mi", "")]);
    assert Tokenize("\\frac \\left") == toks;
    assert !Fits("mfrac", 1);
    assert !WellBuilt(fraction, true);
  }

  lemma NamesAreSpellable()
    ensures Spellable(Command("frac")) && Spellable(Command("left"))
  {}
}
