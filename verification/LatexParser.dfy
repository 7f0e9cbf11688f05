/**
 * What the LaTeX converter's parser builds, as trees.
 *
 * The converter writes markup as it goes; here the same walk over the tokens yields the nodes that
 * markup stands for. An atom is at most one node: a `\left` or `\right` with nothing to show
 * yields none, and a script that yields none counts as absent, as an empty string is false.
 * An atom at `^`, at `_` or at the end yields an empty identifier and consumes nothing.
 */
module LatexParser {
  import opened Wrappers
  import opened Markup
  import opened LatexTokens
  import opened LatexSymbols

  /** The nodes built and the index of the next token, or the command that was refused. */
  datatype Parsed = Parsed(nodes: seq<Node>, i: nat) | Unsupported(name: string)

  /** The scripts in force after a run of them; the later of two of a kind wins. */
  datatype Scripted = Scripted(sub: seq<Node>, sup: seq<Node>, i: nat) | BadScript(name: string)

  function Leaf(tag: string, text: string): Node {
    Element(tag, Glyphs(text))
  }

  predicate IsScript(token: Token) {
    token == Caret || token == Underscore
  }

  /** A base with its scripts around it. */
  function Dress(base: seq<Node>, sub: seq<Node>, sup: seq<Node>): seq<Node> {
    if sub != [] && sup != [] then [Element("msubsup", base + sub + sup)]
    else if sub != [] then [Element("msub", base + sub)]
    else if sup != [] then [Element("msup", base + sup)]
    else base
  }

  /** A command that stands for a symbol, a function name or punctuation. */
  function Symbol(name: string): (r: Option<Node>)
  {
    if Greek(name).Some? then Some(Leaf("mi", [Greek(name).value]))
    else if Operation(name).Some? then Some(Leaf("mo", [Operation(name).value]))
    else if name in FUNCS then Some(Leaf("mi", name))
    else if IsPunctuation(name) then Some(Leaf("mo", if name == " " then "" else name))
    else None
  }

  /** The token after `\left` or `\right`, if it can be shown as a fence. */
  function Fence(toks: seq<Token>, i: nat): Option<Node> {
    if i >= |toks| then None
    else
      match toks[i]
      case Operator(symbol) => Some(Leaf("mo", [symbol]))
      case Command(name) => Some(Leaf("mo", FenceText(name)))
      case _ => None
  }

  /** A fence command with nothing after it that it could show. */
  predicate Dangling(toks: seq<Token>, i: nat) {
    && i < |toks|
    && (toks[i] == Command("left") || toks[i] == Command("right"))
    && Fence(toks, i + 1).None?
  }

  function Atom(toks: seq<Token>, i: nat): (r: Parsed)
    requires i <= |toks|
    ensures r.Parsed? ==> i <= r.i <= |toks|
    ensures r.Parsed? && i < |toks| && !IsScript(toks[i]) ==> i < r.i
    ensures r.Parsed? ==> |r.nodes| == if Dangling(toks, i) then 0 else 1
    decreases |toks| - i, 0
  {
    if i == |toks| then Parsed([Leaf("mi", "")], i)
    else
      match toks[i]
      case Open =>
        (match Sequence(toks, i + 1, true)
         case Unsupported(name) => Unsupported(name)
         case Parsed(nodes, j) =>
           Parsed([Element("mrow", nodes)], if j < |toks| && toks[j] == Close then j + 1 else j))
      case Number(digits) => Parsed([Leaf("mn", digits)], i + 1)
      case Identifier(letter) => Parsed([Leaf("mi", [letter])], i + 1)
      case Operator(symbol) => Parsed([Leaf("mo", [symbol])], i + 1)
      case Caret => Parsed([Leaf("mi", "")], i)
      case Underscore => Parsed([Leaf("mi", "")], i)
      case Close => Parsed([Leaf("mi", "")], i + 1)
      case Command(name) =>
        if name == "frac" then
          (match Atom(toks, i + 1)
           case Unsupported(bad) => Unsupported(bad)
           case Parsed(a, j) =>
             match Atom(toks, j)
             case Unsupported(bad) => Unsupported(bad)
             case Parsed(b, k) => Parsed([Element("mfrac", a + b)], k))
        else if name == "sqrt" then
          (match Atom(toks, i + 1)
           case Unsupported(bad) => Unsupported(bad)
           case Parsed(a, j) => Parsed([Element("msqrt", a)], j))
        else if name == "left" || name == "right" then
          (match Fence(toks, i + 1)
           case Some(node) => Parsed([node], i + 2)
           case None => Parsed([], i + 1))
        else
          match Symbol(name)
          case Some(node) => Parsed([node], i + 1)
          case None => Unsupported(name)
  }

  function Scripts(toks: seq<Token>, i: nat, sub: seq<Node>, sup: seq<Node>): (r: Scripted)
    requires i <= |toks|
    ensures r.Scripted? ==> i <= r.i <= |toks|
    ensures r.Scripted? ==> (r.i == |toks| || !IsScript(toks[r.i]))
    ensures r.Scripted? && i < |toks| && IsScript(toks[i]) ==> i < r.i
    ensures r.Scripted? && |sub| <= 1 && |sup| <= 1 ==> |r.sub| <= 1 && |r.sup| <= 1
    decreases |toks| - i, 0
  {
    if i == |toks| || !IsScript(toks[i]) then Scripted(sub, sup, i)
    else
      match Atom(toks, i + 1)
      case Unsupported(name) => BadScript(name)
      case Parsed(nodes, j) =>
        if toks[i] == Caret then Scripts(toks, j, sub, nodes) else Scripts(toks, j, nodes, sup)
  }

  function Sequence(toks: seq<Token>, i: nat, group: bool): (r: Parsed)
    requires i <= |toks|
    ensures r.Parsed? ==> i <= r.i <= |toks|
    ensures r.Parsed? ==> r.i == |toks| || (group && toks[r.i] == Close)
    decreases |toks| - i, 2
  {
    if i == |toks| || (group && toks[i] == Close) then Parsed([], i)
    else
      match Item(toks, i)
      case Unsupported(name) => Unsupported(name)
      case Parsed(nodes, j) => Prepend(nodes, Sequence(toks, j, group))
  }

  /** An atom and the scripts after it: one turn of the parser's loop, which always consumes. */
  function Item(toks: seq<Token>, i: nat): (r: Parsed)
    requires i < |toks|
    ensures r.Parsed? ==> i < r.i <= |toks|
    decreases |toks| - i, 1
  {
    match Atom(toks, i)
    case Unsupported(name) => Unsupported(name)
    case Parsed(base, j) =>
      match Scripts(toks, j, [], [])
      case BadScript(name) => Unsupported(name)
      case Scripted(sub, sup, k) => Parsed(Dress(base, sub, sup), k)
  }

  function Prepend(nodes: seq<Node>, rest: Parsed): (r: Parsed)
    ensures r.Parsed? <==> rest.Parsed?
    ensures r.Parsed? ==> r.i == rest.i
  {
    match rest
    case Unsupported(name) => Unsupported(name)
    case Parsed(more, i) => Parsed(nodes + more, i)
  }

  lemma PrependTwice(a: seq<Node>, b: seq<Node>, rest: Parsed)
    ensures Prepend(a, Prepend(b, rest)) == Prepend(a + b, rest)
  {
    if rest.Parsed? {
      assert a + (b + rest.nodes) == a + b + rest.nodes;
    }
  }

  // ---------------------------------------------------------------- consuming everything

  ghost predicate Refused(toks: seq<Token>, name: string) {
    Command(name) in toks && !Supported(name)
  }

  lemma SymbolIsSupported(name: string)
    requires !IsStructure(name)
    ensures Symbol(name).Some? <==> Supported(name)
  {}

  lemma {:induction false} AtomRefusals(toks: seq<Token>, i: nat)
    requires i <= |toks|
    ensures Atom(toks, i).Unsupported? ==> Refused(toks, Atom(toks, i).name)
    decreases |toks| - i, 0
  {
    hide Symbol, Supported, Fence, Leaf, Sequence;
    if i < |toks| {
      match toks[i] {
        case Open => SequenceRefusals(toks, i + 1, true);
        case Command(name) =>
          if name == "frac" {
            AtomRefusals(toks, i + 1);
            if Atom(toks, i + 1).Parsed? {
              AtomRefusals(toks, Atom(toks, i + 1).i);
            }
          } else if name == "sqrt" {
            AtomRefusals(toks, i + 1);
          } else if name != "left" && name != "right" {
            SymbolIsSupported(name);
          }
        case _ =>
      }
    }
  }

  lemma {:induction false} ScriptRefusals(toks: seq<Token>, i: nat, sub: seq<Node>, sup: seq<Node>)
    requires i <= |toks|
    ensures Scripts(toks, i, sub, sup).BadScript? ==> Refused(toks, Scripts(toks, i, sub, sup).name)
    decreases |toks| - i, 0
  {
    hide Atom, Refused;
    if i < |toks| && IsScript(toks[i]) {
      AtomRefusals(toks, i + 1);
      match Atom(toks, i + 1) {
        case Unsupported(_) =>
        case Parsed(nodes, j) =>
          if toks[i] == Caret {
            ScriptRefusals(toks, j, sub, nodes);
          } else {
            ScriptRefusals(toks, j, nodes, sup);
          }
      }
    }
  }

  lemma {:induction false} SequenceRefusals(toks: seq<Token>, i: nat, group: bool)
    requires i <= |toks|
    ensures Sequence(toks, i, group).Unsupported? ==> Refused(toks, Sequence(toks, i, group).name)
    decreases |toks| - i, 2
  {
    hide Atom, Scripts, Refused, Dress;
    if i < |toks| && !(group && toks[i] == Close) {
      AtomRefusals(toks, i);
      if Atom(toks, i).Parsed? {
        ScriptRefusals(toks, Atom(toks, i).i, [], []);
      }
      if Item(toks, i).Parsed? {
        SequenceRefusals(toks, Item(toks, i).i, group);
      }
    }
  }

  /**
   * The whole parse either consumes every token or refuses a command that is there and that no
   * table holds; a list of supported commands never fails to parse.
   */
  lemma ParsesAllOrRefuses(toks: seq<Token>)
    ensures var r := Sequence(toks, 0, false);
            if r.Parsed? then r.i == |toks| else Command(r.name) in toks && !Supported(r.name)
  {
    hide Supported;
    SequenceRefusals(toks, 0, false);
  }

  // ---------------------------------------------------------------- shape of the trees

  /** The number of children section 3.1.3.2 of MathML 3.0 gives an element, if it fixes one. */
  function Arity(tag: string): Option<nat> {
    if tag == "mfrac" || tag == "msub" || tag == "msup" then Some(2)
    else if tag == "msubsup" then Some(3)
    else None
  }

  predicate Fits(tag: string, count: nat) {
    Arity(tag) == None || Arity(tag) == Some(count)
  }

  /** Every element in the tree has a proper name and, if `strict`, its number of children. */
  predicate WellBuilt(node: Node, strict: bool)
    decreases node, 0
  {
    match node
    case Glyph(_) => true
    case Element(tag, children) =>
      IsName(tag) && (strict ==> Fits(tag, |children|)) && AllWellBuilt(children, strict)
  }

  predicate AllWellBuilt(nodes: seq<Node>, strict: bool)
    decreases nodes, 1
  {
    forall k :: 0 <= k < |nodes| ==> WellBuilt(nodes[k], strict)
  }

  /** Every `\left` and `\right` is followed by a token it can show. */
  ghost predicate FencesShow(toks: seq<Token>) {
    forall k :: 0 <= k < |toks| ==> !Dangling(toks, k)
  }

  lemma LeafIsWellBuilt(tag: string, text: string, strict: bool)
    requires tag == "mi" || tag == "mo" || tag == "mn"
    ensures WellBuilt(Leaf(tag, text), strict)
  {
    forall k | 0 <= k < |text| ensures WellBuilt(Glyphs(text)[k], strict) {
      assert Glyphs(text)[k] == Glyph(text[k]);
    }
  }

  lemma ElementIsWellBuilt(tag: string, children: seq<Node>, strict: bool)
    requires IsName(tag) && (strict ==> Fits(tag, |children|)) && AllWellBuilt(children, strict)
    ensures AllWellBuilt([Element(tag, children)], strict)
  {}

  lemma JoinedAreWellBuilt(a: seq<Node>, b: seq<Node>, strict: bool)
    requires AllWellBuilt(a, strict) && AllWellBuilt(b, strict)
    ensures AllWellBuilt(a + b, strict)
  {
    hide WellBuilt;
  }

  lemma DressedAreWellBuilt(base: seq<Node>, sub: seq<Node>, sup: seq<Node>, strict: bool)
    requires AllWellBuilt(base, strict) && AllWellBuilt(sub, strict) && AllWellBuilt(sup, strict)
    requires |sub| <= 1 && |sup| <= 1 && (strict ==> |base| == 1)
    ensures AllWellBuilt(Dress(base, sub, sup), strict)
  {
    hide WellBuilt, AllWellBuilt;
    JoinedAreWellBuilt(base, sub, strict);
    JoinedAreWellBuilt(base + sub, sup, strict);
    JoinedAreWellBuilt(base, sup, strict);
    if sub != [] && sup != [] {
      ElementIsWellBuilt("msubsup", base + sub + sup, strict);
    } else if sub != [] {
      ElementIsWellBuilt("msub", base + sub, strict);
    } else if sup != [] {
      ElementIsWellBuilt("msup", base + sup, strict);
    }
  }

  lemma OneIsWellBuilt(node: Node, strict: bool)
    requires WellBuilt(node, strict)
    ensures AllWellBuilt([node], strict)
  {
    hide WellBuilt;
  }

  lemma SymbolIsWellBuilt(name: string, strict: bool)
    ensures Symbol(name).Some? ==> WellBuilt(Symbol(name).value, strict)
  {
    hide WellBuilt, Leaf, Greek, Operation, IsPunctuation;
    if Greek(name).Some? {
      LeafIsWellBuilt("mi", [Greek(name).value], strict);
    } else if Operation(name).Some? {
      LeafIsWellBuilt("mo", [Operation(name).value], strict);
    } else if name in FUNCS {
      LeafIsWellBuilt("mi", name, strict);
    } else {
      LeafIsWellBuilt("mo", if name == " " then "" else name, strict);
    }
  }

  lemma FenceIsWellBuilt(toks: seq<Token>, i: nat, strict: bool)
    ensures Fence(toks, i).Some? ==> WellBuilt(Fence(toks, i).value, strict)
  {
    hide WellBuilt, Leaf, FenceText;
    if i < |toks| {
      match toks[i] {
        case Operator(symbol) => LeafIsWellBuilt("mo", [symbol], strict);
        case Command(name) => LeafIsWellBuilt("mo", FenceText(name), strict);
        case _ =>
      }
    }
  }

  lemma {:induction false} AtomIsWellBuilt(toks: seq<Token>, i: nat, strict: bool)
    requires i <= |toks| && (strict ==> FencesShow(toks))
    ensures Atom(toks, i).Parsed? ==> AllWellBuilt(Atom(toks, i).nodes, strict)
    decreases |toks| - i, 0
  {
    hide Symbol, Fence, Leaf, Sequence, WellBuilt, AllWellBuilt, IsName, FencesShow;
    if i == |toks| || toks[i] == Caret || toks[i] == Underscore || toks[i] == Close {
      LeafIsWellBuilt("mi", "", strict);
      OneIsWellBuilt(Leaf("mi", ""), strict);
    } else {
      match toks[i] {
        case Open =>
          SequenceIsWellBuilt(toks, i + 1, true, strict);
          if Sequence(toks, i + 1, true).Parsed? {
            NamesAreNames();
            ElementIsWellBuilt("mrow", Sequence(toks, i + 1, true).nodes, strict);
          }
        case Number(digits) =>
          LeafIsWellBuilt("mn", digits, strict);
          OneIsWellBuilt(Leaf("mn", digits), strict);
        case Identifier(letter) =>
          LeafIsWellBuilt("mi", [letter], strict);
          OneIsWellBuilt(Leaf("mi", [letter]), strict);
        case Operator(symbol) =>
          LeafIsWellBuilt("mo", [symbol], strict);
          OneIsWellBuilt(Leaf("mo", [symbol]), strict);
        case Command(name) => CommandIsWellBuilt(toks, i, name, strict);
      }
    }
  }

  lemma NamesAreNames()
    ensures IsName("mrow") && IsName("mfrac") && IsName("msqrt") && IsName("math")
    ensures IsName("msub") && IsName("msup") && IsName("msubsup")
    ensures Arity("mrow") == None && Arity("msqrt") == None && Arity("math") == None
  {}

  lemma {:induction false} CommandIsWellBuilt(toks: seq<Token>, i: nat, name: string, strict: bool)
    requires i < |toks| && toks[i] == Command(name) && (strict ==> FencesShow(toks))
    ensures Atom(toks, i).Parsed? ==> AllWellBuilt(Atom(toks, i).nodes, strict)
    decreases |toks| - i - 1, 2
  {
    hide Symbol, Fence, WellBuilt, AllWellBuilt, IsName;
    NamesAreNames();
    if name == "frac" {
      AtomIsWellBuilt(toks, i + 1, strict);
      if Atom(toks, i + 1).Parsed? {
        FractionIsWellBuilt(toks, i, strict);
      }
    } else if name == "sqrt" {
      AtomIsWellBuilt(toks, i + 1, strict);
      if Atom(toks, i + 1).Parsed? {
        ElementIsWellBuilt("msqrt", Atom(toks, i + 1).nodes, strict);
      }
    } else if name == "left" || name == "right" {
      FenceIsWellBuilt(toks, i + 1, strict);
      if Fence(toks, i + 1).Some? {
        OneIsWellBuilt(Fence(toks, i + 1).value, strict);
      } else {
        NothingIsWellBuilt(strict);
      }
    } else {
      SymbolIsWellBuilt(name, strict);
      if Symbol(name).Some? {
        OneIsWellBuilt(Symbol(name).value, strict);
      }
    }
  }

  lemma NothingIsWellBuilt(strict: bool)
    ensures AllWellBuilt([], strict)
  {}

  lemma {:induction false} FractionIsWellBuilt(toks: seq<Token>, i: nat, strict: bool)
    requires i < |toks| && toks[i] == Command("frac") && (strict ==> FencesShow(toks))
    requires Atom(toks, i + 1).Parsed? && AllWellBuilt(Atom(toks, i + 1).nodes, strict)
    ensures Atom(toks, i).Parsed? ==> AllWellBuilt(Atom(toks, i).nodes, strict)
    decreases |toks| - i - 1, 1
  {
    hide Symbol, Fence, WellBuilt, AllWellBuilt, IsName;
    NamesAreNames();
    var a := Atom(toks, i + 1);
    AtomIsWellBuilt(toks, a.i, strict);
    var b := Atom(toks, a.i);
    if b.Parsed? {
      JoinedAreWellBuilt(a.nodes, b.nodes, strict);
      ElementIsWellBuilt("mfrac", a.nodes + b.nodes, strict);
    }
  }

  lemma {:induction false} ScriptsAreWellBuilt(
      toks: seq<Token>, i: nat, sub: seq<Node>, sup: seq<Node>, strict: bool)
    requires i <= |toks| && (strict ==> FencesShow(toks))
    requires AllWellBuilt(sub, strict) && AllWellBuilt(sup, strict)
    ensures var r := Scripts(toks, i, sub, sup);
            r.Scripted? ==> AllWellBuilt(r.sub, strict) && AllWellBuilt(r.sup, strict)
    decreases |toks| - i, 0
  {
    hide Atom, AllWellBuilt, FencesShow;
    if i < |toks| && IsScript(toks[i]) {
      AtomIsWellBuilt(toks, i + 1, strict);
      match Atom(toks, i + 1) {
        case Unsupported(_) =>
        case Parsed(nodes, j) =>
          if toks[i] == Caret {
            ScriptsAreWellBuilt(toks, j, sub, nodes, strict);
          } else {
            ScriptsAreWellBuilt(toks, j, nodes, sup, strict);
          }
      }
    }
  }

  lemma {:induction false} ItemIsWellBuilt(toks: seq<Token>, i: nat, strict: bool)
    requires i < |toks| && (strict ==> FencesShow(toks))
    ensures Item(toks, i).Parsed? ==> AllWellBuilt(Item(toks, i).nodes, strict)
    decreases |toks| - i, 1
  {
    hide Atom, Scripts, AllWellBuilt, Dress, Dangling;
    AtomIsWellBuilt(toks, i, strict);
    NothingIsWellBuilt(strict);
    if Atom(toks, i).Parsed? {
      var base, j := Atom(toks, i).nodes, Atom(toks, i).i;
      ScriptsAreWellBuilt(toks, j, [], [], strict);
      var r := Scripts(toks, j, [], []);
      if r.Scripted? {
        DressedAreWellBuilt(base, r.sub, r.sup, strict);
      }
    }
  }

  lemma {:induction false} SequenceIsWellBuilt(toks: seq<Token>, i: nat, group: bool, strict: bool)
    requires i <= |toks| && (strict ==> FencesShow(toks))
    ensures Sequence(toks, i, group).Parsed? ==> AllWellBuilt(Sequence(toks, i, group).nodes, strict)
    decreases |toks| - i, 2
  {
    hide Item, AllWellBuilt, FencesShow;
    NothingIsWellBuilt(strict);
    if i < |toks| && !(group && toks[i] == Close) {
      ItemIsWellBuilt(toks, i, strict);
      if Item(toks, i).Parsed? {
        var j := Item(toks, i).i;
        SequenceIsWellBuilt(toks, j, group, strict);
        if Sequence(toks, j, group).Parsed? {
          JoinedAreWellBuilt(Item(toks, i).nodes, Sequence(toks, j, group).nodes, strict);
        }
      }
    }
  }

  lemma {:induction false} WellBuiltIsNamed(node: Node, strict: bool)
    requires WellBuilt(node, strict)
    ensures Named(node)
    decreases node, 0
  {
    hide IsName, Fits;
    if node.Element? {
      AllWellBuiltAreNamed(node.children, strict);
    }
  }

  lemma {:induction false} AllWellBuiltAreNamed(nodes: seq<Node>, strict: bool)
    requires AllWellBuilt(nodes, strict)
    ensures AllNamed(nodes)
    decreases nodes, 1
  {
    hide WellBuilt, Named;
    forall k | 0 <= k < |nodes| ensures Named(nodes[k]) {
      WellBuiltIsNamed(nodes[k], strict);
    }
  }

  // ---------------------------------------------------------------- where the shape goes wrong

  /** A fraction has its two operands exactly when neither place holds a fence with nothing to show. */
  lemma FractionFitsExactly(toks: seq<Token>, i: nat)
    requires i < |toks| && toks[i] == Command("frac") && Atom(toks, i).Parsed?
    ensures Atom(toks, i + 1).Parsed?
    ensures var fraction := Atom(toks, i).nodes[0];
            fraction.Element? && fraction.tag == "mfrac"
            && (Fits("mfrac", |fraction.children|)
                <==> !Dangling(toks, i + 1) && !Dangling(toks, Atom(toks, i + 1).i))
  {
    hide Dangling, Symbol, Fence;
  }

  /** A scripted item has its base, and so its arity, exactly when the base is no such fence. */
  lemma ScriptsFitExactly(toks: seq<Token>, i: nat)
    requires i < |toks| && Item(toks, i).Parsed?
    requires var s := Scripts(toks, Atom(toks, i).i, [], []); s.sub != [] || s.sup != []
    ensures |Item(toks, i).nodes| == 1 && Item(toks, i).nodes[0].Element?
    ensures var item := Item(toks, i).nodes[0];
            Fits(item.tag, |item.children|) <==> !Dangling(toks, i)
  {
    hide Dangling, Atom, Scripts;
    var base := Atom(toks, i).nodes;
    var s := Scripts(toks, Atom(toks, i).i, [], []);
    var item := Item(toks, i).nodes[0];
    assert |item.children| == |base| + |s.sub| + |s.sup|;
  }
}
