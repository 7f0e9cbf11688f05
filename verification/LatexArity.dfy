/**
 * Exactly which token lists give elements with their number of children.
 *
 * Only two places need a node: each operand of a fraction, and the base of an item whose scripts
 * survive. A script survives if it is the last of its kind behind its base and shows something; what
 * an overwritten script holds is not in the output, so it does not count.
 */
module LatexArity {
  import opened Wrappers
  import opened Markup
  import opened LatexTokens
  import opened LatexSymbols
  import opened LatexParser

  /** Where the operand of the last script of a kind stands, in the run of scripts at `i`. */
  function LastOperand(toks: seq<Token>, i: nat, kind: Token, last: Option<nat>): (r: Option<nat>)
    requires i <= |toks|
    ensures r == last || (r.Some? && i < r.value <= |toks| && Atom(toks, r.value).Parsed?)
    decreases |toks| - i
  {
    if i == |toks| || !IsScript(toks[i]) then last
    else
      match Atom(toks, i + 1)
      case Unsupported(_) => last
      case Parsed(_, j) => LastOperand(toks, j, kind, if toks[i] == kind then Some(i + 1) else last)
  }

  predicate Shows(toks: seq<Token>, at: Option<nat>) {
    at.Some? && !Dangling(toks, at.value)
  }

  /** Within the atom at `i` every place that needs a node has one. */
  predicate AtomFits(toks: seq<Token>, i: nat)
    requires i <= |toks|
    decreases |toks| - i, 0
  {
    if i == |toks| then true
    else if toks[i] == Open then SequenceFits(toks, i + 1, true)
    else if toks[i] == Command("frac") then
      var a := Atom(toks, i + 1);
      && !Dangling(toks, i + 1) && AtomFits(toks, i + 1)
      && (a.Parsed? ==> !Dangling(toks, a.i) && AtomFits(toks, a.i))
    else if toks[i] == Command("sqrt") then AtomFits(toks, i + 1)
    else true
  }

  /** Likewise for the item at `i`: its base, its surviving scripts, and a base for them. */
  predicate ItemFits(toks: seq<Token>, i: nat)
    requires i < |toks|
    decreases |toks| - i, 1
  {
    var base := Atom(toks, i);
    && AtomFits(toks, i)
    && (base.Parsed? ==>
          var sub, sup := LastOperand(toks, base.i, Underscore, None), LastOperand(toks, base.i, Caret, None);
          && (sub.Some? ==> AtomFits(toks, sub.value))
          && (sup.Some? ==> AtomFits(toks, sup.value))
          && (Shows(toks, sub) || Shows(toks, sup) ==> !Dangling(toks, i)))
  }

  predicate SequenceFits(toks: seq<Token>, i: nat, group: bool)
    requires i <= |toks|
    decreases |toks| - i, 2
  {
    if i == |toks| || (group && toks[i] == Close) then true
    else ItemFits(toks, i) && (Item(toks, i).Parsed? ==> SequenceFits(toks, Item(toks, i).i, group))
  }

  // ---------------------------------------------------------------- the walk and the trees

  function NodesAt(toks: seq<Token>, at: Option<nat>): seq<Node> {
    if at.Some? && at.value <= |toks| && Atom(toks, at.value).Parsed? then Atom(toks, at.value).nodes else []
  }

  /** The scripts in force are the nodes of the last operands. */
  lemma {:induction false} ScriptsAreLastOperands(toks: seq<Token>, i: nat, sub: Option<nat>, sup: Option<nat>)
    requires i <= |toks|
    ensures var r := Scripts(toks, i, NodesAt(toks, sub), NodesAt(toks, sup));
            r.Scripted? ==>
              && r.sub == NodesAt(toks, LastOperand(toks, i, Underscore, sub))
              && r.sup == NodesAt(toks, LastOperand(toks, i, Caret, sup))
    decreases |toks| - i
  {
    hide Atom;
    if i < |toks| && IsScript(toks[i]) {
      match Atom(toks, i + 1) {
        case Unsupported(_) =>
        case Parsed(_, j) =>
          if toks[i] == Caret {
            ScriptsAreLastOperands(toks, j, sub, Some(i + 1));
          } else {
            ScriptsAreLastOperands(toks, j, Some(i + 1), sup);
          }
      }
    }
  }

  lemma ElementFitsExactly(tag: string, children: seq<Node>)
    requires IsName(tag)
    ensures AllWellBuilt([Element(tag, children)], true) <==> Fits(tag, |children|) && AllWellBuilt(children, true)
  {
    var node := Element(tag, children);
    assert AllWellBuilt([node], true) ==> WellBuilt([node][0], true);
  }

  lemma JoinedFitExactly(a: seq<Node>, b: seq<Node>)
    ensures AllWellBuilt(a + b, true) <==> AllWellBuilt(a, true) && AllWellBuilt(b, true)
  {
    hide WellBuilt;
    if AllWellBuilt(a + b, true) {
      forall k | 0 <= k < |a| ensures WellBuilt(a[k], true) { assert a[k] == (a + b)[k]; }
      forall k | 0 <= k < |b| ensures WellBuilt(b[k], true) { assert b[k] == (a + b)[|a| + k]; }
    }
  }

  lemma DressFitsExactly(base: seq<Node>, sub: seq<Node>, sup: seq<Node>)
    requires |base| <= 1 && |sub| <= 1 && |sup| <= 1
    ensures AllWellBuilt(Dress(base, sub, sup), true)
            <==> && AllWellBuilt(base, true) && AllWellBuilt(sub, true) && AllWellBuilt(sup, true)
                 && (sub != [] || sup != [] ==> |base| == 1)
  {
    hide AllWellBuilt;
    NothingIsWellBuilt(true);
    if sub != [] && sup != [] {
      BothFitExactly(base, sub, sup);
    } else if sub != [] {
      SubFitsExactly(base, sub);
    } else if sup != [] {
      SupFitsExactly(base, sup);
    }
  }

  lemma BothFitExactly(base: seq<Node>, sub: seq<Node>, sup: seq<Node>)
    requires |sub| == 1 && |sup| == 1
    ensures AllWellBuilt([Element("msubsup", base + sub + sup)], true)
            <==> AllWellBuilt(base, true) && AllWellBuilt(sub, true) && AllWellBuilt(sup, true) && |base| == 1
  {
    hide AllWellBuilt;
    WrappedFitsExactly("msubsup", base, sub + sup);
    JoinedFitExactly(sub, sup);
    assert base + sub + sup == base + (sub + sup);
  }

  lemma SubFitsExactly(base: seq<Node>, sub: seq<Node>)
    requires |sub| == 1
    ensures AllWellBuilt([Element("msub", base + sub)], true)
            <==> AllWellBuilt(base, true) && AllWellBuilt(sub, true) && |base| == 1
  {
    hide AllWellBuilt;
    WrappedFitsExactly("msub", base, sub);
  }

  lemma SupFitsExactly(base: seq<Node>, sup: seq<Node>)
    requires |sup| == 1
    ensures AllWellBuilt([Element("msup", base + sup)], true)
            <==> AllWellBuilt(base, true) && AllWellBuilt(sup, true) && |base| == 1
  {
    hide AllWellBuilt;
    WrappedFitsExactly("msup", base, sup);
  }

  lemma WrappedFitsExactly(tag: string, base: seq<Node>, scripts: seq<Node>)
    requires IsName(tag) && Arity(tag) == Some(1 + |scripts|)
    ensures AllWellBuilt([Element(tag, base + scripts)], true)
            <==> AllWellBuilt(base, true) && AllWellBuilt(scripts, true) && |base| == 1
  {
    hide AllWellBuilt, IsName, Arity;
    ElementFitsExactly(tag, base + scripts);
    JoinedFitExactly(base, scripts);
  }

  /** Atoms without operands always are well built: nothing in them depends on a fence. */
  lemma PlainAtomIsWellBuilt(toks: seq<Token>, i: nat)
    requires i <= |toks| && Atom(toks, i).Parsed?
    requires i < |toks| ==> toks[i] !in {Open, Command("frac"), Command("sqrt")}
    ensures AllWellBuilt(Atom(toks, i).nodes, true)
  {
    hide Symbol, Fence, Leaf, WellBuilt, AllWellBuilt;
    LeafIsWellBuilt("mi", "", true);
    OneIsWellBuilt(Leaf("mi", ""), true);
    NothingIsWellBuilt(true);
    if i < |toks| {
      match toks[i] {
        case Number(digits) =>
          LeafIsWellBuilt("mn", digits, true);
          OneIsWellBuilt(Leaf("mn", digits), true);
        case Identifier(letter) =>
          LeafIsWellBuilt("mi", [letter], true);
          OneIsWellBuilt(Leaf("mi", [letter]), true);
        case Operator(symbol) =>
          LeafIsWellBuilt("mo", [symbol], true);
          OneIsWellBuilt(Leaf("mo", [symbol]), true);
        case Command(name) =>
          FenceIsWellBuilt(toks, i + 1, true);
          SymbolIsWellBuilt(name, true);
          if Fence(toks, i + 1).Some? {
            OneIsWellBuilt(Fence(toks, i + 1).value, true);
          }
          if Symbol(name).Some? {
            OneIsWellBuilt(Symbol(name).value, true);
          }
        case _ =>
      }
    }
  }

  lemma {:induction false} AtomFitsExactly(toks: seq<Token>, i: nat)
    requires i <= |toks| && Atom(toks, i).Parsed?
    ensures AllWellBuilt(Atom(toks, i).nodes, true) <==> AtomFits(toks, i)
    decreases |toks| - i, 0
  {
    hide Symbol, Fence, Sequence, WellBuilt, AllWellBuilt, IsName;
    NamesAreNames();
    if i < |toks| && toks[i] == Open {
      SequenceFitsExactly(toks, i + 1, true);
      ElementFitsExactly("mrow", Sequence(toks, i + 1, true).nodes);
    } else if i < |toks| && toks[i] == Command("frac") {
      FractionFits(toks, i);
    } else if i < |toks| && toks[i] == Command("sqrt") {
      AtomFitsExactly(toks, i + 1);
      ElementFitsExactly("msqrt", Atom(toks, i + 1).nodes);
    } else {
      PlainAtomIsWellBuilt(toks, i);
    }
  }

  lemma {:induction false} FractionFits(toks: seq<Token>, i: nat)
    requires i < |toks| && toks[i] == Command("frac") && Atom(toks, i).Parsed?
    ensures AllWellBuilt(Atom(toks, i).nodes, true) <==> AtomFits(toks, i)
    decreases |toks| - i - 1, 1
  {
    hide Symbol, Fence, Dangling, WellBuilt, AllWellBuilt, IsName;
    NamesAreNames();
    var a := Atom(toks, i + 1);
    AtomFitsExactly(toks, i + 1);
    AtomFitsExactly(toks, a.i);
    var b := Atom(toks, a.i);
    JoinedFitExactly(a.nodes, b.nodes);
    ElementFitsExactly("mfrac", a.nodes + b.nodes);
    assert Arity("mfrac") == Some(2);
  }

  lemma {:induction false} ItemFitsExactly(toks: seq<Token>, i: nat)
    requires i < |toks| && Item(toks, i).Parsed?
    ensures AllWellBuilt(Item(toks, i).nodes, true) <==> ItemFits(toks, i)
    decreases |toks| - i, 1
  {
    hide Atom, Scripts, AllWellBuilt, Dress, Dangling, AtomFits, LastOperand;
    var base := Atom(toks, i);
    var sub, sup := LastOperand(toks, base.i, Underscore, None), LastOperand(toks, base.i, Caret, None);
    ScriptsAreLastOperands(toks, base.i, None, None);
    AtomFitsExactly(toks, i);
    NothingIsWellBuilt(true);
    if sub.Some? {
      AtomFitsExactly(toks, sub.value);
    }
    if sup.Some? {
      AtomFitsExactly(toks, sup.value);
    }
    DressFitsExactly(base.nodes, NodesAt(toks, sub), NodesAt(toks, sup));
  }

  lemma {:induction false} SequenceFitsExactly(toks: seq<Token>, i: nat, group: bool)
    requires i <= |toks| && Sequence(toks, i, group).Parsed?
    ensures AllWellBuilt(Sequence(toks, i, group).nodes, true) <==> SequenceFits(toks, i, group)
    decreases |toks| - i, 2
  {
    hide Item, ItemFits, AllWellBuilt;
    NothingIsWellBuilt(true);
    if i < |toks| && !(group && toks[i] == Close) {
      var j := Item(toks, i).i;
      ItemFitsExactly(toks, i);
      SequenceFitsExactly(toks, j, group);
      JoinedFitExactly(Item(toks, i).nodes, Sequence(toks, j, group).nodes);
    }
  }

  /** Fences that all show something suffice ... */
  lemma ShowingFencesFit(toks: seq<Token>)
    requires Sequence(toks, 0, false).Parsed? && FencesShow(toks)
    ensures SequenceFits(toks, 0, false)
  {
    hide Sequence, SequenceFits, FencesShow, AllWellBuilt;
    SequenceIsWellBuilt(toks, 0, false, true);
    SequenceFitsExactly(toks, 0, false);
  }

  /** ... but are not needed: a fence with nothing to show does no harm where no node is needed. */
  lemma DanglingFenceCanFit()
    ensures var toks := [Command("left"), Identifier('x')];
            !FencesShow(toks) && Sequence(toks, 0, false).Parsed? && SequenceFits(toks, 0, false)
  {
    hide Leaf;
    var toks := [Command("left"), Identifier('x')];
    assert Dangling(toks, 0);
    assert Atom(toks, 0) == Parsed([], 1) && Atom(toks, 1) == Parsed([Leaf("mi", "x")], 2);
    assert Item(toks, 0) == Parsed([], 1) && Item(toks, 1) == Parsed([Leaf("mi", "x")], 2);
    assert Sequence(toks, 2, false) == Parsed([], 2);
    assert Sequence(toks, 1, false).Parsed? && Sequence(toks, 0, false).Parsed?;
    assert ItemFits(toks, 1) && SequenceFits(toks, 2, false);
    assert SequenceFits(toks, 1, false);
  }
}
