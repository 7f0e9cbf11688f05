/**
 * Escaped text and elements of the markup the viewer emits, and an independent reader for it.
 *
 * The reader is a machine fed one character at a time. It knows nothing of how the markup was
 * produced: it keeps the stack of open elements, refuses a closing tag that does not match the
 * innermost one, a stray `<`, `>` or quote in text, and any entity it does not know.
 */
module Markup {

  /** A character of text, or an element with its children. */
  datatype Node = Glyph(c: char) | Element(tag: string, children: seq<Node>)

  // ---------------------------------------------------------------- writing

  function EscapeChar(c: char): (r: string)
    ensures r != []
  {
    if c == '&' then "&amp;"
    else if c == '<' then "&lt;"
    else if c == '>' then "&gt;"
    else if c == '"' then "&quot;"
    else if c == '\'' then "&#39;"
    else [c]
  }

  /** `escapeHTML`: the five characters with a meaning in HTML become entities. */
  function EscapeHTML(s: string): string {
    if s == [] then [] else EscapeChar(s[0]) + EscapeHTML(s[1..])
  }

  predicate IsSpecial(c: char) {
    c == '&' || c == '<' || c == '>' || c == '"' || c == '\''
  }

  predicate IsPlain(s: string) {
    forall k :: 0 <= k < |s| ==> !IsSpecial(s[k])
  }

  function Enclose(tag: string, inner: string): string {
    "<" + tag + ">" + inner + "</" + tag + ">"
  }

  function Render(node: Node): (r: string)
    ensures r != []
    decreases node, 0
  {
    match node
    case Glyph(c) => EscapeChar(c)
    case Element(tag, children) => Enclose(tag, RenderAll(children))
  }

  function RenderAll(nodes: seq<Node>): (r: string)
    ensures r == [] <==> nodes == []
    decreases nodes, 1
  {
    if nodes == [] then [] else Render(nodes[0]) + RenderAll(nodes[1..])
  }

  function Glyphs(s: string): (r: seq<Node>)
    ensures |r| == |s|
  {
    seq(|s|, k requires 0 <= k < |s| => Glyph(s[k]))
  }

  lemma {:induction false} RenderJoins(a: seq<Node>, b: seq<Node>)
    ensures RenderAll(a + b) == RenderAll(a) + RenderAll(b)
  {
    if a == [] {
      assert a + b == b;
    } else {
      assert (a + b)[1..] == a[1..] + b;
      RenderJoins(a[1..], b);
    }
  }

  lemma RenderOne(node: Node)
    ensures RenderAll([node]) == Render(node)
  {
    assert RenderAll([node]) == Render(node) + RenderAll([]);
  }

  /** Text is rendered by escaping it. */
  lemma {:induction false} TextIsEscaped(s: string)
    ensures RenderAll(Glyphs(s)) == EscapeHTML(s)
  {
    if s == [] {
    } else {
      assert Glyphs(s)[1..] == Glyphs(s[1..]);
      TextIsEscaped(s[1..]);
    }
  }

  lemma {:induction false} PlainTextIsKept(s: string)
    requires IsPlain(s)
    ensures EscapeHTML(s) == s
  {
    if s == [] {
    } else {
      PlainTextIsKept(s[1..]);
      assert [s[0]] + s[1..] == s;
    }
  }

  // ---------------------------------------------------------------- reading

  /** An open element and the children read so far. */
  datatype Frame = Frame(tag: string, children: seq<Node>)

  datatype Mode = Content | Tag(name: string) | Entity(name: string)

  datatype Reader = Broken | Reading(open: seq<Frame>, mode: Mode)

  function Extend(open: seq<Frame>, nodes: seq<Node>): (r: seq<Frame>)
    requires open != []
    ensures |r| == |open|
  {
    var top := open[|open| - 1];
    open[|open| - 1 := top.(children := top.children + nodes)]
  }

  /** The element name at the start of a tag: everything before the first blank. */
  function NameOf(tag: string): string {
    if tag == [] || tag[0] == ' ' then [] else [tag[0]] + NameOf(tag[1..])
  }

  function EndOfTag(open: seq<Frame>, name: string): Reader
    requires open != []
  {
    if name != [] && name[0] == '/' then
      var top := open[|open| - 1];
      if |open| >= 2 && top.tag == name[1..]
      then Reading(Extend(open[..|open| - 1], [Element(top.tag, top.children)]), Content)
      else Broken
    else if NameOf(name) == [] then Broken
    else Reading(open + [Frame(NameOf(name), [])], Content)
  }

  function EndOfEntity(open: seq<Frame>, name: string): Reader
    requires open != []
  {
    if name == "amp" then Reading(Extend(open, [Glyph('&')]), Content)
    else if name == "lt" then Reading(Extend(open, [Glyph('<')]), Content)
    else if name == "gt" then Reading(Extend(open, [Glyph('>')]), Content)
    else if name == "quot" then Reading(Extend(open, [Glyph('"')]), Content)
    else if name == "#39" then Reading(Extend(open, [Glyph('\'')]), Content)
    else Broken
  }

  function Step(state: Reader, c: char): Reader {
    if state.Broken? || state.open == [] then Broken
    else
      match state.mode
      case Content =>
        if c == '<' then state.(mode := Tag(""))
        else if c == '&' then state.(mode := Entity(""))
        else if IsSpecial(c) then Broken
        else state.(open := Extend(state.open, [Glyph(c)]))
      case Tag(name) =>
        if c == '>' then EndOfTag(state.open, name)
        else if c == '<' then Broken
        else state.(mode := Tag(name + [c]))
      case Entity(name) =>
        if c == ';' then EndOfEntity(state.open, name)
        else state.(mode := Entity(name + [c]))
  }

  function Feed(state: Reader, s: string): Reader
    decreases s
  {
    if s == [] then state else Feed(Step(state, s[0]), s[1..])
  }

  /** The nodes a document consists of, if it is properly nested and nothing is left open. */
  ghost predicate Reads(s: string, nodes: seq<Node>) {
    Feed(Reading([Frame("", [])], Content), s) == Reading([Frame("", nodes)], Content)
  }

  lemma {:induction false} FeedJoins(state: Reader, a: string, b: string)
    ensures Feed(state, a + b) == Feed(Feed(state, a), b)
    decreases a
  {
    if a == [] {
      assert a + b == b;
    } else {
      assert (a + b)[1..] == a[1..] + b;
      FeedJoins(Step(state, a[0]), a[1..], b);
    }
  }

  /** A document reads in at most one way. */
  lemma ReadingIsUnique(s: string, a: seq<Node>, b: seq<Node>)
    requires Reads(s, a) && Reads(s, b)
    ensures a == b
  {
    assert Frame("", a) == [Frame("", a)][0];
    assert Frame("", b) == [Frame("", b)][0];
  }

  // ---------------------------------------------------------------- what is written reads back

  predicate IsName(tag: string) {
    && tag != []
    && tag[0] != '/'
    && forall k :: 0 <= k < |tag| ==> tag[k] != '<' && tag[k] != '>' && tag[k] != ' '
  }

  /** Every element below has a name a tag can carry. */
  predicate Named(node: Node)
    decreases node, 0
  {
    match node
    case Glyph(_) => true
    case Element(tag, children) => IsName(tag) && AllNamed(children)
  }

  predicate AllNamed(nodes: seq<Node>)
    decreases nodes, 1
  {
    forall k :: 0 <= k < |nodes| ==> Named(nodes[k])
  }

  predicate TagText(s: string) {
    forall k :: 0 <= k < |s| ==> s[k] != '<' && s[k] != '>'
  }

  lemma {:induction false} TagIsCollected(open: seq<Frame>, before: string, s: string)
    requires open != [] && TagText(s)
    ensures Feed(Reading(open, Tag(before)), s) == Reading(open, Tag(before + s))
    decreases s
  {
    if s == [] {
      assert before + s == before;
    } else {
      assert before + [s[0]] + s[1..] == before + s;
      TagIsCollected(open, before + [s[0]], s[1..]);
    }
  }

  lemma TagIsRead(open: seq<Frame>, s: string)
    requires open != [] && TagText(s)
    ensures Feed(Reading(open, Content), "<" + s + ">") == EndOfTag(open, s)
  {
    hide EndOfTag;
    var start := Reading(open, Content);
    FeedJoins(start, "<" + s, ">");
    FeedJoins(start, "<", s);
    FeedOne(start, '<');
    TagIsCollected(open, "", s);
    assert "" + s == s;
    FeedOne(Reading(open, Tag(s)), '>');
  }

  lemma FeedOne(state: Reader, c: char)
    ensures Feed(state, [c]) == Step(state, c)
  {
    assert [c][1..] == [];
    assert Feed(Step(state, c), []) == Step(state, c);
  }

  lemma {:induction false} NameIsWhole(s: string)
    requires forall k :: 0 <= k < |s| ==> s[k] != ' '
    ensures NameOf(s) == s
  {
    if s == [] {
    } else {
      NameIsWhole(s[1..]);
      assert [s[0]] + s[1..] == s;
    }
  }

  lemma EntityIsRead(open: seq<Frame>, name: string)
    requires open != [] && forall k :: 0 <= k < |name| ==> name[k] != ';'
    ensures Feed(Reading(open, Content), "&" + name + ";") == EndOfEntity(open, name)
  {
    hide EndOfEntity;
    var start := Reading(open, Content);
    FeedJoins(start, "&" + name, ";");
    FeedJoins(start, "&", name);
    FeedOne(start, '&');
    EntityIsCollected(open, "", name);
    assert "" + name == name;
    FeedOne(Reading(open, Entity(name)), ';');
  }

  lemma GlyphReads(open: seq<Frame>, c: char)
    requires open != []
    ensures Feed(Reading(open, Content), EscapeChar(c)) == Reading(Extend(open, [Glyph(c)]), Content)
  {
    hide Extend, Feed;
    if IsSpecial(c) {
      var name :=
        if c == '&' then "amp" else if c == '<' then "lt" else if c == '>' then "gt"
        else if c == '"' then "quot" else "#39";
      assert EscapeChar(c) == "&" + name + ";";
      EntityIsRead(open, name);
    } else {
      FeedOne(Reading(open, Content), c);
    }
  }

  lemma {:induction false} EntityIsCollected(open: seq<Frame>, before: string, s: string)
    requires open != [] && forall k :: 0 <= k < |s| ==> s[k] != ';'
    ensures Feed(Reading(open, Entity(before)), s) == Reading(open, Entity(before + s))
    decreases s
  {
    if s == [] {
      assert before + s == before;
    } else {
      assert before + [s[0]] + s[1..] == before + s;
      EntityIsCollected(open, before + [s[0]], s[1..]);
    }
  }

  lemma ExtendTwice(open: seq<Frame>, a: seq<Node>, b: seq<Node>)
    requires open != []
    ensures Extend(Extend(open, a), b) == Extend(open, a + b)
    ensures a == [] ==> Extend(open, a) == open
  {
    var top := open[|open| - 1];
    assert top.children + a + b == top.children + (a + b);
    assert a == [] ==> top.children + a == top.children;
  }

  /** Opening an element, reading `nodes` inside it and closing it adds that element. */
  lemma ElementReads(open: seq<Frame>, tag: string, inner: string, nodes: seq<Node>)
    requires open != [] && IsName(tag)
    requires Feed(Reading(open + [Frame(tag, [])], Content), inner)
             == Reading(open + [Frame(tag, nodes)], Content)
    ensures Feed(Reading(open, Content), Enclose(tag, inner))
            == Reading(Extend(open, [Element(tag, nodes)]), Content)
  {
    hide Extend, Step;
    var start := Reading(open, Content);
    var head, tail := "<" + tag + ">", "<" + ("/" + tag) + ">";
    var body := open + [Frame(tag, nodes)];
    assert Enclose(tag, inner) == head + inner + tail;
    FeedJoins(start, head + inner, tail);
    FeedJoins(start, head, inner);
    TagIsRead(open, tag);
    NameIsWhole(tag);
    TagIsRead(body, "/" + tag);
    assert ("/" + tag)[1..] == tag;
    assert body[..|body| - 1] == open;
  }

  lemma {:induction false} NodeReads(node: Node, open: seq<Frame>)
    requires Named(node) && open != []
    ensures Feed(Reading(open, Content), Render(node)) == Reading(Extend(open, [node]), Content)
    decreases node, 0
  {
    hide Feed, Enclose, Extend, IsName;
    match node {
      case Glyph(c) => GlyphReads(open, c);
      case Element(tag, children) =>
        var inside := open + [Frame(tag, [])];
        NodesRead(children, inside);
        assert Extend(inside, children) == open + [Frame(tag, children)] by {
          ExtendFresh(open, tag, children);
        }
        ElementReads(open, tag, RenderAll(children), children);
    }
  }

  lemma ExtendFresh(open: seq<Frame>, tag: string, nodes: seq<Node>)
    ensures Extend(open + [Frame(tag, [])], nodes) == open + [Frame(tag, nodes)]
  {
    assert [] + nodes == nodes;
  }

  /** What is written reads back: the reader recovers exactly the nodes that were rendered. */
  lemma {:induction false} NodesRead(nodes: seq<Node>, open: seq<Frame>)
    requires AllNamed(nodes) && open != []
    ensures Feed(Reading(open, Content), RenderAll(nodes)) == Reading(Extend(open, nodes), Content)
    decreases nodes, 1
  {
    hide Step, Extend;
    if nodes == [] {
      ExtendTwice(open, nodes, []);
    } else {
      FeedJoins(Reading(open, Content), Render(nodes[0]), RenderAll(nodes[1..]));
      NodeReads(nodes[0], open);
      NodesRead(nodes[1..], Extend(open, [nodes[0]]));
      ExtendTwice(open, [nodes[0]], nodes[1..]);
      assert [nodes[0]] + nodes[1..] == nodes;
    }
  }

  lemma RenderingReadsBack(nodes: seq<Node>)
    requires AllNamed(nodes)
    ensures Reads(RenderAll(nodes), nodes)
  {
    hide Feed;
    NodesRead(nodes, [Frame("", [])]);
    ExtendFresh([], "", nodes);
    assert [] + [Frame("", [])] == [Frame("", [])];
    assert [] + [Frame("", nodes)] == [Frame("", nodes)];
  }

  /** Escaped text is read as exactly the text: no character of it can open a tag or an entity. */
  lemma EscapedTextReadsBack(s: string)
    ensures Reads(EscapeHTML(s), Glyphs(s))
  {
    TextIsEscaped(s);
    RenderingReadsBack(Glyphs(s));
  }

  /** Hence escaping loses nothing: different texts stay different. */
  lemma EscapingIsInjective(s: string, t: string)
    requires EscapeHTML(s) == EscapeHTML(t)
    ensures s == t
  {
    EscapedTextReadsBack(s);
    EscapedTextReadsBack(t);
    ReadingIsUnique(EscapeHTML(s), Glyphs(s), Glyphs(t));
    forall k | 0 <= k < |s| && |s| == |t| ensures s[k] == t[k] {
      assert Glyphs(s)[k] == Glyphs(t)[k];
    }
    assert |s| == |Glyphs(s)| && |t| == |Glyphs(t)|;
  }
}
