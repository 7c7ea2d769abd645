// The older combined layout engine (Layout.kt of the older tree): one
// `BlockLayout` that either stacks a child layout per child node (block
// mode) or breaks its own node's text into lines (inline mode), with the
// font state `size`, `weight` and `style` driven by `i`, `b`, `small` and
// `big`; its `DocumentLayout` and `paintTree`.
//
// The specification functions step an `Engine` (the class's fields) and
// build the laid-out tree as a value (`Box`); the class `BlockLayout` holds
// the fields and its methods are proved to step them exactly so.

module OldLayouts {
  import opened Common
  import opened Strings
  import opened LinkedMaps
  import opened Dom
  import opened Layouts

  const VStep: int := 50
  /** The font size `layout()` starts every inline walk with. */
  const InitialSize: int := 16

  /** `blockElements` */
  const BlockElements: set<string> := {
    "html", "body", "article", "section", "nav", "aside", "h1", "h2", "h3", "h4", "h5", "h6", "hgroup", "header",
    "footer", "address", "p", "hr", "pre", "blockquote", "ol", "ul", "menu", "li", "dl", "dt", "dd", "figure",
    "figcaption", "main", "div", "table", "form", "fieldset", "legend", "details", "summary"
  }

  // ------------------------------------------------------------ layoutMode

  datatype LayoutType = BlockType | InlineType

  /** `node.children.any { it is Element && it.tag in blockElements }` */
  predicate HasBlockChild(n: Node)
  {
    exists i :: 0 <= i < |n.Children()| && n.Children()[i].Element? && n.Children()[i].tag in BlockElements
  }

  /** `layoutMode()`: text flows; a block child makes a block; other children flow; no children makes a block. */
  function ModeOf(n: Node): LayoutType
  {
    if n.Text? then InlineType
    else if HasBlockChild(n) then BlockType
    else if n.children != [] then InlineType
    else BlockType
  }

  /** A node is a block exactly when it is an element whose children are empty or include a block element. */
  lemma ModeClassified(n: Node)
    ensures ModeOf(n) == BlockType <==> n.Element? && (n.children == [] || HasBlockChild(n))
    ensures ModeOf(n) == InlineType <==> n.Text? || (n.children != [] && !HasBlockChild(n))
  {
  }

  /**
   * Text children never decide the mode: appending one to an element that
   * already has children leaves its mode as it was.
   */
  lemma TextChildKeepsMode(tag: string, attrs: Attributes, cs: seq<Node>, st: Style, focused: bool, t: Node)
    requires cs != [] && t.Text?
    ensures ModeOf(Element(tag, attrs, cs + [t], st, focused)) == ModeOf(Element(tag, attrs, cs, st, focused))
  {
    var a := Element(tag, attrs, cs, st, focused);
    var b := Element(tag, attrs, cs + [t], st, focused);
    if HasBlockChild(b) {
      var i :| 0 <= i < |b.Children()| && b.Children()[i].Element? && b.Children()[i].tag in BlockElements;
      assert i < |cs| && a.Children()[i] == b.Children()[i];
    }
    if HasBlockChild(a) {
      var i :| 0 <= i < |a.Children()| && a.Children()[i].Element? && a.Children()[i].tag in BlockElements;
      assert b.Children()[i] == a.Children()[i];
    }
  }

  // ---------------------------------------------------------------- engine

  /** A word on the current line: `DrawText(cursorX, y, word.trim(), font)`. */
  datatype Word = Word(left: int, top: int, text: string, font: FontKey)

  /** The fields the inline walk steps: cursor, font state, line, tag flags and display list. */
  datatype Engine = Engine(
    x: int, y: int, size: int, weight: int, style: int, line: seq<Word>,
    center: bool, sup: bool, abbr: bool, pre: bool, display: seq<Drawable>)

  /** The font state and the flags, which the walk of a balanced tree gives back. */
  datatype FontState = FontState(size: int, weight: int, style: int, center: bool, sup: bool, abbr: bool, pre: bool)

  function FontStateOf(c: Engine): FontState
  {
    FontState(c.size, c.weight, c.style, c.center, c.sup, c.abbr, c.pre)
  }

  /** The metrics and the box: `this.x`, `this.y` and `width`, which nothing in this engine changes. */
  datatype Frame = Frame(m: Measure, left: int, top: int, width: int)

  /** The state inline mode starts from: cursor at 0, plain 16, an empty line, as constructed otherwise. */
  function Reset(): (c: Engine)
    ensures c.x == 0 && c.y == 0 && c.line == [] && c.display == []
    ensures FontStateOf(c) == FontState(InitialSize, Plain, Plain, false, false, false, false)
  {
    Engine(0, 0, InitialSize, Plain, Plain, [], false, false, false, false, [])
  }

  // ------------------------------------------------------------------ flush

  function Ascents(m: Measure, line: seq<Word>): seq<int>
  {
    seq(|line|, i requires 0 <= i < |line| => m.ascent(line[i].font, line[i].text))
  }

  function Descents(m: Measure, line: seq<Word>): seq<int>
  {
    seq(|line|, i requires 0 <= i < |line| => m.descent(line[i].font, line[i].text))
  }

  /** One word of the line drawn at the box's origin plus the word's own `left` and `top`. */
  function Drawn(w: Word, f: Frame): Drawable
  {
    DrawText(f.left + w.left, f.top + w.top, w.text, w.font, Black)
  }

  function DrawnAll(line: seq<Word>, f: Frame): seq<Drawable>
  {
    seq(|line|, i requires 0 <= i < |line| => Drawn(line[i], f))
  }

  /** Where the line after the current one starts: below the tallest ascent and descent. */
  function NextLineY(y: int, line: seq<Word>, m: Measure): int
  {
    LineBottom(y, MaxOrZero(Ascents(m, line)), MaxOrZero(Descents(m, line)))
  }

  /**
   * `flush()`: `cursorY` moves past the line, `cursorX` goes back to the
   * left edge, and each word is drawn where it was put on the line; the
   * baseline only moves the cursor.
   */
  function Flushed(c: Engine, f: Frame): Engine
  {
    c.(x := 0, y := NextLineY(c.y, c.line, f.m), line := [], display := c.display + DrawnAll(c.line, f))
  }

  /** A flush of an empty line draws nothing and leaves `cursorY` where it was. */
  lemma FlushEmptyLine(c: Engine, f: Frame)
    requires c.line == []
    ensures Flushed(c, f) == c.(x := 0)
  {
    LineBottomGrows(c.y, 0, 0);
    assert DrawnAll([], f) == [];
  }

  /**
   * Every word of the line is drawn at its own place shifted by the box's
   * origin, after what was drawn before; raised `sup` words stay raised.
   */
  lemma FlushDrawsLine(c: Engine, f: Frame)
    ensures var d := Flushed(c, f);
      |d.display| == |c.display| + |c.line| && d.display[..|c.display|] == c.display &&
      forall i :: 0 <= i < |c.line| ==>
        d.display[|c.display| + i] == DrawText(f.left + c.line[i].left, f.top + c.line[i].top, c.line[i].text, c.line[i].font, Black)
  {
    var d := Flushed(c, f);
    forall i | 0 <= i < |c.line|
      ensures d.display[|c.display| + i] == DrawnAll(c.line, f)[i]
    {
    }
  }

  // ------------------------------------------------------------------- font

  /**
   * `getFont()`: `sup` halves the size; else `abbr` is two smaller and
   * bold; else `pre` is monospaced; otherwise sans-serif at the current
   * size, weight and style.
   */
  function FontOf(c: Engine): FontKey
  {
    if c.sup then FontKey(SansSerif, Trunc(c.size, 2), c.weight, c.style)
    else if c.abbr then FontKey(SansSerif, c.size - 2, Bold, c.style)
    else if c.pre then FontKey(Monospaced, c.size, c.weight, c.style)
    else FontKey(SansSerif, c.size, c.weight, c.style)
  }

  /**
   * The first flag set decides the font: under `sup` neither `abbr` nor
   * `pre` matters, under `abbr` `pre` does not, and the style is always
   * the current one.
   */
  lemma FontPriority(c: Engine, abbr: bool, pre: bool)
    ensures c.sup ==> FontOf(c) == FontOf(c.(abbr := abbr, pre := pre))
    ensures !c.sup && c.abbr ==> FontOf(c) == FontOf(c.(pre := pre)) && FontOf(c).weight == Bold
    ensures !c.sup && !c.abbr && !c.pre ==> FontOf(c) == FontOf(c.(center := !c.center)) && FontOf(c).family == SansSerif
    ensures FontOf(c).style == c.style
    ensures FontOf(c).family == Monospaced <==> !c.sup && !c.abbr && c.pre
  {
  }

  // ------------------------------------------------------------------- word

  /** Where a word goes up to: `sup` raises it by half its height. */
  function WordTop(c: Engine, m: Measure, font: FontKey, word: string): int
  {
    if c.sup then c.y - Trunc(m.height(font, word), 2) else c.y
  }

  /**
   * `word(word, space, font)`: a blank word is dropped; a word that would
   * end past `width` flushes the line first; then the trimmed word joins the
   * line at `cursorX` and the cursor moves past it and one space.
   */
  function WordStep(c: Engine, word: string, space: int, font: FontKey, f: Frame): Engine
  {
    if IsBlank(word) then c
    else
      var w := f.m.width(font, word);
      var d := if c.x + w > f.width then Flushed(c, f) else c;
      Placing(d, Word(d.x, WordTop(d, f.m, font, word), Trim(word), font), w + space)
  }

  /** The word joins the line and the cursor moves `advance` to the right. */
  function Placing(d: Engine, w: Word, advance: int): Engine
  {
    d.(x := d.x + advance, line := d.line + [w])
  }

  /** A word that fits stays on the current line, after the words already there. */
  lemma WordFits(c: Engine, word: string, space: int, font: FontKey, f: Frame)
    requires !IsBlank(word) && c.x + f.m.width(font, word) <= f.width
    ensures var r := WordStep(c, word, space, font, f);
      r.line == c.line + [Word(c.x, WordTop(c, f.m, font, word), Trim(word), font)] &&
      r.x == c.x + f.m.width(font, word) + space && r.display == c.display && r.y == c.y
  {
  }

  /** A word that does not fit ends the line: the line is drawn and the word starts the next one at the left edge. */
  lemma WordWraps(c: Engine, word: string, space: int, font: FontKey, f: Frame)
    requires !IsBlank(word) && c.x + f.m.width(font, word) > f.width
    ensures var r := WordStep(c, word, space, font, f);
      r.line == [Word(0, WordTop(Flushed(c, f), f.m, font, word), Trim(word), font)] &&
      r.display == c.display + DrawnAll(c.line, f) && r.x == f.m.width(font, word) + space
  {
  }

  /**
   * Unlike the newer engine, a raised `sup` word is drawn raised: on an
   * empty line, the word comes out half its height above the cursor.
   */
  lemma SupWordDrawnRaised(c: Engine, word: string, space: int, f: Frame)
    requires c.sup && c.line == [] && !IsBlank(word) && c.x + f.m.width(FontOf(c), word) <= f.width
    ensures var font := FontOf(c);
      Flushed(WordStep(c, word, space, font, f), f).display ==
        c.display + [DrawText(f.left + c.x, f.top + c.y - Trunc(f.m.height(font, word), 2), Trim(word), font, Black)]
  {
    var font := FontOf(c);
    var r := WordStep(c, word, space, font, f);
    WordFits(c, word, space, font, f);
    assert r.line == [Word(c.x, c.y - Trunc(f.m.height(font, word), 2), Trim(word), font)];
    assert DrawnAll(r.line, f) == [Drawn(r.line[0], f)];
  }

  // -------------------------------------------------------------- text, tags

  /** The words of a text in turn, upper-cased inside `abbr`. */
  function Words(c: Engine, ws: seq<string>, space: int, font: FontKey, f: Frame): Engine
  {
    if ws == [] then c
    else
      var d := Words(c, ws[..|ws| - 1], space, font, f);
      WordStep(d, if d.abbr then Upper(ws[|ws| - 1]) else ws[|ws| - 1], space, font, f)
  }

  /** A text node: the font of the current state; inside `pre` the whole text is one word, otherwise it is split on spaces. */
  function TextStep(c: Engine, text: string, f: Frame): Engine
  {
    var font := FontOf(c);
    var space := f.m.width(font, " ");
    if c.pre then WordStep(c, text, space, font, f)
    else Words(c, SplitOn(text, {' '}), space, font, f)
  }

  /** The tags `openTag` and `closeTag` tell apart; every other tag is `OtherTag`. */
  datatype TagKind = ItalicTag | BoldTag | SmallTag | BigTag | BreakTag | ParagraphTag | HeadingTag
                   | SupTag | AbbrTag | PreTag | OtherTag

  function KindOf(tag: string): TagKind
  {
    if tag == "i" then ItalicTag
    else if tag == "b" then BoldTag
    else if tag == "small" then SmallTag
    else if tag == "big" then BigTag
    else if tag == "br" then BreakTag
    else if tag == "p" then ParagraphTag
    else if tag == "h1" then HeadingTag
    else if tag == "sup" then SupTag
    else if tag == "abbr" then AbbrTag
    else if tag == "pre" then PreTag
    else OtherTag
  }

  /** `openTag(tag)` */
  function Opened(c: Engine, tag: string, f: Frame): Engine
  {
    match KindOf(tag)
    case ItalicTag => c.(style := Italic)
    case BoldTag => c.(weight := Bold)
    case SmallTag => c.(size := c.size - 2)
    case BigTag => c.(size := c.size + 2)
    case BreakTag => Flushed(c, f)
    case HeadingTag => c.(center := true)
    case SupTag => c.(sup := true)
    case AbbrTag => c.(abbr := true)
    case PreTag => c.(pre := true)
    case _ => c
  }

  /** `closeTag(tag)` */
  function Closed(c: Engine, tag: string, f: Frame): Engine
  {
    match KindOf(tag)
    case ItalicTag => c.(style := Plain)
    case BoldTag => c.(weight := Plain)
    case SmallTag => c.(size := c.size + 2)
    case BigTag => c.(size := c.size - 2)
    case ParagraphTag => var d := Flushed(c, f); d.(y := d.y + VStep)
    case HeadingTag => Flushed(c, f).(center := false)
    case SupTag => c.(sup := false)
    case AbbrTag => c.(abbr := false)
    case PreTag => c.(pre := false)
    case _ => c
  }

  /** `recurse(tree)`: text is placed; an element opens, its children follow in order, and it closes. */
  function Walk(c: Engine, n: Node, f: Frame): Engine
    decreases n, 1
  {
    match n
    case Text(text, _) => TextStep(c, text, f)
    case Element(tag, _, cs, _, _) => Closed(WalkAll(Opened(c, tag, f), cs, f), tag, f)
  }

  function WalkAll(c: Engine, ns: seq<Node>, f: Frame): Engine
    decreases ns, 0
  {
    if ns == [] then c
    else Walk(WalkAll(c, ns[..|ns| - 1], f), ns[|ns| - 1], f)
  }

  // ------------------------------------------------------------ font state

  /** The state a walk may leave: the same size, and each of the rest as it was or reset. */
  predicate Within(a: FontState, b: FontState)
  {
    b.size == a.size &&
    (b.weight == a.weight || b.weight == Plain) && (b.style == a.style || b.style == Plain) &&
    (b.center == a.center || !b.center) && (b.sup == a.sup || !b.sup) &&
    (b.abbr == a.abbr || !b.abbr) && (b.pre == a.pre || !b.pre)
  }

  /** Placing words never touches the font state. */
  lemma {:induction false} WordsKeepFont(c: Engine, ws: seq<string>, space: int, font: FontKey, f: Frame)
    ensures FontStateOf(Words(c, ws, space, font, f)) == FontStateOf(c)
  {
    if ws != [] {
      WordsKeepFont(c, ws[..|ws| - 1], space, font, f);
    }
  }

  lemma TextKeepsFont(c: Engine, text: string, f: Frame)
    ensures FontStateOf(TextStep(c, text, f)) == FontStateOf(c)
  {
    var font := FontOf(c);
    if !c.pre {
      WordsKeepFont(c, SplitOn(text, {' '}), f.m.width(font, " "), font, f);
    }
  }

  /**
   * Walking any tree keeps the size (`small` and `big` undo themselves on
   * close), and leaves every other part of the font state as it was or
   * reset: closing `i`, `b`, `h1` or a flag tag resets rather than restores.
   */
  lemma {:induction false} WalkKeepsFont(c: Engine, n: Node, f: Frame)
    ensures Within(FontStateOf(c), FontStateOf(Walk(c, n, f)))
    decreases n, 1
  {
    match n
    case Text(text, _) =>
      TextKeepsFont(c, text, f);
    case Element(tag, _, cs, _, _) =>
      var o := Opened(c, tag, f);
      WalkAllKeepsFont(o, cs, f);
      TagPairKeepsFont(c, WalkAll(o, cs, f), tag, f);
  }

  /** What an open tag changes, its close undoes or resets, given that what came between kept within the opened state. */
  lemma TagPairKeepsFont(c: Engine, d: Engine, tag: string, f: Frame)
    requires Within(FontStateOf(Opened(c, tag, f)), FontStateOf(d))
    ensures Within(FontStateOf(c), FontStateOf(Closed(d, tag, f)))
  {
    OpenedFont(c, tag, f);
    ClosedFont(d, tag, f);
    FontPairWithin(FontStateOf(c), FontStateOf(d), KindOf(tag));
  }

  /** `openTag` seen on the font state alone. */
  function OpenFont(s: FontState, k: TagKind): FontState
  {
    match k
    case ItalicTag => s.(style := Italic)
    case BoldTag => s.(weight := Bold)
    case SmallTag => s.(size := s.size - 2)
    case BigTag => s.(size := s.size + 2)
    case HeadingTag => s.(center := true)
    case SupTag => s.(sup := true)
    case AbbrTag => s.(abbr := true)
    case PreTag => s.(pre := true)
    case _ => s
  }

  /** `closeTag` seen on the font state alone. */
  function CloseFont(s: FontState, k: TagKind): FontState
  {
    match k
    case ItalicTag => s.(style := Plain)
    case BoldTag => s.(weight := Plain)
    case SmallTag => s.(size := s.size + 2)
    case BigTag => s.(size := s.size - 2)
    case HeadingTag => s.(center := false)
    case SupTag => s.(sup := false)
    case AbbrTag => s.(abbr := false)
    case PreTag => s.(pre := false)
    case _ => s
  }

  lemma OpenedFont(c: Engine, tag: string, f: Frame)
    ensures FontStateOf(Opened(c, tag, f)) == OpenFont(FontStateOf(c), KindOf(tag))
  {
    if KindOf(tag) == BreakTag {
      FlushKeepsFont(c, f);
    }
  }

  lemma ClosedFont(c: Engine, tag: string, f: Frame)
    ensures FontStateOf(Closed(c, tag, f)) == CloseFont(FontStateOf(c), KindOf(tag))
  {
    if KindOf(tag) == ParagraphTag || KindOf(tag) == HeadingTag {
      FlushKeepsFont(c, f);
    }
  }

  lemma FontPairWithin(a: FontState, b: FontState, k: TagKind)
    requires Within(OpenFont(a, k), b)
    ensures Within(a, CloseFont(b, k))
  {
  }

  lemma FlushKeepsFont(c: Engine, f: Frame)
    ensures FontStateOf(Flushed(c, f)) == FontStateOf(c)
  {
  }

  lemma {:induction false} WalkAllKeepsFont(c: Engine, ns: seq<Node>, f: Frame)
    ensures Within(FontStateOf(c), FontStateOf(WalkAll(c, ns, f)))
    decreases ns, 0
  {
    if ns != [] {
      var d := WalkAll(c, ns[..|ns| - 1], f);
      WalkAllKeepsFont(c, ns[..|ns| - 1], f);
      WalkKeepsFont(d, ns[|ns| - 1], f);
    }
  }

  /**
   * Balanced tags restore the font state: from plain text with no flag set,
   * walking any tree comes back to the same size, weight, style and flags.
   */
  lemma BalancedTagsRestore(c: Engine, n: Node, f: Frame)
    requires c.weight == Plain && c.style == Plain && !c.center && !c.sup && !c.abbr && !c.pre
    ensures FontStateOf(Walk(c, n, f)) == FontStateOf(c)
  {
    WalkKeepsFont(c, n, f);
  }

  /** Closing `b` makes the text plain even inside an outer `b`: a close resets the weight, it does not restore it. */
  lemma CloseBoldResets(c: Engine, attrs: Attributes, cs: seq<Node>, st: Style, focused: bool, f: Frame)
    ensures Walk(c, Element("b", attrs, cs, st, focused), f).weight == Plain
    ensures Walk(c, Element("i", attrs, cs, st, focused), f).style == Plain
  {
  }

  // ---------------------------------------------------------------- layout

  /** A laid-out `BlockLayout`: its node, geometry, mode, display list and child layouts in order. */
  datatype Box = Box(node: Node, rect: Rect, mode: LayoutType, display: seq<Drawable>, children: seq<Box>)

  /** `previous?.let { it.y + it.height } ?: parent.y` */
  function Below(parent: Rect, previous: Option<Rect>): int
  {
    if previous.Some? then previous.value.y + previous.value.height else parent.y
  }

  /** `children.sumOf { it.height }` */
  function Heights(bs: seq<Box>): int
  {
    if bs == [] then 0 else bs[0].rect.height + Heights(bs[1..])
  }

  /** `nav id=toc` */
  predicate IsToc(n: Node)
  {
    n.IsTag("nav") && n.Attribute("id") == Some("toc")
  }

  /** The `div class=toc` that `getToc()` builds around the text `Table of Contents`; no style is copied. */
  const TocNode: Node := Element("div", [("class", "toc")], [Text("Table of Contents", map[])], map[], false)

  /** Inline mode: the node walked from the reset state, then the last line flushed. */
  function LaidInline(n: Node, frame: Rect, m: Measure): Engine
  {
    var f := Frame(m, frame.x, frame.y, frame.width);
    Flushed(Walk(Reset(), n, f), f)
  }

  /**
   * `layout()`: as wide as the parent, at its left edge, below the previous
   * box. A block lays out the table of contents and then one child layout
   * per child node (none for `head`), each below the one before, and is as
   * tall as they are together; an inline box walks its node and is as tall
   * as the cursor went.
   */
  function LayoutBlock(n: Node, parent: Rect, previous: Option<Rect>, m: Measure): Box
    decreases n, 2
  {
    var frame := Rect(parent.x, Below(parent, previous), parent.width, 0);
    if ModeOf(n) == InlineType then
      var e := LaidInline(n, frame, m);
      Box(n, frame.(height := e.y), InlineType, e.display, [])
    else
      var toc := if IsToc(n) then [LayoutToc(frame, m)] else [];
      var kids := match n
        case Element(tag, _, cs, _, _) =>
          if tag == "head" then [] else LayoutKids(cs, frame, if toc == [] then None else Some(toc[0].rect), m)
        case Text(_, _) => [];
      Box(n, frame.(height := Heights(toc + kids)), BlockType, [], toc + kids)
  }

  /** `getToc()` laid out: its `div` flows, so it is an inline box at the parent's origin. */
  function LayoutToc(frame: Rect, m: Measure): Box
  {
    var e := LaidInline(TocNode, frame, m);
    Box(TocNode, Rect(frame.x, frame.y, frame.width, e.y), InlineType, e.display, [])
  }

  /** `for (child in node.children)` a layout after the previous one, then each laid out in turn. */
  function LayoutKids(cs: seq<Node>, frame: Rect, previous: Option<Rect>, m: Measure): seq<Box>
    decreases cs, 1
  {
    if cs == [] then []
    else
      var first := LayoutBlock(cs[0], frame, previous, m);
      [first] + LayoutKids(cs[1..], frame, Some(first.rect), m)
  }

  /** The table of contents is what `layout()` makes of its `div` with no previous box. */
  lemma TocIsLaidOut(frame: Rect, m: Measure)
    requires frame.height == 0
    ensures LayoutToc(frame, m) == LayoutBlock(TocNode, frame, None, m)
  {
    assert !HasBlockChild(TocNode) by {
      assert TocNode.Children() == [Text("Table of Contents", map[])];
    }
    assert Rect(frame.x, Below(frame, None), frame.width, 0) == frame;
  }

  /**
   * The child layouts stand for the children one to one and in order, at
   * the frame's left edge and width, each starting where the one before
   * ends; the last ends as far below the first's top as their heights add up to.
   */
  lemma {:induction false} KidsStack(cs: seq<Node>, frame: Rect, previous: Option<Rect>, m: Measure)
    ensures var ks := LayoutKids(cs, frame, previous, m);
      |ks| == |cs| &&
      (forall i :: 0 <= i < |ks| ==> ks[i].node == cs[i] && ks[i].rect.x == frame.x && ks[i].rect.width == frame.width) &&
      (ks != [] ==> ks[0].rect.y == Below(frame, previous)) &&
      (forall i :: 0 < i < |ks| ==> ks[i].rect.y == ks[i - 1].rect.y + ks[i - 1].rect.height) &&
      (ks != [] ==> ks[|ks| - 1].rect.y + ks[|ks| - 1].rect.height == Below(frame, previous) + Heights(ks))
  {
    if cs != [] {
      var first := LayoutBlock(cs[0], frame, previous, m);
      var rest := LayoutKids(cs[1..], frame, Some(first.rect), m);
      KidsStack(cs[1..], frame, Some(first.rect), m);
      var ks := [first] + rest;
      assert LayoutKids(cs, frame, previous, m) == ks;
      assert ks[1..] == rest;
      forall i | 0 < i < |ks| ensures ks[i] == rest[i - 1] { }
      forall i | 0 <= i < |ks| ensures ks[i].node == cs[i] {
        if i > 0 { assert cs[i] == cs[1..][i - 1]; }
      }
    }
  }

  /**
   * A block is at its parent's left edge and width, below the previous box;
   * in block mode it is as tall as its child layouts together, and it has
   * one per child node (none for `head`) after the table of contents; in
   * inline mode it has none and is as tall as the cursor went.
   */
  lemma BlockGeometry(n: Node, parent: Rect, previous: Option<Rect>, m: Measure)
    ensures var b := LayoutBlock(n, parent, previous, m);
      b.node == n && b.mode == ModeOf(n) &&
      b.rect.x == parent.x && b.rect.width == parent.width && b.rect.y == Below(parent, previous)
    ensures var b := LayoutBlock(n, parent, previous, m);
      b.mode == BlockType ==> (b.rect.height == Heights(b.children) && b.display == [] &&
        |b.children| == (if IsToc(n) then 1 else 0) + (if n.IsTag("head") then 0 else |n.Children()|))
    ensures var b := LayoutBlock(n, parent, previous, m);
      b.mode == InlineType ==> (b.children == [] &&
        b.rect.height == LaidInline(n, Rect(parent.x, Below(parent, previous), parent.width, 0), m).y)
  {
    var frame := Rect(parent.x, Below(parent, previous), parent.width, 0);
    if ModeOf(n) == BlockType && n.Element? && n.tag != "head" {
      var toc := if IsToc(n) then [LayoutToc(frame, m)] else [];
      KidsStack(n.children, frame, if toc == [] then None else Some(toc[0].rect), m);
    }
  }

  // ------------------------------------------------------------- document

  const DocumentLeft: int := 13   // `hStep`
  const DocumentTop: int := 50    // `vStep`

  /** `DocumentLayout(node, browserWidth).layout()`: one block for the whole tree, inside the page margins. */
  function LayoutDocument(n: Node, browserWidth: int, m: Measure): Box
  {
    var frame := Rect(DocumentLeft, DocumentTop, browserWidth - 2 * DocumentLeft, 0);
    var child := LayoutBlock(n, frame, None, m);
    Box(n, frame.(height := child.rect.height), BlockType, [], [child])
  }

  /** The document box is 13 in and 50 down, 26 narrower than the window, and exactly as tall as its one block, which sits at its origin. */
  lemma DocumentHoldsOneBlock(n: Node, browserWidth: int, m: Measure)
    ensures var d := LayoutDocument(n, browserWidth, m);
      |d.children| == 1 && d.children[0].node == n &&
      d.rect == Rect(13, 50, browserWidth - 26, d.children[0].rect.height) &&
      d.children[0].rect.x == 13 && d.children[0].rect.y == 50 && d.children[0].rect.width == browserWidth - 26
  {
    BlockGeometry(n, Rect(13, 50, browserWidth - 26, 0), None, m);
  }

  // ---------------------------------------------------------------- paint

  /** The first matching decoration: grey for `pre`, light grey for `nav class=links`, a marker for `li`, grey for `div class=toc`. */
  function Decoration(n: Node, r: Rect): seq<Drawable>
  {
    if n.Text? then []
    else if n.tag == "pre" then [DrawRect(r.x, r.y, r.x + r.width, r.y + r.height, Gray)]
    else if n.tag == "nav" && Get(n.attributes, "class") == Some("links") then [DrawRect(r.x, r.y, r.x + r.width, r.y + r.height, LightGray)]
    else if n.tag == "li" then [DrawRect(r.x, r.y - 4 + Trunc(r.height, 2), r.x + 8, r.y + 4 + Trunc(r.height, 2), Black)]
    else if n.tag == "div" && Get(n.attributes, "class") == Some("toc") then [DrawRect(r.x, r.y, r.x + r.width, r.y + r.height, Gray)]
    else []
  }

  /** `withPos(it.left + 15, it.top)` */
  function Indented(d: Drawable): Drawable
  {
    match d
    case DrawText(left, top, text, font, color) => DrawText(left + 15, top, text, font, color)
    case _ => d
  }

  /** `paint()`: the decoration, then in inline mode the display list, moved 15 right inside `li`. */
  function PaintBox(b: Box): seq<Drawable>
  {
    var text := if b.mode == BlockType then []
                else if b.node.IsTag("li") then seq(|b.display|, i requires 0 <= i < |b.display| => Indented(b.display[i]))
                else b.display;
    Decoration(b.node, b.rect) + text
  }

  /**
   * What a box paints: at most one decoration, then for an inline box its
   * whole display list in order, each text 15 further right inside `li`;
   * a block box paints no text.
   */
  lemma PaintShape(b: Box)
    ensures var p := PaintBox(b);
      var k := |Decoration(b.node, b.rect)|;
      k <= 1 && |p| == k + (if b.mode == InlineType then |b.display| else 0) &&
      (b.mode == InlineType ==> forall i :: 0 <= i < |b.display| ==>
        p[k + i] == if b.node.IsTag("li") then Indented(b.display[i]) else b.display[i])
  {
  }

  /** A `pre` that is also in `li` position still paints grey: the first match wins. */
  lemma PreWinsOverMarker(b: Box)
    requires b.node.IsTag("pre")
    ensures PaintBox(b)[0] == DrawRect(b.rect.x, b.rect.y, b.rect.x + b.rect.width, b.rect.y + b.rect.height, Gray)
  {
  }

  /** `paintTree()`: the box's own paint, then each child's tree in order. */
  function PaintTree(b: Box): seq<Drawable>
    decreases b, 1
  {
    PaintBox(b) + PaintTreeAll(b.children)
  }

  function PaintTreeAll(bs: seq<Box>): seq<Drawable>
    decreases bs, 0
  {
    if bs == [] then [] else PaintTreeAll(bs[..|bs| - 1]) + PaintTree(bs[|bs| - 1])
  }

  /**
   * `paintTree()` from the document: `DocumentLayout.paint()` is empty, so
   * only the children's trees are painted. The document box carries the
   * root node for its geometry; it is never given to PaintBox, whose
   * decorations would otherwise apply to that node.
   */
  function PaintDocument(d: Box): seq<Drawable>
  {
    PaintTreeAll(d.children)
  }

  /** Painting a laid-out document paints its one block's tree and nothing of its own. */
  lemma DocumentPaintsItsBlock(n: Node, browserWidth: int, m: Measure)
    ensures PaintDocument(LayoutDocument(n, browserWidth, m)) ==
      PaintTree(LayoutBlock(n, Rect(DocumentLeft, DocumentTop, browserWidth - 2 * DocumentLeft, 0), None, m))
  {
    var child := LayoutBlock(n, Rect(DocumentLeft, DocumentTop, browserWidth - 2 * DocumentLeft, 0), None, m);
    assert LayoutDocument(n, browserWidth, m).children == [child];
    assert [child][..0] == [];
    assert PaintTreeAll([child]) == PaintTreeAll([]) + PaintTree(child);
  }

  /** The boxes of a tree in pre-order. */
  function Boxes(b: Box): seq<Box>
    decreases b, 1
  {
    [b] + BoxesAll(b.children)
  }

  function BoxesAll(bs: seq<Box>): seq<Box>
    decreases bs, 0
  {
    if bs == [] then [] else BoxesAll(bs[..|bs| - 1]) + Boxes(bs[|bs| - 1])
  }

  /** `paint()` of each box in turn. */
  function PaintEach(bs: seq<Box>): seq<Drawable>
  {
    if bs == [] then [] else PaintEach(bs[..|bs| - 1]) + PaintBox(bs[|bs| - 1])
  }

  lemma {:induction false} PaintEachAppend(a: seq<Box>, b: seq<Box>)
    ensures PaintEach(a + b) == PaintEach(a) + PaintEach(b)
    decreases |b|
  {
    if b == [] {
      assert a + b == a;
    } else {
      var init, last := b[..|b| - 1], b[|b| - 1];
      assert (a + b)[..|a + b| - 1] == a + init && (a + b)[|a + b| - 1] == last;
      PaintEachAppend(a, init);
      assert PaintEach(a + b) == PaintEach(a + init) + PaintBox(last);
      assert PaintEach(b) == PaintEach(init) + PaintBox(last);
    }
  }

  /** `paintTree` paints the boxes of the tree one by one in pre-order. */
  lemma {:induction false} PaintTreeIsPreOrder(b: Box)
    ensures PaintTree(b) == PaintEach(Boxes(b))
    decreases b, 1
  {
    PaintTreeAllIsPreOrder(b.children);
    PaintEachAppend([b], BoxesAll(b.children));
    assert PaintEach([b]) == PaintBox(b) by {
      assert [b][..0] == [];
    }
  }

  lemma {:induction false} PaintTreeAllIsPreOrder(bs: seq<Box>)
    ensures PaintTreeAll(bs) == PaintEach(BoxesAll(bs))
    decreases bs, 0
  {
    if bs != [] {
      var last := bs[|bs| - 1];
      PaintTreeAllIsPreOrder(bs[..|bs| - 1]);
      PaintTreeIsPreOrder(last);
      PaintEachAppend(BoxesAll(bs[..|bs| - 1]), Boxes(last));
    }
  }

  // ------------------------------------------------------------ the class

  /** The drawing loop of `flush()`: each word of the line, in order, at the box's origin plus its place. */
  method DrawLineWords(words: seq<Word>, f: Frame) returns (drawn: seq<Drawable>)
    ensures drawn == DrawnAll(words, f)
  {
    drawn := [];
    var i := 0;
    while i < |words|
      invariant 0 <= i <= |words|
      invariant drawn == DrawnAll(words[..i], f)
    {
      var e := words[i];
      assert DrawnAll(words[..i + 1], f) == DrawnAll(words[..i], f) + [Drawn(e, f)];
      drawn := drawn + [DrawText(f.left + e.left, f.top + e.top, e.text, e.font, Black)];
      i := i + 1;
    }
    assert words[..i] == words;
  }

  /** `class BlockLayout(node, parent, previous)` with the fields its `layout()` updates. */
  class BlockLayout {
    const node: Node
    const parent: Rect
    const previous: Option<Rect>
    const m: Measure

    var children: seq<Box>
    var cursorX: int
    var cursorY: int
    var weight: int
    var style: int
    var size: int
    var line: seq<Word>
    var center: bool
    var sup: bool
    var abbr: bool
    var pre: bool
    var x: int
    var y: int
    var width: int
    var height: int
    var displayList: seq<Drawable>

    /** The fields the inline walk steps. */
    function State(): Engine
      reads this
    {
      Engine(cursorX, cursorY, size, weight, style, line, center, sup, abbr, pre, displayList)
    }

    /** The metrics and the box's origin and width. */
    function Pen(): Frame
      reads this
    {
      Frame(m, x, y, width)
    }

    /** The layout as `layout()` leaves it. */
    function Laid(): Box
      reads this
    {
      Box(node, Rect(x, y, width, height), ModeOf(node), displayList, children)
    }

    /** As constructed: nothing laid out, no flag set. */
    predicate Fresh()
      reads this
    {
      children == [] && displayList == [] && !center && !sup && !abbr && !pre
    }

    constructor(node: Node, parent: Rect, previous: Option<Rect>, m: Measure)
      ensures this.node == node && this.parent == parent && this.previous == previous && this.m == m
      ensures Fresh() && State() == Reset()
    {
      this.node := node;
      this.parent := parent;
      this.previous := previous;
      this.m := m;
      children := [];
      cursorX, cursorY, weight, style, size, line := 0, 0, Plain, Plain, InitialSize, [];
      center, sup, abbr, pre := false, false, false, false;
      x, y, width, height := 0, 0, 0, 0;
      displayList := [];
    }

    /** `flush()` */
    method Flush()
      modifies this`cursorX, this`cursorY, this`line, this`displayList
      ensures State() == Flushed(old(State()), Pen())
    {
      ghost var c := State();
      var drawn := DrawLineWords(line, Pen());
      var next := LineBottom(cursorY, MaxOrZero(Ascents(m, line)), MaxOrZero(Descents(m, line)));
      cursorY, cursorX, displayList, line := next, 0, displayList + drawn, [];
      assert State() == Flushed(c, Pen());
    }

    /** `word(word, space, font)` */
    method AddWord(word: string, space: int, font: FontKey)
      modifies this`cursorX, this`cursorY, this`line, this`displayList
      ensures State() == WordStep(old(State()), word, space, font, Pen())
    {
      if IsBlank(word) {
        return;
      }
      var w := m.width(font, word);
      if cursorX + w > width {
        Flush();
      }
      var top := if sup then cursorY - Trunc(m.height(font, word), 2) else cursorY;
      line, cursorX := line + [Word(cursorX, top, Trim(word), font)], cursorX + w + space;
    }

    /** The words of a text in turn, upper-cased inside `abbr`. */
    method AddWords(words: seq<string>, space: int, font: FontKey)
      modifies this`cursorX, this`cursorY, this`line, this`displayList
      ensures State() == Words(old(State()), words, space, font, Pen())
    {
      ghost var c := State();
      var i := 0;
      while i < |words|
        invariant 0 <= i <= |words|
        invariant State() == Words(c, words[..i], space, font, Pen())
      {
        ghost var d := State();
        var w := if abbr then Upper(words[i]) else words[i];
        assert words[..i + 1][..i] == words[..i] && words[..i + 1][i] == words[i];
        assert Words(c, words[..i + 1], space, font, Pen()) == WordStep(d, w, space, font, Pen());
        AddWord(w, space, font);
        i := i + 1;
      }
      assert words[..i] == words;
    }

    /** The text branch of `recurse(tree)`. */
    method Text(text: string)
      modifies this`cursorX, this`cursorY, this`line, this`displayList
      ensures State() == TextStep(old(State()), text, Pen())
    {
      var font := FontOf(State());
      var space := m.width(font, " ");
      if pre {
        AddWord(text, space, font);
      } else {
        AddWords(SplitOn(text, {' '}), space, font);
      }
    }

    /** `openTag(tag)` */
    method OpenTag(tag: string)
      modifies this`cursorX, this`cursorY, this`line, this`displayList, this`size, this`weight, this`style,
        this`center, this`sup, this`abbr, this`pre
      ensures State() == Opened(old(State()), tag, Pen())
    {
      match KindOf(tag)
      case ItalicTag => style := Italic;
      case BoldTag => weight := Bold;
      case SmallTag => size := size - 2;
      case BigTag => size := size + 2;
      case BreakTag => Flush();
      case HeadingTag => center := true;
      case SupTag => sup := true;
      case AbbrTag => abbr := true;
      case PreTag => pre := true;
      case _ =>
    }

    /** `closeTag(tag)` */
    method CloseTag(tag: string)
      modifies this`cursorX, this`cursorY, this`line, this`displayList, this`size, this`weight, this`style,
        this`center, this`sup, this`abbr, this`pre
      ensures State() == Closed(old(State()), tag, Pen())
    {
      match KindOf(tag)
      case ItalicTag => style := Plain;
      case BoldTag => weight := Plain;
      case SmallTag => size := size + 2;
      case BigTag => size := size - 2;
      case ParagraphTag =>
        Flush();
        cursorY := cursorY + VStep;
      case HeadingTag =>
        Flush();
        center := false;
      case SupTag => sup := false;
      case AbbrTag => abbr := false;
      case PreTag => pre := false;
      case _ =>
    }

    /** `recurse(tree)` */
    method Recurse(n: Node)
      modifies this`cursorX, this`cursorY, this`line, this`displayList, this`size, this`weight, this`style,
        this`center, this`sup, this`abbr, this`pre
      ensures State() == Walk(old(State()), n, Pen())
      decreases n, 1
    {
      match n
      case Text(text, _) =>
        Text(text);
      case Element(tag, _, cs, _, _) =>
        OpenTag(tag);
        RecurseAll(cs);
        CloseTag(tag);
    }

    /** `for (child in tree.children) recurse(child)` */
    method RecurseAll(ns: seq<Node>)
      modifies this`cursorX, this`cursorY, this`line, this`displayList, this`size, this`weight, this`style,
        this`center, this`sup, this`abbr, this`pre
      ensures State() == WalkAll(old(State()), ns, Pen())
      decreases ns, 0
    {
      var i := 0;
      while i < |ns|
        invariant 0 <= i <= |ns|
        invariant State() == WalkAll(old(State()), ns[..i], Pen())
      {
        assert ns[..i + 1][..i] == ns[..i];
        Recurse(ns[i]);
        i := i + 1;
      }
      assert ns[..i] == ns;
    }

    /**
     * `layout()` of a fresh layout: the geometry from the parent and the
     * previous box, then either the child layouts or the inline walk.
     */
    method Layout()
      requires Fresh()
      modifies this
      ensures Laid() == LayoutBlock(node, parent, previous, m)
    {
      x := parent.x;
      width := parent.width;
      y := Below(parent, previous);
      if ModeOf(node) == BlockType {
        LayoutChildren();
      } else {
        LayoutLines();
      }
    }

    /** The inline branch of `layout()`: the state reset, the node walked, the last line flushed. */
    method LayoutLines()
      requires ModeOf(node) == InlineType && Fresh()
      requires x == parent.x && y == Below(parent, previous) && width == parent.width
      modifies this`cursorX, this`cursorY, this`line, this`displayList, this`size, this`weight, this`style,
        this`center, this`sup, this`abbr, this`pre, this`height
      ensures Laid() == LayoutBlock(node, parent, previous, m)
    {
      cursorX, cursorY, weight, style, size, line := 0, 0, Plain, Plain, InitialSize, [];
      assert State() == Reset();
      ghost var f := Pen();
      assert f == Frame(m, parent.x, Below(parent, previous), parent.width);
      Recurse(node);
      Flush();
      assert State() == LaidInline(node, Rect(parent.x, Below(parent, previous), parent.width, 0), m);
      height := cursorY;
    }

    /** The block branch of `layout()`: the table of contents, then a layout per child, then the height. */
    method LayoutChildren()
      requires ModeOf(node) == BlockType && displayList == []
      requires x == parent.x && y == Below(parent, previous) && width == parent.width
      modifies this`children, this`height
      ensures Laid() == LayoutBlock(node, parent, previous, m)
    {
      var frame := Rect(x, y, width, 0);
      var toc := if IsToc(node) then [LayoutToc(frame, m)] else [];
      var kids: seq<Box> := [];
      if node.Element? && node.tag != "head" {
        kids := Stack(node.children, frame, if toc == [] then None else Some(toc[0].rect));
      }
      children := toc + kids;
      height := Heights(children);
    }

    /** The loop over `node.children`: each child laid out below the one before. */
    method Stack(cs: seq<Node>, frame: Rect, first: Option<Rect>) returns (kids: seq<Box>)
      ensures kids == LayoutKids(cs, frame, first, m)
    {
      kids := [];
      var previous := first;
      var i := 0;
      while i < |cs|
        invariant 0 <= i <= |cs|
        invariant kids + LayoutKids(cs[i..], frame, previous, m) == LayoutKids(cs, frame, first, m)
      {
        var next := LayoutBlock(cs[i], frame, previous, m);
        assert cs[i..][1..] == cs[i + 1..];
        assert LayoutKids(cs[i..], frame, previous, m) == [next] + LayoutKids(cs[i + 1..], frame, Some(next.rect), m);
        kids := kids + [next];
        previous := Some(next.rect);
        i := i + 1;
      }
      assert cs[i..] == [];
    }
  }
}
