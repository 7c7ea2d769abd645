// The line-breaking engine of layout/InlineLayout.kt: a run of inline
// nodes is walked tag by tag and word by word, words collect on the current
// line at `cursorX`, and `flush` turns the line into drawing commands on a
// common baseline and moves `cursorY` down.
//
// The specification functions step a `Cursor` (the engine's fields); the
// class `InlineLayout` holds those fields and its methods are proved to
// step them exactly so.

module InlineLayouts {
  import opened Common
  import opened Strings
  import opened Dom
  import opened Layouts

  /** A word on the current line: `DrawText(cursorX, y, word.trim(), font, color)`. */
  datatype Word = Word(left: int, top: int, text: string, font: FontKey, color: Color)

  /** The engine's fields: cursor, width, the current line, the tag flags and the display list. */
  datatype Cursor = Cursor(
    x: int, y: int, width: int, line: seq<Word>,
    center: bool, sup: bool, abbr: bool, pre: bool,
    display: seq<Drawable>)

  /**
   * What stays fixed while a run is laid out: the platform, the box's
   * origin (`this.x`, `this.y`) and the width a word may run up to before
   * it wraps.
   */
  datatype Frame = Frame(env: Env, left: int, top: int, limit: int)

  const VStep: int := 50
  const LiIndent: int := 15

  /** The state a fresh `InlineLayout` starts `layout()` with. */
  function Start(width: int): (c: Cursor)
    ensures c.x == 0 && c.y == 0 && c.line == [] && c.display == [] && c.width == width
  {
    Cursor(0, 0, width, [], false, false, false, false, [])
  }

  // ------------------------------------------------------------------ flush

  function Ascents(m: Measure, line: seq<Word>): (r: seq<int>)
    ensures |r| == |line|
    ensures forall i :: 0 <= i < |line| ==> r[i] == m.ascent(line[i].font, line[i].text)
  {
    seq(|line|, i requires 0 <= i < |line| => m.ascent(line[i].font, line[i].text))
  }

  function Descents(m: Measure, line: seq<Word>): (r: seq<int>)
    ensures |r| == |line|
    ensures forall i :: 0 <= i < |line| ==> r[i] == m.descent(line[i].font, line[i].text)
  {
    seq(|line|, i requires 0 <= i < |line| => m.descent(line[i].font, line[i].text))
  }

  /** One word of the line drawn with its top `ascent` above the baseline. */
  function Drawn(w: Word, m: Measure, left: int, baseline: int): Drawable
  {
    DrawText(left + w.left, baseline - m.ascent(w.font, w.text), w.text, w.font, w.color)
  }

  /** The line's words drawn in order, each at its own `left` and on the common baseline. */
  function Placed(line: seq<Word>, m: Measure, left: int, baseline: int): seq<Drawable>
  {
    seq(|line|, i requires 0 <= i < |line| => Drawn(line[i], m, left, baseline))
  }

  /** The baseline of the current line, relative to the box. */
  function LineBaseline(y: int, line: seq<Word>, m: Measure): int
  {
    Baseline(y, MaxOrZero(Ascents(m, line)))
  }

  /** Where the line after the current one starts. */
  function NextLineY(y: int, line: seq<Word>, m: Measure): int
  {
    LineBottom(y, MaxOrZero(Ascents(m, line)), MaxOrZero(Descents(m, line)))
  }

  /**
   * `flush()`: the line is drawn on its baseline, `cursorY` moves past the
   * tallest descent, `width` becomes the line's length, and the next line
   * starts at the left edge.
   */
  function Flushed(c: Cursor, f: Frame): Cursor
  {
    FlushedTo(c, NextLineY(c.y, c.line, f.env.m), Placed(c.line, f.env.m, f.left, f.top + LineBaseline(c.y, c.line, f.env.m)))
  }

  /** The cursor after a flush that moves down to `y` and draws `drawn`. */
  function FlushedTo(c: Cursor, y: int, drawn: seq<Drawable>): Cursor
  {
    Cursor(0, y, c.x, [], c.center, c.sup, c.abbr, c.pre, c.display + drawn)
  }

  /** A flush draws the line after what was drawn before, and a flush of an empty line leaves `cursorY` where it was. */
  lemma FlushEmptyLine(c: Cursor, f: Frame)
    ensures Flushed(c, f).display == c.display + Placed(c.line, f.env.m, f.left, f.top + LineBaseline(c.y, c.line, f.env.m))
    ensures Flushed(c, f).x == 0 && Flushed(c, f).line == [] && Flushed(c, f).width == c.x
    ensures c.line == [] ==> Flushed(c, f).y == c.y && Flushed(c, f).display == c.display
  {
    LineBottomGrows(c.y, 0, 0);
  }

  /** With ascents and descents that are not negative, a flush never moves the cursor up. */
  lemma FlushMovesDown(c: Cursor, f: Frame)
    requires forall a, s :: f.env.m.ascent(a, s) >= 0 && f.env.m.descent(a, s) >= 0
    ensures Flushed(c, f).y >= c.y
  {
    var maxA := MaxOrZero(Ascents(f.env.m, c.line));
    var maxD := MaxOrZero(Descents(f.env.m, c.line));
    if c.line != [] {
      assert Ascents(f.env.m, c.line)[0] >= 0 && Descents(f.env.m, c.line)[0] >= 0;
    }
    LineBottomGrows(c.y, maxA, maxD);
  }

  /** Where a word goes up to: `sup` raises it by half its height. */
  function WordTop(c: Cursor, m: Measure, font: FontKey, word: string): int
  {
    if c.sup then c.y - Trunc(m.height(font, word), 2) else c.y
  }

  // ------------------------------------------------------------------- word

  /**
   * `word(word, space, font, color)` with the wrap test against `wrapAt`:
   * a blank word is dropped; a word that would end past `wrapAt` flushes the
   * line first; then the trimmed word joins the line at `cursorX` and the
   * cursor moves past it and one space.
   */
  function WordWithin(c: Cursor, wrapAt: int, word: string, space: int, font: FontKey, color: Color, f: Frame): Cursor
  {
    if IsBlank(word) then c
    else
      var w := f.env.m.width(font, word);
      var d := if c.x + w > wrapAt then Flushed(c, f) else c;
      Placing(d, Word(d.x, WordTop(d, f.env.m, font, word), Trim(word), font, color), w + space)
  }

  /** The word joins the line and the cursor moves `advance` to the right. */
  function Placing(d: Cursor, w: Word, advance: int): Cursor
  {
    Cursor(d.x + advance, d.y, d.width, d.line + [w], d.center, d.sup, d.abbr, d.pre, d.display)
  }

  /** `word` as written: the wrap test reads `width`, which every `flush` has set to the last line's length. */
  function WordAsWritten(c: Cursor, word: string, space: int, font: FontKey, color: Color, f: Frame): Cursor
  {
    WordWithin(c, c.width, word, space, font, color, f)
  }

  /** Until the first flush the two wrap tests agree: `width` is still the width the parent gave. */
  lemma AsWrittenAgreesOnFirstLine(c: Cursor, word: string, space: int, font: FontKey, color: Color, f: Frame)
    requires c.width == f.limit
    ensures WordAsWritten(c, word, space, font, color, f) == WordStep(c, word, space, font, color, f)
  {
  }

  /** `word` wrapping at the box's own width, the width the parent gave it. */
  function WordStep(c: Cursor, word: string, space: int, font: FontKey, color: Color, f: Frame): Cursor
  {
    WordWithin(c, f.limit, word, space, font, color, f)
  }

  /** A word that fits stays on the current line, after the words already there. */
  lemma WordFits(c: Cursor, word: string, space: int, font: FontKey, color: Color, f: Frame)
    requires !IsBlank(word) && c.x + f.env.m.width(font, word) <= f.limit
    ensures WordStep(c, word, space, font, color, f).line == c.line + [Word(c.x, WordTop(c, f.env.m, font, word), Trim(word), font, color)]
    ensures WordStep(c, word, space, font, color, f).x == c.x + f.env.m.width(font, word) + space
    ensures WordStep(c, word, space, font, color, f).display == c.display
  {
  }

  /** A word that does not fit ends the line: the line is drawn and the word starts the next one at the left edge. */
  lemma WordWraps(c: Cursor, word: string, space: int, font: FontKey, color: Color, f: Frame)
    requires !IsBlank(word) && c.x + f.env.m.width(font, word) > f.limit
    ensures var r := WordStep(c, word, space, font, color, f);
      && r.line == [Word(0, WordTop(Flushed(c, f), f.env.m, font, word), Trim(word), font, color)]
      && r.display == Flushed(c, f).display
      && r.x == f.env.m.width(font, word) + space
  {
  }

  /** Two words that fit side by side on an empty line share it. */
  lemma {:induction false} TwoWordsShareALine(c: Cursor, a: string, b: string, space: int, font: FontKey, color: Color, f: Frame)
    requires c.x == 0 && c.line == [] && !IsBlank(a) && !IsBlank(b)
    requires f.env.m.width(font, a) + space + f.env.m.width(font, b) <= f.limit && f.env.m.width(font, a) <= f.limit
    ensures |WordStep(WordStep(c, a, space, font, color, f), b, space, font, color, f).line| == 2
  {
    WordFits(c, a, space, font, color, f);
    WordFits(WordStep(c, a, space, font, color, f), b, space, font, color, f);
  }

  /** Words ten units wide per character, spaces ten units, on a line 100 wide. */
  function TenPerChar(): Env
  {
    Env(Measure((k: FontKey, s: string) => 10 * |s|, (k: FontKey, s: string) => 0, (k: FontKey, s: string) => 0,
                (k: FontKey, s: string) => 0, (k: FontKey, s: string) => 0),
        (st: Style) => FontKey(SansSerif, 12, Plain, Plain))
  }

  /** A flush under `TenPerChar`, whose words have no height, leaves `cursorY` where it was. */
  lemma FlatFlush(c: Cursor, f: Frame)
    requires f.env == TenPerChar()
    ensures var d := Flushed(c, f); d.x == 0 && d.y == c.y && d.line == [] && d.width == c.x
  {
    var maxA := MaxOrZero(Ascents(f.env.m, c.line));
    var maxD := MaxOrZero(Descents(f.env.m, c.line));
    if c.line != [] {
      assert Ascents(f.env.m, c.line)[0] == 0;
      assert Descents(f.env.m, c.line)[0] == 0;
    }
    assert maxA == 0 && maxD == 0;
  }

  /** A lower-case word is not blank and is its own trimmed form. */
  lemma PlainWord(w: string)
    requires Letters(w)
    ensures !IsBlank(w) && Trim(w) == w
  {
    assert !IsWhitespace(w[0]);
    assert !IsWhitespace(w[|w| - 1]);
    TrimOfTrimmed(w);
  }

  /** `WordWithin` of a word that is not blank, spelled out for a caller that knows whether it wraps. */
  lemma WordPlaced(c: Cursor, wrapAt: int, word: string, space: int, font: FontKey, color: Color, f: Frame, d: Cursor)
    requires !IsBlank(word)
    requires d == if c.x + f.env.m.width(font, word) > wrapAt then Flushed(c, f) else c
    ensures WordWithin(c, wrapAt, word, space, font, color, f)
         == Placing(d, Word(d.x, WordTop(d, f.env.m, font, word), Trim(word), font, color), f.env.m.width(font, word) + space)
  {
  }

  /** Under `TenPerChar`, a word that fits joins the line. */
  lemma FlatFit(c: Cursor, wrapAt: int, word: string, space: int, font: FontKey, color: Color, f: Frame)
    requires f.env == TenPerChar() && !IsBlank(word) && !c.sup && c.x + 10 * |word| <= wrapAt
    ensures var r := WordWithin(c, wrapAt, word, space, font, color, f);
      && r.x == c.x + 10 * |word| + space && r.y == c.y && r.width == c.width && !r.sup
      && r.line == c.line + [Word(c.x, c.y, Trim(word), font, color)]
  {
    WordPlaced(c, wrapAt, word, space, font, color, f, c);
  }

  /** Under `TenPerChar`, a word that does not fit starts a new line at the same height. */
  lemma FlatWrap(c: Cursor, wrapAt: int, word: string, space: int, font: FontKey, color: Color, f: Frame)
    requires f.env == TenPerChar() && !IsBlank(word) && !c.sup && c.x + 10 * |word| > wrapAt
    ensures var r := WordWithin(c, wrapAt, word, space, font, color, f);
      && r.x == 10 * |word| + space && r.y == c.y && r.width == c.x && !r.sup
      && r.line == [Word(0, c.y, Trim(word), font, color)]
  {
    FlatFlush(c, f);
    WordPlaced(c, wrapAt, word, space, font, color, f, Flushed(c, f));
  }

  /** The font every word of the example is set in, and a box 100 wide at the origin. */
  const TenFont := FontKey(SansSerif, 12, Plain, Plain)
  const TenFrame := Frame(TenPerChar(), 0, 0, 100)

  /** Lower-case letters only, at least one. */
  predicate Letters(w: string)
  {
    |w| > 0 && forall i :: 0 <= i < |w| ==> 'a' <= w[i] <= 'z'
  }

  /**
   * As written, once a line of 70 has wrapped, the next line wraps at 70:
   * with words of 6, 4 and 3 letters (say `aaaaaa`, `bbbb`, `ccc`), the
   * last two (40 + 10 + 30) would fit in the box's 100 but are put on two
   * lines.
   */
  lemma {:induction false} NarrowedLineAsWritten(a: string, b: string, cc: string, c1: Cursor, c2: Cursor, c3: Cursor)
    requires Letters(a) && Letters(b) && Letters(cc) && |a| == 6 && |b| == 4 && |cc| == 3
    requires c1 == WordAsWritten(Start(100), a, 10, TenFont, Black, TenFrame)
    requires c2 == WordAsWritten(c1, b, 10, TenFont, Black, TenFrame)
    requires c3 == WordAsWritten(c2, cc, 10, TenFont, Black, TenFrame)
    ensures c2.width == 70 && c2.line == [Word(0, 0, b, TenFont, Black)]
    ensures |c3.line| == 1 && c3.line[0].text == cc
  {
    FirstTwoWords(a, b, c1, c2);
    PlainWord(cc);
    FlatWrap(c2, 70, cc, 10, TenFont, Black, TenFrame);
  }

  /** The first line takes `aaaaaa`, and `bbbb` wraps onto a line as wide as the first. */
  lemma FirstTwoWords(a: string, b: string, c1: Cursor, c2: Cursor)
    requires Letters(a) && Letters(b) && |a| == 6 && |b| == 4
    requires c1 == WordAsWritten(Start(100), a, 10, TenFont, Black, TenFrame)
    requires c2 == WordAsWritten(c1, b, 10, TenFont, Black, TenFrame)
    ensures c2.width == 70 && c2.x == 50 && !c2.sup && c2.line == [Word(0, 0, b, TenFont, Black)]
  {
    FirstWord(a, c1);
    PlainWord(b);
    FlatWrap(c1, 100, b, 10, TenFont, Black, TenFrame);
  }

  /** `aaaaaa` and a space take 70 of the first line. */
  lemma FirstWord(a: string, c1: Cursor)
    requires Letters(a) && |a| == 6
    requires c1 == WordAsWritten(Start(100), a, 10, TenFont, Black, TenFrame)
    ensures c1.width == 100 && c1.x == 70 && c1.y == 0 && !c1.sup
  {
    PlainWord(a);
    FlatFit(Start(100), 100, a, 10, TenFont, Black, TenFrame);
  }

  // -------------------------------------------------------------- text, tags

  /** `text(node)` split into words: each word in turn, upper-cased inside `abbr`. */
  function Words(c: Cursor, ws: seq<string>, space: int, font: FontKey, color: Color, f: Frame): Cursor
  {
    if ws == [] then c
    else
      var d := Words(c, ws[..|ws| - 1], space, font, color, f);
      WordAsWritten(d, if d.abbr then Upper(ws[|ws| - 1]) else ws[|ws| - 1], space, font, color, f)
  }

  /** `node.style["color"]?.let { getColor(it) } ?: Color.BLACK` */
  function TextColor(st: Style): (r: Outcome<Color>)
    ensures "color" !in st ==> r == Ok(Black)
  {
    if "color" in st then GetColorAsWritten(st["color"]) else Ok(Black)
  }

  /**
   * `text(node)`: the font and colour come from the node's style; inside
   * `pre` the whole text is one word, otherwise it is split on spaces.
   * An unreadable colour throws before anything is placed.
   */
  function TextStep(c: Cursor, text: string, st: Style, f: Frame): Outcome<Cursor>
  {
    var font := f.env.fontOf(st);
    var space := f.env.m.width(font, " ");
    var color :- TextColor(st);
    if c.pre then Ok(WordAsWritten(c, text, space, font, color, f))
    else Ok(Words(c, SplitOn(text, {' '}), space, font, color, f))
  }

  /** `TextStep` once the colour is known to be readable. */
  lemma TextStepOk(c: Cursor, text: string, st: Style, f: Frame, color: Color)
    requires TextColor(st) == Ok(color)
    ensures var font := f.env.fontOf(st);
      var space := f.env.m.width(font, " ");
      TextStep(c, text, st, f) == Ok(if c.pre then WordAsWritten(c, text, space, font, color, f)
                                     else Words(c, SplitOn(text, {' '}), space, font, color, f))
  {
  }

  /** The flags and the tag flow never reach the display list: `text` with no words leaves the cursor. */
  lemma {:induction false} NoWordsNoChange(c: Cursor, ws: seq<string>, space: int, font: FontKey, color: Color, f: Frame)
    requires forall i :: 0 <= i < |ws| ==> IsBlank(ws[i])
    ensures Words(c, ws, space, font, color, f) == c
  {
    if ws != [] {
      NoWordsNoChange(c, ws[..|ws| - 1], space, font, color, f);
      var last := ws[|ws| - 1];
      assert IsBlank(Upper(last)) by {
        forall i | 0 <= i < |last| ensures IsWhitespace(Upper(last)[i]) {
          assert IsWhitespace(last[i]);
        }
      }
    }
  }

  /** `openTag(tag)`: `br` ends the line, the other tags set a flag or indent. */
  function Opened(c: Cursor, tag: string, f: Frame): Cursor
  {
    if tag == "br" then Flushed(c, f) else Flagged(c, tag)
  }

  /** The branches of `openTag` that only set a flag, or indent a list item by 15. */
  function Flagged(c: Cursor, tag: string): Cursor
  {
    match tag
    case "h1" => c.(center := true)
    case "sup" => c.(sup := true)
    case "abbr" => c.(abbr := true)
    case "pre" => c.(pre := true)
    case "li" => c.(x := c.x + LiIndent)
    case _ => c
  }

  /** `closeTag(tag)`: `p` and `h1` end the line first, the other tags clear their flag. */
  function Closed(c: Cursor, tag: string, f: Frame): Cursor
  {
    if tag == "p" || tag == "h1" then BlockClosed(Flushed(c, f), tag) else Unflagged(c, tag)
  }

  /** After the flush: `p` leaves a gap of `VStep`, `h1` stops centring. */
  function BlockClosed(d: Cursor, tag: string): Cursor
  {
    if tag == "p" then d.(y := d.y + VStep) else d.(center := false)
  }

  /** The branches of `closeTag` that only clear a flag. */
  function Unflagged(c: Cursor, tag: string): Cursor
  {
    match tag
    case "sup" => c.(sup := false)
    case "abbr" => c.(abbr := false)
    case "pre" => c.(pre := false)
    case _ => c
  }

  /** Closing `p` ends the line and leaves a gap of 50 below it; an empty line adds only the gap. */
  lemma ParagraphGap(c: Cursor, f: Frame)
    ensures Closed(c, "p", f).y == Flushed(c, f).y + VStep
    ensures Closed(c, "p", f).line == [] && Closed(c, "p", f).x == 0
    ensures c.line == [] ==> Closed(c, "p", f).y == c.y + VStep
  {
  }

  /** An element with no special meaning leaves the cursor alone on both sides. */
  lemma OtherTagsNeutral(c: Cursor, tag: string, f: Frame)
    requires tag !in {"br", "h1", "sup", "abbr", "pre", "li", "p"}
    ensures Opened(c, tag, f) == c && Closed(c, tag, f) == c
  {
  }

  /** A balanced `sup`, `abbr` or `pre` leaves its flag as it found it, false. */
  lemma FlagsCleared(c: Cursor, f: Frame)
    ensures !Closed(Opened(c, "sup", f), "sup", f).sup
    ensures !Closed(Opened(c, "abbr", f), "abbr", f).abbr
    ensures !Closed(Opened(c, "pre", f), "pre", f).pre
    ensures Opened(c, "sup", f).sup && Opened(c, "abbr", f).abbr && Opened(c, "pre", f).pre
  {
  }

  // --------------------------------------------------------------- recurse

  /** `recurse(tree)`: text is placed; an element opens, its children follow in order, and it closes. */
  function Walk(c: Cursor, n: Node, f: Frame): Outcome<Cursor>
    decreases n, 1
  {
    match n
    case Text(text, st) => TextStep(c, text, st, f)
    case Element(tag, _, cs, _, _) =>
      var d :- WalkAll(Opened(c, tag, f), cs, f);
      Ok(Closed(d, tag, f))
  }

  /** `nodes.forEach { recurse(it) }` */
  function WalkAll(c: Cursor, ns: seq<Node>, f: Frame): Outcome<Cursor>
    decreases ns, 0
  {
    if ns == [] then Ok(c)
    else
      var d :- WalkAll(c, ns[..|ns| - 1], f);
      Walk(d, ns[|ns| - 1], f)
  }

  /** The display list only grows: what was drawn stays drawn, in order. */
  lemma {:induction false} DisplayGrows(c: Cursor, n: Node, f: Frame)
    ensures Walk(c, n, f).Ok? ==> c.display <= Walk(c, n, f).value.display
    decreases n, 1
  {
    match n
    case Text(text, st) =>
      TextGrows(c, text, st, f);
    case Element(tag, _, cs, _, _) =>
      var o := Opened(c, tag, f);
      TagsGrow(c, tag, f);
      DisplayGrowsAll(o, cs, f);
      if WalkAll(o, cs, f).Ok? {
        TagsGrow(WalkAll(o, cs, f).value, tag, f);
      }
  }

  /** Placing the words of a text keeps what was drawn. */
  lemma TextGrows(c: Cursor, text: string, st: Style, f: Frame)
    ensures TextStep(c, text, st, f).Ok? ==> c.display <= TextStep(c, text, st, f).value.display
  {
    var font := f.env.fontOf(st);
    var space := f.env.m.width(font, " ");
    if TextColor(st).Ok? {
      var color := TextColor(st).value;
      TextStepOk(c, text, st, f, color);
      if c.pre {
        WordGrows(c, c.width, text, space, font, color, f);
      } else {
        WordsGrow(c, SplitOn(text, {' '}), space, font, color, f);
      }
    }
  }

  /** Opening and closing a tag keep what was drawn. */
  lemma TagsGrow(c: Cursor, tag: string, f: Frame)
    ensures c.display <= Opened(c, tag, f).display
    ensures c.display <= Closed(c, tag, f).display
  {
    OpenedGrows(c, tag, f);
    ClosedGrows(c, tag, f);
  }

  lemma OpenedGrows(c: Cursor, tag: string, f: Frame)
    ensures c.display <= Opened(c, tag, f).display
  {
    if tag == "br" {
      FlushGrows(c, f);
    } else {
      assert Flagged(c, tag).display == c.display;
    }
  }

  lemma ClosedGrows(c: Cursor, tag: string, f: Frame)
    ensures c.display <= Closed(c, tag, f).display
  {
    if tag == "p" || tag == "h1" {
      FlushGrows(c, f);
      assert BlockClosed(Flushed(c, f), tag).display == Flushed(c, f).display;
    } else {
      assert Unflagged(c, tag).display == c.display;
    }
  }

  /** A flush draws after what was drawn. */
  lemma FlushGrows(c: Cursor, f: Frame)
    ensures c.display <= Flushed(c, f).display
  {
  }

  /** A word keeps what was drawn, whether or not it wraps. */
  lemma WordGrows(c: Cursor, wrapAt: int, word: string, space: int, font: FontKey, color: Color, f: Frame)
    ensures c.display <= WordWithin(c, wrapAt, word, space, font, color, f).display
  {
    FlushGrows(c, f);
  }

  lemma {:induction false} DisplayGrowsAll(c: Cursor, ns: seq<Node>, f: Frame)
    ensures WalkAll(c, ns, f).Ok? ==> c.display <= WalkAll(c, ns, f).value.display
    decreases ns, 0
  {
    if ns != [] {
      DisplayGrowsAll(c, ns[..|ns| - 1], f);
      if WalkAll(c, ns[..|ns| - 1], f).Ok? {
        DisplayGrows(WalkAll(c, ns[..|ns| - 1], f).value, ns[|ns| - 1], f);
      }
    }
  }

  lemma {:induction false} WordsGrow(c: Cursor, ws: seq<string>, space: int, font: FontKey, color: Color, f: Frame)
    ensures c.display <= Words(c, ws, space, font, color, f).display
  {
    if ws != [] {
      WordsGrow(c, ws[..|ws| - 1], space, font, color, f);
      var d := Words(c, ws[..|ws| - 1], space, font, color, f);
      WordGrows(d, d.width, if d.abbr then Upper(ws[|ws| - 1]) else ws[|ws| - 1], space, font, color, f);
    }
  }

  // ---------------------------------------------------------------- layout

  /** The result of `layout()`: the box and its display list. */
  datatype InlineBox = InlineBox(rect: Rect, display: seq<Drawable>)

  /**
   * Where the run goes: after another inline run it continues on the same
   * line, `x = prev.x + prev.width`, `y = prev.y`; otherwise it starts at
   * the parent's left edge, below the previous box or at the parent's top.
   */
  function Origin(parent: Rect, previous: Option<Rect>, previousInline: bool): (xy: (int, int))
    ensures previous.Some? && previousInline ==> xy == (previous.value.x + previous.value.width, previous.value.y)
    ensures !(previous.Some? && previousInline) ==> xy.0 == parent.x
    ensures previous.None? ==> xy == (parent.x, parent.y)
    ensures previous.Some? && !previousInline ==> xy.1 == previous.value.y + previous.value.height
  {
    if previous.Some? && previousInline then (previous.value.x + previous.value.width, previous.value.y)
    else (parent.x, if previous.Some? then previous.value.y + previous.value.height else parent.y)
  }

  /**
   * `layout()`: the nodes are walked from a fresh cursor on a line as wide
   * as the parent, the last line is flushed, and the box is as tall as
   * `cursorY` and as wide as the last line.
   */
  function LayoutInline(nodes: seq<Node>, parent: Rect, previous: Option<Rect>, previousInline: bool, env: Env): Outcome<InlineBox>
  {
    var xy := Origin(parent, previous, previousInline);
    var f := Frame(env, xy.0, xy.1, parent.width);
    var c :- WalkAll(Start(parent.width), nodes, f);
    Ok(LaidOut(c, f))
  }

  /** The last line flushed: the box is as wide as that line and as tall as the cursor went. */
  function LaidOut(c: Cursor, f: Frame): InlineBox
  {
    var d := Flushed(c, f);
    InlineBox(Rect(f.left, f.top, d.width, d.y), d.display)
  }

  /** `LayoutInline` in terms of the walk from a fresh cursor at the run's origin. */
  lemma LayoutInlineWalk(nodes: seq<Node>, parent: Rect, previous: Option<Rect>, previousInline: bool, env: Env, f: Frame)
    requires f == Frame(env, Origin(parent, previous, previousInline).0, Origin(parent, previous, previousInline).1, parent.width)
    ensures var w := WalkAll(Start(parent.width), nodes, f);
      LayoutInline(nodes, parent, previous, previousInline, env) == if w.Ok? then Ok(LaidOut(w.value, f)) else Fail(w.exc)
  {
  }

  /** The `sup` raise is kept on the line but `flush` draws from the baseline alone, so it never shows. */
  lemma SupRaiseNotDrawn(line: seq<Word>, tops: seq<int>, m: Measure, left: int, baseline: int)
    requires |tops| == |line|
    ensures Placed(seq(|line|, i requires 0 <= i < |line| => line[i].(top := tops[i])), m, left, baseline)
         == Placed(line, m, left, baseline)
  {
  }

  // ----------------------------------------------------------------- paint

  /**
   * `paintNode(node)`: the node's background over the whole box, a marker
   * square for `li`, then the entire display list. The marker's `height / 2`
   * is Kotlin's Int division, which truncates toward zero.
   */
  function PaintNode(n: Node, box: InlineBox): Outcome<seq<Drawable>>
  {
    var r := box.rect;
    var bg :- Background(n, r);
    var marker := if n.IsTag("li")
                  then [DrawRect(r.x, r.y - 4 + Trunc(r.height, 2), r.x + 8, r.y + 4 + Trunc(r.height, 2), Black)]
                  else [];
    Ok(bg + marker + box.display)
  }

  /** `nodes.flatMap { paintNode(it) }` */
  function PaintInline(nodes: seq<Node>, box: InlineBox): Outcome<seq<Drawable>>
  {
    if nodes == [] then Ok([])
    else
      var before :- PaintInline(nodes[..|nodes| - 1], box);
      var last :- PaintNode(nodes[|nodes| - 1], box);
      Ok(before + last)
  }

  /** Every node of the run repeats the whole display list: the run's text is drawn once per node. */
  lemma {:induction false} DisplayRepeated(nodes: seq<Node>, box: InlineBox)
    requires forall i :: 0 <= i < |nodes| ==> "background-color" !in nodes[i].style && !nodes[i].IsTag("li")
    ensures PaintInline(nodes, box) == Ok(Repeat(box.display, |nodes|))
  {
    if nodes != [] {
      DisplayRepeated(nodes[..|nodes| - 1], box);
      var last := nodes[|nodes| - 1];
      assert "background-color" !in last.style && !last.IsTag("li");
      assert PaintNode(last, box) == Ok([] + [] + box.display);
      assert [] + [] + box.display == box.display;
      assert PaintInline(nodes, box) == Ok(Repeat(box.display, |nodes| - 1) + box.display);
    }
  }

  /** `s` written `k` times over. */
  function Repeat<T>(s: seq<T>, k: nat): (r: seq<T>)
    ensures |r| == |s| * k
  {
    if k == 0 then [] else Repeat(s, k - 1) + s
  }

  // ------------------------------------------------------ the layout object

  /** An outcome with its value dropped. */
  function Done<T>(o: Outcome<T>): (r: Outcome<()>)
    ensures r.Ok? <==> o.Ok?
    ensures o.Fail? ==> r == Fail(o.exc)
  {
    if o.Ok? then Ok(()) else Fail(o.exc)
  }

  /** One more node: the walk so far, then that node. */
  lemma WalkAllSnoc(c: Cursor, ns: seq<Node>, i: nat, f: Frame)
    requires i < |ns|
    ensures WalkAll(c, ns[..i + 1], f) == (var d :- WalkAll(c, ns[..i], f); Walk(d, ns[i], f))
  {
    assert ns[..i + 1][..i] == ns[..i];
  }

  /** A node that throws ends the whole walk with its exception. */
  lemma {:induction false} WalkAllFails(c: Cursor, ns: seq<Node>, i: nat, f: Frame)
    requires i <= |ns| && WalkAll(c, ns[..i], f).Fail?
    ensures WalkAll(c, ns, f) == Fail(WalkAll(c, ns[..i], f).exc)
    decreases |ns| - i
  {
    if i < |ns| {
      WalkAllSnoc(c, ns, i, f);
      WalkAllFails(c, ns, i + 1, f);
    } else {
      assert ns[..i] == ns;
    }
  }

  /** A node whose painting throws ends `paint` with its exception. */
  lemma {:induction false} PaintFails(nodes: seq<Node>, i: nat, box: InlineBox)
    requires i <= |nodes| && PaintInline(nodes[..i], box).Fail?
    ensures PaintInline(nodes, box) == Fail(PaintInline(nodes[..i], box).exc)
    decreases |nodes| - i
  {
    if i < |nodes| {
      assert nodes[..i + 1][..i] == nodes[..i];
      PaintFails(nodes, i + 1, box);
    } else {
      assert nodes[..i] == nodes;
    }
  }

  /** The drawing loop of `flush()`: each word of the line, in order, on the baseline. */
  method DrawWords(words: seq<Word>, m: Measure, left: int, baseline: int) returns (drawn: seq<Drawable>)
    ensures drawn == Placed(words, m, left, baseline)
  {
    drawn := [];
    var i := 0;
    while i < |words|
      invariant 0 <= i <= |words|
      invariant drawn == Placed(words[..i], m, left, baseline)
    {
      var e := words[i];
      assert Placed(words[..i + 1], m, left, baseline) == Placed(words[..i], m, left, baseline) + [Drawn(e, m, left, baseline)];
      drawn := drawn + [DrawText(left + e.left, baseline - m.ascent(e.font, e.text), e.text, e.font, e.color)];
      i := i + 1;
    }
    assert words[..i] == words;
  }

  /** The body of `flush()` on the line's words: where the next line starts, and the words drawn on the baseline. */
  method FlushLine(words: seq<Word>, m: Measure, left: int, top: int, cursorY: int) returns (next: int, drawn: seq<Drawable>)
    ensures next == NextLineY(cursorY, words, m)
    ensures drawn == Placed(words, m, left, top + LineBaseline(cursorY, words, m))
  {
    var maxAscent := MaxOrZero(Ascents(m, words));
    drawn := DrawWords(words, m, left, top + Baseline(cursorY, maxAscent));
    next := LineBottom(cursorY, maxAscent, MaxOrZero(Descents(m, words)));
  }

  /** `class InlineLayout(nodes, parent, previous)` with the cursor, line and display list it updates. */
  class InlineLayout {
    const nodes: seq<Node>
    const parent: Rect
    const previous: Option<Rect>
    /** Whether `previous` is an `InlineLayout`. */
    const previousInline: bool
    const env: Env

    var cursorX: int
    var cursorY: int
    var line: seq<Word>
    var center: bool
    var sup: bool
    var abbr: bool
    var pre: bool
    var x: int
    var y: int
    var width: int
    var height: int
    var displayList: seq<Drawable>

    /** The fields the engine steps. */
    function State(): Cursor
      reads this
    {
      Cursor(cursorX, cursorY, width, line, center, sup, abbr, pre, displayList)
    }

    /** The origin and wrap width in force while the run is walked. */
    function Pen(): Frame
      reads this
    {
      Frame(env, x, y, parent.width)
    }

    /** The box as `layout()` leaves it. */
    function Box(): InlineBox
      reads this
    {
      InlineBox(Rect(x, y, width, height), displayList)
    }

    /** As constructed: nothing laid out, no flag set. */
    predicate Fresh()
      reads this
    {
      displayList == [] && line == [] && !center && !sup && !abbr && !pre
    }

    constructor(nodes: seq<Node>, parent: Rect, previous: Option<Rect>, previousInline: bool, env: Env)
      ensures this.nodes == nodes && this.parent == parent && this.previous == previous
      ensures this.previousInline == previousInline && this.env == env
      ensures Fresh() && cursorX == 0 && cursorY == 0 && x == 0 && y == 0 && width == 0 && height == 0
    {
      this.nodes := nodes;
      this.parent := parent;
      this.previous := previous;
      this.previousInline := previousInline;
      this.env := env;
      cursorX, cursorY, line := 0, 0, [];
      center, sup, abbr, pre := false, false, false, false;
      x, y, width, height := 0, 0, 0, 0;
      displayList := [];
    }

    /** `flush()` */
    method Flush()
      modifies this`cursorX, this`cursorY, this`width, this`line, this`displayList
      ensures State() == Flushed(old(State()), Pen())
    {
      ghost var c, pen := State(), Pen();
      var next, drawn := FlushLine(line, env.m, x, y, cursorY);
      assert Flushed(c, pen) == FlushedTo(c, next, drawn);
      cursorY, width, cursorX, displayList, line := next, cursorX, 0, displayList + drawn, [];
      assert State() == FlushedTo(c, next, drawn);
    }

    /** `word(word, space, font, color)`, wrapping at `width`, which the last `flush` set to that line's length. */
    method AddWord(word: string, space: int, font: FontKey, color: Color)
      modifies this
      ensures State() == WordAsWritten(old(State()), word, space, font, color, Pen())
      ensures x == old(x) && y == old(y) && height == old(height)
    {
      if IsBlank(word) {
        return;
      }
      ghost var before, pen := State(), Pen();
      var w := env.m.width(font, word);
      if cursorX + w > width {
        Flush();
      }
      ghost var d := State();
      Place(word, w + space, font, color);
      WordPlaced(before, before.width, word, space, font, color, pen, d);
    }

    /** The trimmed word joins the line at `cursorX`, raised inside `sup`, and the cursor moves on by `advance`. */
    method Place(word: string, advance: int, font: FontKey, color: Color)
      modifies this
      ensures State() == Placing(old(State()), Word(old(cursorX), WordTop(old(State()), env.m, font, word), Trim(word), font, color), advance)
      ensures x == old(x) && y == old(y) && height == old(height)
    {
      var top := if sup then cursorY - Trunc(env.m.height(font, word), 2) else cursorY;
      line, cursorX := line + [Word(cursorX, top, Trim(word), font, color)], cursorX + advance;
    }

    /** `text(node)`; an unreadable colour throws before anything changes. */
    method Text(text: string, st: Style) returns (r: Outcome<()>)
      modifies this
      ensures r == Done(TextStep(old(State()), text, st, old(Pen())))
      ensures r.Ok? ==> State() == TextStep(old(State()), text, st, old(Pen())).value
      ensures r.Fail? ==> State() == old(State())
      ensures x == old(x) && y == old(y) && height == old(height)
    {
      ghost var c0, pen := State(), Pen();
      var font := env.fontOf(st);
      var space := env.m.width(font, " ");
      var color := TextColor(st);
      if color.Fail? {
        return Fail(color.exc);
      }
      TextStepOk(c0, text, st, pen, color.value);
      if pre {
        AddWord(text, space, font, color.value);
      } else {
        AddWords(SplitOn(text, {' '}), space, font, color.value);
      }
      r := Ok(());
    }

    /** The words of a text in turn, upper-cased inside `abbr`. */
    method AddWords(words: seq<string>, space: int, font: FontKey, color: Color)
      modifies this
      ensures State() == Words(old(State()), words, space, font, color, Pen())
      ensures x == old(x) && y == old(y) && height == old(height)
    {
      var i := 0;
      while i < |words|
        invariant 0 <= i <= |words|
        invariant x == old(x) && y == old(y) && height == old(height)
        invariant State() == Words(old(State()), words[..i], space, font, color, Pen())
      {
        assert words[..i + 1][..i] == words[..i];
        AddWord(if abbr then Upper(words[i]) else words[i], space, font, color);
        i := i + 1;
      }
      assert words[..i] == words;
    }

    /** `openTag(tag)` */
    method OpenTag(tag: string)
      modifies this
      ensures State() == Opened(old(State()), tag, Pen())
      ensures x == old(x) && y == old(y) && height == old(height)
    {
      if tag == "br" {
        Flush();
      } else {
        SetFlag(tag);
      }
    }

    method SetFlag(tag: string)
      modifies this
      ensures State() == Flagged(old(State()), tag)
      ensures x == old(x) && y == old(y) && height == old(height)
    {
      if tag == "h1" {
        center := true;
      } else if tag == "sup" {
        sup := true;
      } else if tag == "abbr" {
        abbr := true;
      } else if tag == "pre" {
        pre := true;
      } else if tag == "li" {
        cursorX := cursorX + LiIndent;
      }
    }

    /** `closeTag(tag)` */
    method CloseTag(tag: string)
      modifies this
      ensures State() == Closed(old(State()), tag, Pen())
      ensures x == old(x) && y == old(y) && height == old(height)
    {
      if tag == "p" || tag == "h1" {
        Flush();
        CloseBlock(tag);
      } else {
        ClearFlag(tag);
      }
    }

    method CloseBlock(tag: string)
      modifies this
      ensures State() == BlockClosed(old(State()), tag)
      ensures x == old(x) && y == old(y) && height == old(height)
    {
      if tag == "p" {
        cursorY := cursorY + VStep;
      } else {
        center := false;
      }
    }

    method ClearFlag(tag: string)
      modifies this
      ensures State() == Unflagged(old(State()), tag)
      ensures x == old(x) && y == old(y) && height == old(height)
    {
      if tag == "sup" {
        sup := false;
      } else if tag == "abbr" {
        abbr := false;
      } else if tag == "pre" {
        pre := false;
      }
    }

    /** `recurse(tree)` */
    method Recurse(n: Node) returns (r: Outcome<()>)
      modifies this
      ensures r == Done(Walk(old(State()), n, old(Pen())))
      ensures r.Ok? ==> State() == Walk(old(State()), n, old(Pen())).value
      ensures x == old(x) && y == old(y) && height == old(height)
      decreases n, 1
    {
      match n
      case Text(text, st) =>
        r := Text(text, st);
      case Element(tag, _, cs, _, _) =>
        OpenTag(tag);
        r := RecurseAll(cs);
        if r.Ok? {
          CloseTag(tag);
        }
    }

    /** `children.forEach { recurse(it) }` */
    method RecurseAll(ns: seq<Node>) returns (r: Outcome<()>)
      modifies this
      ensures r == Done(WalkAll(old(State()), ns, old(Pen())))
      ensures r.Ok? ==> State() == WalkAll(old(State()), ns, old(Pen())).value
      ensures x == old(x) && y == old(y) && height == old(height)
      decreases ns, 0
    {
      ghost var start := State();
      var i := 0;
      while i < |ns|
        invariant 0 <= i <= |ns|
        invariant x == old(x) && y == old(y) && height == old(height)
        invariant WalkAll(start, ns[..i], Pen()) == Ok(State())
      {
        WalkAllSnoc(start, ns, i, Pen());
        var step := Recurse(ns[i]);
        if step.Fail? {
          WalkAllFails(start, ns, i + 1, Pen());
          return step;
        }
        i := i + 1;
      }
      assert ns[..i] == ns;
      r := Ok(());
    }

    /** `layout()` of a fresh run. */
    method Layout() returns (r: Outcome<()>)
      requires Fresh()
      modifies this
      ensures r == Done(LayoutInline(nodes, parent, previous, previousInline, env))
      ensures r.Ok? ==> Box() == LayoutInline(nodes, parent, previous, previousInline, env).value
    {
      var origin := Origin(parent, previous, previousInline);
      x, y := origin.0, origin.1;
      width, cursorX, cursorY, line := parent.width, 0, 0, [];
      LayoutInlineWalk(nodes, parent, previous, previousInline, env, Pen());
      r := RecurseAll(nodes);
      if r.Ok? {
        Finish();
      }
    }

    /** The end of `layout()`: the last line is flushed and the box takes its height from the cursor. */
    method Finish()
      modifies this
      ensures Box() == LaidOut(old(State()), old(Pen()))
    {
      Flush();
      height := cursorY;
    }

    /** `paint()`: `paintNode` for every node of the run, in order. */
    method Paint() returns (r: Outcome<seq<Drawable>>)
      ensures r == PaintInline(nodes, Box())
    {
      var cmds: seq<Drawable> := [];
      var i := 0;
      while i < |nodes|
        invariant 0 <= i <= |nodes|
        invariant PaintInline(nodes[..i], Box()) == Ok(cmds)
      {
        assert nodes[..i + 1][..i] == nodes[..i];
        var more := PaintNode(nodes[i], Box());
        if more.Fail? {
          PaintFails(nodes, i + 1, Box());
          return Fail(more.exc);
        }
        cmds := cmds + more.value;
        i := i + 1;
      }
      assert nodes[..i] == nodes;
      r := Ok(cmds);
    }
  }
}
