// The block engine of the newer layout tree (layout/BlockLayout.kt), the
// input boxes (layout/InputLayout.kt), and the document box with the two
// tree walks of layout/Layout.kt.
//
// A laid-out layout object is a value here: its geometry and the layouts it
// made, in order. `layout()` is a function from the node, the parent's
// geometry and the previous sibling's box; the loop that sorts a block's
// children into child layouts is a method proved against `Split`.

module BlockLayouts {
  import opened Common
  import opened LinkedMaps
  import opened Dom
  import opened Layouts
  import opened InlineLayouts

  // ------------------------------------------------------------ layoutMode

  datatype LayoutType = BlockType | InlineType

  /** `node.style["display"]` */
  function Display(n: Node): Option<string>
  {
    if "display" in n.style then Some(n.style["display"]) else None
  }

  /** `node.children.any { it.style["display"] == "block" }` */
  predicate HasBlockChild(n: Node)
  {
    exists i :: 0 <= i < |n.Children()| && Display(n.Children()[i]) == Some("block")
  }

  /** `layoutMode(node)`: text and `display: inline` flow; `display: block` or a block child stacks; the rest flows. */
  function ModeOf(n: Node): LayoutType
  {
    if n.Text? then InlineType
    else if Display(n) == Some("inline") then InlineType
    else if Display(n) == Some("block") || HasBlockChild(n) then BlockType
    else InlineType
  }

  // -------------------------------------------------------------- children

  /** The child layouts `layout()` creates, before they are laid out. */
  datatype Piece =
    | BlockPiece(node: Node)        // a `BlockLayout(child, this, previous)`
    | InputPiece(node: Node)        // an `InputLayout(child, this, previous)`
    | RunPiece(nodes: seq<Node>)    // an `InlineLayout(inline, this, previous)`

  /** `head`, `style` and `script` children get no layout at all. */
  predicate Skipped(c: Node)
  {
    c.Element? && c.tag in {"head", "style", "script"}
  }

  predicate IsInputTag(c: Node)
  {
    c.Element? && c.tag in {"input", "button"}
  }

  /** A child that joins the pending inline run. */
  predicate Flowing(c: Node)
  {
    !Skipped(c) && ModeOf(c) == InlineType && !IsInputTag(c)
  }

  /** `if (inline.isNotEmpty()) { children.add(InlineLayout(inline)) }` */
  function Close(run: seq<Node>): seq<Piece>
  {
    if run == [] then [] else [RunPiece(run)]
  }

  /**
   * The child loop of `layout()` from the pending run `run` on: a block or
   * an input closes the run and gets a layout of its own, a skipped child
   * is dropped, any other child joins the run, and the last run is closed
   * at the end.
   */
  function Split(cs: seq<Node>, run: seq<Node>): seq<Piece>
    decreases |cs|
  {
    if cs == [] then Close(run)
    else if Skipped(cs[0]) then Split(cs[1..], run)
    else if ModeOf(cs[0]) == BlockType then Close(run) + [BlockPiece(cs[0])] + Split(cs[1..], [])
    else if IsInputTag(cs[0]) then Close(run) + [InputPiece(cs[0])] + Split(cs[1..], [])
    else Split(cs[1..], run + [cs[0]])
  }

  /** `getLiMarker()`: an `li` starts its first run with an empty `li` element carrying its style. */
  function Marker(n: Node): seq<Node>
  {
    if n.IsTag("li") then [Element("li", [], [], n.style, false)] else []
  }

  /** The loop of `layout()` over `node.children`, with the `inline` buffer it fills and empties. */
  method Partition(cs: seq<Node>, marker: seq<Node>) returns (pieces: seq<Piece>)
    ensures pieces == Split(cs, marker)
  {
    pieces := [];
    var inline := marker;
    var i := 0;
    while i < |cs|
      invariant 0 <= i <= |cs|
      invariant pieces + Split(cs[i..], inline) == Split(cs, marker)
    {
      var child := cs[i];
      assert cs[i..][0] == child && cs[i..][1..] == cs[i + 1..];
      if Skipped(child) {
      } else if ModeOf(child) == BlockType {
        ghost var before := pieces;
        pieces := pieces + Close(inline) + [BlockPiece(child)];
        assert before + (Close(inline) + [BlockPiece(child)] + Split(cs[i + 1..], [])) == pieces + Split(cs[i + 1..], []);
        inline := [];
      } else if IsInputTag(child) {
        ghost var before := pieces;
        pieces := pieces + Close(inline) + [InputPiece(child)];
        assert before + (Close(inline) + [InputPiece(child)] + Split(cs[i + 1..], [])) == pieces + Split(cs[i + 1..], []);
        inline := [];
      } else {
        inline := inline + [child];
      }
      i := i + 1;
    }
    assert cs[i..] == [];
    pieces := pieces + Close(inline);
  }

  // ----------------------------------------------- what the pieces hold

  function PieceNodes(p: Piece): seq<Node>
  {
    match p
    case BlockPiece(n) => [n]
    case InputPiece(n) => [n]
    case RunPiece(ns) => ns
  }

  /** The nodes of the pieces, in order. */
  function NodesOf(ps: seq<Piece>): seq<Node>
  {
    if ps == [] then [] else PieceNodes(ps[0]) + NodesOf(ps[1..])
  }

  /** The children that are not skipped, in order. */
  function Kept(cs: seq<Node>): seq<Node>
  {
    if cs == [] then [] else (if Skipped(cs[0]) then [] else [cs[0]]) + Kept(cs[1..])
  }

  lemma {:induction false} NodesOfAppend(a: seq<Piece>, b: seq<Piece>)
    ensures NodesOf(a + b) == NodesOf(a) + NodesOf(b)
  {
    if a != [] {
      assert (a + b)[0] == a[0] && (a + b)[1..] == a[1..] + b;
      NodesOfAppend(a[1..], b);
    } else {
      assert a + b == b;
    }
  }

  /** Every child that is not skipped lands in exactly one child layout, in source order, after the marker. */
  lemma {:induction false} SplitKeepsOrder(cs: seq<Node>, run: seq<Node>)
    ensures NodesOf(Split(cs, run)) == run + Kept(cs)
    decreases |cs|
  {
    if cs == [] {
      assert NodesOf(Close(run)) == run;
    } else {
      var c, rest := cs[0], cs[1..];
      if Skipped(c) {
        SplitKeepsOrder(rest, run);
        assert Kept(cs) == [] + Kept(rest) == Kept(rest);
      } else if ModeOf(c) == BlockType || IsInputTag(c) {
        var p := if ModeOf(c) == BlockType then BlockPiece(c) else InputPiece(c);
        assert Split(cs, run) == Close(run) + [p] + Split(rest, []);
        SplitKeepsOrder(rest, []);
        ClosedThenOne(run, p, c, Split(rest, []));
        assert Kept(cs) == [c] + Kept(rest);
        assert run + [c] + ([] + Kept(rest)) == run + Kept(cs);
      } else {
        assert Split(cs, run) == Split(rest, run + [c]);
        SplitKeepsOrder(rest, run + [c]);
        assert Kept(cs) == [c] + Kept(rest);
        assert run + [c] + Kept(rest) == run + Kept(cs);
      }
    }
  }

  lemma ClosedThenOne(run: seq<Node>, p: Piece, c: Node, t: seq<Piece>)
    requires PieceNodes(p) == [c]
    ensures NodesOf(Close(run) + [p] + t) == run + [c] + NodesOf(t)
  {
    NodesOfAppend(Close(run) + [p], t);
    NodesOfAppend(Close(run), [p]);
    assert NodesOf(Close(run)) == run;
    assert NodesOf([p]) == [c];
  }

  /** Runs are never empty and never follow one another: each maximal run of flowing children is one layout. */
  predicate Maximal(ps: seq<Piece>)
  {
    (forall i :: 0 <= i < |ps| && ps[i].RunPiece? ==> ps[i].nodes != []) &&
    (forall i :: 0 < i < |ps| && ps[i].RunPiece? ==> !ps[i - 1].RunPiece?)
  }

  /** What each piece holds: a block child, an input child, or the marker and flowing children. */
  predicate Classified(ps: seq<Piece>, cs: seq<Node>, run: seq<Node>)
  {
    forall i :: 0 <= i < |ps| ==>
      match ps[i]
      case BlockPiece(n) => n in cs && !Skipped(n) && ModeOf(n) == BlockType
      case InputPiece(n) => n in cs && !Skipped(n) && ModeOf(n) == InlineType && IsInputTag(n)
      case RunPiece(ns) => forall k :: 0 <= k < |ns| ==> ns[k] in run || (ns[k] in cs && Flowing(ns[k]))
  }

  lemma MaximalJoin(a: seq<Piece>, p: Piece, b: seq<Piece>)
    requires |a| <= 1 && Maximal(a) && Maximal(b) && !p.RunPiece?
    ensures Maximal(a + [p] + b)
  {
    var s := a + [p] + b;
    forall i | 0 < i < |s| && s[i].RunPiece?
      ensures !s[i - 1].RunPiece?
    {
      if i > |a| + 1 { assert s[i] == b[i - |a| - 1] && s[i - 1] == b[i - |a| - 2]; }
    }
    forall i | 0 <= i < |s| && s[i].RunPiece?
      ensures s[i].nodes != []
    {
      if i < |a| { assert s[i] == a[i]; } else if i > |a| { assert s[i] == b[i - |a| - 1]; }
    }
  }

  /** The pieces are maximal runs between block and input layouts. */
  lemma {:induction false} SplitMaximal(cs: seq<Node>, run: seq<Node>)
    ensures Maximal(Split(cs, run))
    decreases |cs|
  {
    if cs != [] {
      var c, rest := cs[0], cs[1..];
      if Skipped(c) {
        SplitMaximal(rest, run);
      } else if ModeOf(c) == BlockType || IsInputTag(c) {
        var p := if ModeOf(c) == BlockType then BlockPiece(c) else InputPiece(c);
        assert Split(cs, run) == Close(run) + [p] + Split(rest, []);
        SplitMaximal(rest, []);
        MaximalJoin(Close(run), p, Split(rest, []));
      } else {
        SplitMaximal(rest, run + [c]);
      }
    }
  }

  lemma ClassifiedJoin(a: seq<Piece>, p: Piece, b: seq<Piece>, cs: seq<Node>, run: seq<Node>)
    requires |cs| > 0 && a == Close(run) && Classified(b, cs[1..], [])
    requires p == BlockPiece(cs[0]) || p == InputPiece(cs[0])
    requires p.BlockPiece? ==> !Skipped(cs[0]) && ModeOf(cs[0]) == BlockType
    requires p.InputPiece? ==> !Skipped(cs[0]) && ModeOf(cs[0]) == InlineType && IsInputTag(cs[0])
    ensures Classified(a + [p] + b, cs, run)
  {
    var s := a + [p] + b;
    forall i | 0 <= i < |s|
      ensures match s[i]
        case BlockPiece(n) => n in cs && !Skipped(n) && ModeOf(n) == BlockType
        case InputPiece(n) => n in cs && !Skipped(n) && ModeOf(n) == InlineType && IsInputTag(n)
        case RunPiece(ns) => forall k :: 0 <= k < |ns| ==> ns[k] in run || (ns[k] in cs && Flowing(ns[k]))
    {
      if i < |a| {
        assert s[i] == RunPiece(run);
      } else if i == |a| {
        assert s[i] == p;
      } else {
        var q := b[i - |a| - 1];
        assert s[i] == q;
        match q
        case BlockPiece(n) => assert n in cs[1..];
        case InputPiece(n) => assert n in cs[1..];
        case RunPiece(ns) =>
          forall k | 0 <= k < |ns| ensures ns[k] in cs && Flowing(ns[k]) {
            assert ns[k] in cs[1..];
          }
      }
    }
  }

  /** Blocks are the children classified BLOCK, inputs the `input`/`button` children that are not, and runs hold the rest. */
  lemma {:induction false} SplitClassifies(cs: seq<Node>, run: seq<Node>)
    ensures Classified(Split(cs, run), cs, run)
    decreases |cs|
  {
    if cs == [] {
    } else {
      var c, rest := cs[0], cs[1..];
      if Skipped(c) {
        SplitClassifies(rest, run);
        Widen(Split(rest, run), rest, run, cs, run);
      } else if ModeOf(c) == BlockType || IsInputTag(c) {
        var p := if ModeOf(c) == BlockType then BlockPiece(c) else InputPiece(c);
        assert Split(cs, run) == Close(run) + [p] + Split(rest, []);
        SplitClassifies(rest, []);
        ClassifiedJoin(Close(run), p, Split(rest, []), cs, run);
      } else {
        SplitClassifies(rest, run + [c]);
        Widen(Split(rest, run + [c]), rest, run + [c], cs, run);
      }
    }
  }

  /** A classification over the tail of the children holds over all of them once the joined child is counted. */
  lemma Widen(ps: seq<Piece>, rest: seq<Node>, run': seq<Node>, cs: seq<Node>, run: seq<Node>)
    requires |cs| > 0 && rest == cs[1..] && Classified(ps, rest, run')
    requires run' == run || (run' == run + [cs[0]] && Flowing(cs[0]))
    ensures Classified(ps, cs, run)
  {
    forall i | 0 <= i < |ps|
      ensures match ps[i]
        case BlockPiece(n) => n in cs && !Skipped(n) && ModeOf(n) == BlockType
        case InputPiece(n) => n in cs && !Skipped(n) && ModeOf(n) == InlineType && IsInputTag(n)
        case RunPiece(ns) => forall k :: 0 <= k < |ns| ==> ns[k] in run || (ns[k] in cs && Flowing(ns[k]))
    {
      match ps[i]
      case BlockPiece(n) => assert n in rest;
      case InputPiece(n) => assert n in rest;
      case RunPiece(ns) =>
        forall k | 0 <= k < |ns| ensures ns[k] in run || (ns[k] in cs && Flowing(ns[k])) {
          if ns[k] in run' && ns[k] !in run { assert ns[k] == cs[0]; }
          else if ns[k] !in run' { assert ns[k] in rest; }
        }
    }
  }

  /** The BLOCK test comes first: an `input` or `button` classified BLOCK gets a block layout, not an input layout. */
  lemma InputClassifiedFirst(c: Node, rest: seq<Node>, run: seq<Node>)
    requires c.Element? && c.tag in {"input", "button"} && ModeOf(c) == BlockType
    ensures Split([c] + rest, run) == Close(run) + [BlockPiece(c)] + Split(rest, [])
  {
    assert ([c] + rest)[0] == c && ([c] + rest)[1..] == rest;
  }

  /** Text always flows: a text child joins the pending run. */
  lemma TextJoinsRun(t: Node, rest: seq<Node>, run: seq<Node>)
    requires t.Text?
    ensures Split([t] + rest, run) == Split(rest, run + [t])
  {
    assert ([t] + rest)[0] == t && ([t] + rest)[1..] == rest;
  }

  // ------------------------------------------------------------ layout

  /** A laid-out layout object: its kind, its box and the layouts it made. */
  datatype Laid =
    | BlockBox(node: Node, rect: Rect, children: seq<Laid>)
    | RunBox(nodes: seq<Node>, box: InlineBox)
    | InputBox(node: Node, rect: Rect, font: FontKey)
    | DocumentBox(rect: Rect, children: seq<Laid>)
  {
    /** `x`, `y`, `width` and `height`. */
    function Bounds(): Rect
    {
      if RunBox? then box.rect else rect
    }
  }

  /** `previous?.let { it.y + it.height } ?: parent.y` */
  function Below(parent: Rect, previous: Option<Rect>): int
  {
    if previous.Some? then previous.value.y + previous.value.height else parent.y
  }

  function BoundsOf(previous: Option<Laid>): Option<Rect>
  {
    if previous.Some? then Some(previous.value.Bounds()) else None
  }

  /** `children.sumOf { it.height }` */
  function Heights(ls: seq<Laid>): int
  {
    if ls == [] then 0 else ls[0].Bounds().height + Heights(ls[1..])
  }

  /** `nav id=toc` */
  predicate IsToc(n: Node)
  {
    n.IsTag("nav") && n.Attribute("id") == Some("toc")
  }

  /** The `div class=toc` that `getToc()` builds, holding the heading text, both with the node's style. */
  function TocNode(nav: Node): Node
  {
    Element("div", [("class", "toc")], [Text("Table of Contents", nav.style)], nav.style, false)
  }

  /**
   * `InputLayout.layout()`: 200 wide and one line of `"1"` tall; after a
   * previous box it sits a space's width to its right on the same top,
   * otherwise at the parent's origin.
   */
  function LayoutInput(n: Node, parent: Rect, previous: Option<Rect>, env: Env): Laid
  {
    var font := env.fontOf(n.style);
    var x := if previous.Some? then previous.value.x + previous.value.width + env.m.width(font, " ") else parent.x;
    var y := if previous.Some? then previous.value.y else parent.y;
    InputBox(n, Rect(x, y, 200, env.m.lineHeight(font, "1")), font)
  }

  /**
   * `BlockLayout.layout()`: as wide as the parent, at its left edge, below
   * the previous box; the table of contents first, then the pieces of the
   * children in order, each after the one before; as tall as its children
   * together. A child's exception ends the layout.
   */
  function LayoutBlock(n: Node, parent: Rect, previous: Option<Rect>, env: Env): Outcome<Laid>
    decreases n, 1
  {
    var frame := Rect(parent.x, Below(parent, previous), parent.width, 0);
    var toc :- if IsToc(n) then LayoutToc(n, frame, env) else Ok([]);
    var ps := Split(n.Children(), Marker(n));
    SplitClassifies(n.Children(), Marker(n));
    var kids :- LayoutPieces(ps, frame, if toc == [] then None else Some(toc[0]), env, n);
    Ok(BlockBox(n, frame.(height := Heights(toc + kids)), toc + kids))
  }

  /** `getToc()` laid out: a block at the parent's origin whose one child is the run of its heading text. */
  function LayoutToc(nav: Node, frame: Rect, env: Env): Outcome<seq<Laid>>
  {
    var div := TocNode(nav);
    var run :- LayoutInline(div.children, frame, None, false, env);
    Ok([BlockBox(div, Rect(frame.x, frame.y, frame.width, run.rect.height), [RunBox(div.children, run)])])
  }


  /** `for (child in children) child.layout()` over the pieces, each with the box before it as `previous`. */
  function LayoutPieces(ps: seq<Piece>, frame: Rect, previous: Option<Laid>, env: Env, owner: Node): Outcome<seq<Laid>>
    requires Classified(ps, owner.Children(), Marker(owner))
    decreases owner, 0, |ps|
  {
    if ps == [] then Ok([])
    else
      var first :- LayoutPiece(ps[0], frame, previous, env, owner);
      var rest :- LayoutPieces(ps[1..], frame, Some(first), env, owner);
      Ok([first] + rest)
  }

  /** One child layout: a block, an input, or an inline run that continues a previous run's line. */
  function LayoutPiece(p: Piece, frame: Rect, previous: Option<Laid>, env: Env, owner: Node): Outcome<Laid>
    requires p.BlockPiece? ==> p.node in owner.Children()
    decreases owner, 0, 0
  {
    match p
    case BlockPiece(c) =>
      assert owner.Element?;
      LayoutBlock(c, frame, BoundsOf(previous), env)
    case InputPiece(c) => Ok(LayoutInput(c, frame, BoundsOf(previous), env))
    case RunPiece(ns) =>
      var box :- LayoutInline(ns, frame, BoundsOf(previous), previous.Some? && previous.value.RunBox?, env);
      Ok(RunBox(ns, box))
  }

  // ----------------------------------------------------------- geometry

  /** `layout()` of a run: its box starts at the run's origin. */
  lemma RunAtOrigin(ns: seq<Node>, parent: Rect, previous: Option<Rect>, previousInline: bool, env: Env)
    ensures var r := LayoutInline(ns, parent, previous, previousInline, env);
      r.Ok? ==> r.value.rect.x == Origin(parent, previous, previousInline).0 && r.value.rect.y == Origin(parent, previous, previousInline).1
  {
  }

  /** A block is as wide as its parent, at its left edge, below the previous box, and as tall as its children together. */
  lemma BlockGeometry(n: Node, parent: Rect, previous: Option<Rect>, env: Env)
    ensures var r := LayoutBlock(n, parent, previous, env);
      r.Ok? ==> (r.value.BlockBox? && r.value.node == n &&
                 r.value.rect == Rect(parent.x, Below(parent, previous), parent.width, Heights(r.value.children)))
  {
  }

  /** Where a child layout sits given the box laid out before it. */
  predicate Stacked(l: Laid, frame: Rect, previous: Option<Laid>, env: Env)
  {
    match l
    case BlockBox(_, r, _) => r.x == frame.x && r.width == frame.width && r.y == Below(frame, BoundsOf(previous))
    case RunBox(_, b) => b.rect.x == frame.x && b.rect.y == Below(frame, BoundsOf(previous))
    case InputBox(n, r, _) => r == LayoutInput(n, frame, BoundsOf(previous), env).rect
    case DocumentBox(_, _) => false
  }

  /** Each child sits where `Stacked` puts it after the child before it; the first after `first`. */
  predicate Column(ls: seq<Laid>, frame: Rect, first: Option<Laid>, env: Env)
  {
    (ls != [] ==> Stacked(ls[0], frame, first, env)) &&
    forall i :: 0 < i < |ls| ==> Stacked(ls[i], frame, Some(ls[i - 1]), env)
  }

  /** A piece becomes a layout of its own kind. */
  predicate SameKind(p: Piece, l: Laid)
  {
    (p.BlockPiece? <==> l.BlockBox?) && (p.InputPiece? <==> l.InputBox?) && (p.RunPiece? <==> l.RunBox?)
  }

  /** One child layout sits where `Stacked` says, provided a run never follows a run. */
  lemma PieceStacks(p: Piece, frame: Rect, previous: Option<Laid>, env: Env, owner: Node)
    requires p.BlockPiece? ==> p.node in owner.Children()
    requires p.RunPiece? ==> previous.None? || !previous.value.RunBox?
    ensures var r := LayoutPiece(p, frame, previous, env, owner);
      r.Ok? ==> SameKind(p, r.value) && Stacked(r.value, frame, previous, env)
  {
    match p
    case BlockPiece(c) => BlockGeometry(c, frame, BoundsOf(previous), env);
    case InputPiece(c) =>
    case RunPiece(ns) => RunAtOrigin(ns, frame, BoundsOf(previous), false, env);
  }

  /**
   * The child layouts of the pieces are stacked in order: blocks and runs
   * below the box before them at the parent's left edge, inputs beside it.
   */
  lemma {:induction false} PiecesStack(ps: seq<Piece>, frame: Rect, previous: Option<Laid>, env: Env, owner: Node)
    requires Classified(ps, owner.Children(), Marker(owner)) && Maximal(ps)
    requires ps != [] && ps[0].RunPiece? ==> previous.None? || !previous.value.RunBox?
    ensures var r := LayoutPieces(ps, frame, previous, env, owner);
      r.Ok? ==> |r.value| == |ps| && (forall i :: 0 <= i < |ps| ==> SameKind(ps[i], r.value[i])) && Column(r.value, frame, previous, env)
    decreases |ps|
  {
    if ps != [] {
      var f := LayoutPiece(ps[0], frame, previous, env, owner);
      PieceStacks(ps[0], frame, previous, env, owner);
      if f.Ok? {
        var tail := ps[1..];
        assert Classified(tail, owner.Children(), Marker(owner)) by {
          forall i | 0 <= i < |tail| ensures tail[i] == ps[i + 1] { }
        }
        assert Maximal(tail) by {
          forall i | 0 <= i < |tail| ensures tail[i] == ps[i + 1] { }
        }
        assert tail != [] && tail[0].RunPiece? ==> !ps[0].RunPiece? by {
          if tail != [] { assert tail[0] == ps[1]; }
        }
        PiecesStack(tail, frame, Some(f.value), env, owner);
        var rest := LayoutPieces(tail, frame, Some(f.value), env, owner);
        if rest.Ok? {
          assert LayoutPieces(ps, frame, previous, env, owner) == Ok([f.value] + rest.value);
          ColumnCons(f.value, rest.value, frame, previous, env);
          KindsCons(ps, f.value, rest.value);
        }
      }
    }
  }

  lemma ColumnCons(first: Laid, rest: seq<Laid>, frame: Rect, previous: Option<Laid>, env: Env)
    requires Stacked(first, frame, previous, env) && Column(rest, frame, Some(first), env)
    ensures Column([first] + rest, frame, previous, env)
  {
    var ls := [first] + rest;
    forall i | 0 < i < |ls|
      ensures Stacked(ls[i], frame, Some(ls[i - 1]), env)
    {
      assert ls[i] == rest[i - 1];
      if i > 1 { assert ls[i - 1] == rest[i - 2]; }
    }
  }

  lemma KindsCons(ps: seq<Piece>, first: Laid, rest: seq<Laid>)
    requires |ps| == |rest| + 1 && SameKind(ps[0], first)
    requires forall i :: 0 <= i < |rest| ==> SameKind(ps[1..][i], rest[i])
    ensures forall i :: 0 <= i < |ps| ==> SameKind(ps[i], ([first] + rest)[i])
  {
    forall i | 0 < i < |ps| ensures SameKind(ps[i], ([first] + rest)[i]) {
      assert ps[1..][i - 1] == ps[i];
    }
  }

  /**
   * `layout()` of a block: the table of contents sits at the block's top,
   * and every child layout is stacked after the one before it; no inline
   * run ever continues another run's line.
   */
  lemma BlockStacks(n: Node, parent: Rect, previous: Option<Rect>, env: Env)
    ensures var r := LayoutBlock(n, parent, previous, env);
      r.Ok? ==> r.value.BlockBox? && Column(r.value.children, Rect(parent.x, Below(parent, previous), parent.width, 0), None, env)
  {
    var frame := Rect(parent.x, Below(parent, previous), parent.width, 0);
    var r := LayoutBlock(n, parent, previous, env);
    if r.Ok? {
      var toc := if IsToc(n) then LayoutToc(n, frame, env) else Ok([]);
      assert toc.Ok?;
      var ps := Split(n.Children(), Marker(n));
      SplitClassifies(n.Children(), Marker(n));
      SplitMaximal(n.Children(), Marker(n));
      var first := if toc.value == [] then None else Some(toc.value[0]);
      PiecesStack(ps, frame, first, env, n);
      var kids := LayoutPieces(ps, frame, first, env, n);
      assert kids.Ok?;
      assert r.value.children == toc.value + kids.value;
      if toc.value != [] {
        assert toc.value == [toc.value[0]];
        ColumnCons(toc.value[0], kids.value, frame, None, env);
      } else {
        assert toc.value + kids.value == kids.value;
      }
    }
  }

  /** Two inputs in a row share a top, the second a space's width right of the first's 200. */
  lemma InputsShareALine(a: Node, b: Node, parent: Rect, previous: Option<Rect>, env: Env)
    ensures var first := LayoutInput(a, parent, previous, env);
      var second := LayoutInput(b, parent, Some(first.rect), env);
      second.rect.y == first.rect.y && second.rect.x == first.rect.x + 200 + env.m.width(env.fontOf(b.style), " ")
  {
  }

  /** The table of contents is laid out like any block holding its synthesized `div`. */
  lemma TocIsBlock(nav: Node, frame: Rect, env: Env)
    requires frame.height == 0
    ensures var t := LayoutToc(nav, frame, env);
      var b := LayoutBlock(TocNode(nav), frame, None, env);
      t.Ok? == b.Ok? && (t.Ok? ==> t.value == [b.value])
  {
    var div := TocNode(nav);
    assert !IsToc(div) && Marker(div) == [];
    var t := div.children[0];
    assert div.Children() == [t] + [] && [] + [t] == [t];
    TextJoinsRun(t, [], []);
    var ps := [RunPiece(div.children)];
    assert Split(div.Children(), []) == ps;
    assert Rect(frame.x, Below(frame, None), frame.width, 0) == frame;
    SplitClassifies(div.Children(), Marker(div));
    OnePiece(ps, frame, env, div);
    var box := LayoutInline(div.children, frame, None, false, env);
    if box.Ok? {
      var run := RunBox(div.children, box.value);
      assert Heights([run]) == box.value.rect.height by {
        assert [run][1..] == [];
      }
      assert [] + [run] == [run];
      assert LayoutBlock(div, frame, None, env) == Ok(BlockBox(div, frame.(height := Heights([run])), [run]));
    } else {
      assert LayoutBlock(div, frame, None, env).Fail?;
    }
  }

  /** A single run laid out as the only child of a block. */
  lemma OnePiece(ps: seq<Piece>, frame: Rect, env: Env, owner: Node)
    requires |ps| == 1 && ps[0].RunPiece? && Classified(ps, owner.Children(), Marker(owner))
    ensures var box := LayoutInline(ps[0].nodes, frame, None, false, env);
      LayoutPieces(ps, frame, None, env, owner) == if box.Ok? then Ok([RunBox(ps[0].nodes, box.value)]) else Fail(box.exc)
  {
    var box := LayoutInline(ps[0].nodes, frame, None, false, env);
    assert LayoutPiece(ps[0], frame, None, env, owner) == if box.Ok? then Ok(RunBox(ps[0].nodes, box.value)) else Fail(box.exc);
    if box.Ok? {
      var first := RunBox(ps[0].nodes, box.value);
      assert ps[1..] == [];
      assert LayoutPieces(ps[1..], frame, Some(first), env, owner) == Ok([]);
      assert [first] + [] == [first];
    }
  }

  // ------------------------------------------------------------- document

  const DocumentLeft: int := 13   // `hStep`
  const DocumentTop: int := 50    // `vStep`

  /** `DocumentLayout(node, browserWidth).layout()`: one block for the whole tree, inside the page margins. */
  function LayoutDocument(n: Node, browserWidth: int, env: Env): Outcome<Laid>
  {
    var frame := Rect(DocumentLeft, DocumentTop, browserWidth - 2 * DocumentLeft, 0);
    var child :- LayoutBlock(n, frame, None, env);
    Ok(DocumentBox(frame.(height := child.Bounds().height), [child]))
  }

  /**
   * The document box is 13 in from the left, 50 down, 26 narrower than the
   * window, holds exactly one block at the same place and width, and is as
   * tall as that block; it throws exactly when the block does.
   */
  lemma DocumentHoldsOneBlock(n: Node, browserWidth: int, env: Env)
    ensures var r := LayoutDocument(n, browserWidth, env);
      r.Ok? <==> LayoutBlock(n, Rect(13, 50, browserWidth - 26, 0), None, env).Ok?
    ensures var r := LayoutDocument(n, browserWidth, env);
      r.Ok? ==> (r.value.DocumentBox? && |r.value.children| == 1 && r.value.children[0].BlockBox? &&
                 r.value.rect == Rect(13, 50, browserWidth - 26, r.value.children[0].rect.height) &&
                 r.value.children[0].rect.x == 13 && r.value.children[0].rect.y == 50 &&
                 r.value.children[0].rect.width == browserWidth - 26)
  {
    BlockGeometry(n, Rect(13, 50, browserWidth - 26, 0), None, env);
  }

  // ---------------------------------------------------------------- paint

  /** `paint()`'s extra rectangle: light grey for `nav class=links`, grey for `div class=toc`. */
  function Decoration(n: Node, r: Rect): seq<Drawable>
  {
    if n.IsTag("nav") && n.Attribute("class") == Some("links") then [DrawRect(r.x, r.y, r.x + r.width, r.y + r.height, LightGray)]
    else if n.IsTag("div") && n.Attribute("class") == Some("toc") then [DrawRect(r.x, r.y, r.x + r.width, r.y + r.height, Gray)]
    else []
  }

  /** `BlockLayout.paint()`: the background, then the decoration. */
  function PaintBlock(n: Node, r: Rect): Outcome<seq<Drawable>>
  {
    var bg :- Background(n, r);
    Ok(bg + Decoration(n, r))
  }

  /** The text an input box shows: an `input`'s `value`, a `button`'s single text child, otherwise nothing. */
  function ShownText(n: Node): string
  {
    if n.IsTag("input") then (var v := n.Attribute("value"); if v.Some? then v.value else "")
    else if n.IsTag("button") then (if |n.children| == 1 && n.children[0].Text? then n.children[0].text else "")
    else ""
  }

  /** `node.isFocused` */
  predicate Focused(n: Node)
  {
    n.Element? && n.focused
  }

  /** `InputLayout.paint()`: the background, the text in its colour, and the caret after it when focused. */
  function PaintInput(n: Node, r: Rect, font: FontKey, m: Measure): Outcome<seq<Drawable>>
  {
    var bg :- Background(n, r);
    var text := ShownText(n);
    var color :- TextColor(n.style);
    var caretX := r.x + m.width(font, text);
    Ok(bg + [DrawText(r.x, r.y, text, font, color)] +
       (if Focused(n) then [DrawLine(caretX, r.y, caretX, r.y + r.height, Black, 1)] else []))
  }

  /**
   * What an input box draws, in order: background rectangles only, then
   * the shown text at the box's corner, then a caret line at the text's end
   * exactly when the node is focused.
   */
  lemma InputPaintOrder(n: Node, r: Rect, font: FontKey, m: Measure)
    ensures var p := PaintInput(n, r, font, m);
      p.Ok? ==>
        var k := |p.value| - (if Focused(n) then 2 else 1);
        0 <= k && (forall i :: 0 <= i < k ==> p.value[i].DrawRect?) &&
        p.value[k].DrawText? && p.value[k].text == ShownText(n) && p.value[k].left == r.x && p.value[k].top == r.y &&
        (Focused(n) ==> p.value[k + 1] == DrawLine(r.x + m.width(font, ShownText(n)), r.y, r.x + m.width(font, ShownText(n)), r.y + r.height, Black, 1))
  {
    var p := PaintInput(n, r, font, m);
    if p.Ok? {
      var bg := Background(n, r);
      assert bg.Ok?;
      var k := |bg.value|;
      assert |p.value| - (if Focused(n) then 2 else 1) == k;
      forall i | 0 <= i < k ensures p.value[i].DrawRect? {
        assert p.value[i] == bg.value[i];
      }
    }
  }

  /** `paint()` of any layout; the document paints nothing itself. */
  function PaintOf(l: Laid, m: Measure): Outcome<seq<Drawable>>
  {
    match l
    case BlockBox(n, r, _) => PaintBlock(n, r)
    case RunBox(ns, b) => PaintInline(ns, b)
    case InputBox(n, r, font) => PaintInput(n, r, font, m)
    case DocumentBox(_, _) => Ok([])
  }

  /** A laid-out table of contents without a background paints one grey rectangle over its whole box. */
  lemma TocPaintsGray(nav: Node, frame: Rect, env: Env)
    requires "background-color" !in nav.style
    ensures var t := LayoutToc(nav, frame, env);
      t.Ok? ==> var r := t.value[0].rect; PaintOf(t.value[0], env.m) == Ok([DrawRect(r.x, r.y, r.x + r.width, r.y + r.height, Gray)])
  {
    var div := TocNode(nav);
    assert Get(div.attributes, "class") == Some("toc");
    var t := LayoutToc(nav, frame, env);
    if t.Ok? {
      var r := t.value[0].rect;
      assert t.value[0].BlockBox? && t.value[0].node == div;
      assert Background(div, r) == Ok([]);
      var gray := DrawRect(r.x, r.y, r.x + r.width, r.y + r.height, Gray);
      assert Decoration(div, r) == [gray];
      assert PaintBlock(div, r) == Ok([] + [gray]);
      assert [] + [gray] == [gray];
    }
  }

  // ---------------------------------------------------- paintTree, treeToList

  /** Both outputs in turn, or the first exception. */
  function Both(a: Outcome<seq<Drawable>>, b: Outcome<seq<Drawable>>): (r: Outcome<seq<Drawable>>)
    ensures r.Ok? <==> a.Ok? && b.Ok?
  {
    var x :- a;
    var y :- b;
    Ok(x + y)
  }

  lemma BothAssociates(a: Outcome<seq<Drawable>>, b: Outcome<seq<Drawable>>, c: Outcome<seq<Drawable>>)
    ensures Both(Both(a, b), c) == Both(a, Both(b, c))
  {
    if a.Ok? && b.Ok? && c.Ok? {
      assert a.value + b.value + c.value == a.value + (b.value + c.value);
    }
  }

  /** The layouts a layout made. */
  function Kids(l: Laid): (r: seq<Laid>)
    ensures forall i :: 0 <= i < |r| ==> r[i] < l
  {
    if l.BlockBox? || l.DocumentBox? then l.children else []
  }

  /** `paintTree()`: the layout's own commands, then each child's tree in order. */
  function PaintTree(l: Laid, m: Measure): Outcome<seq<Drawable>>
    decreases l, 1
  {
    Both(PaintOf(l, m), if l.BlockBox? || l.DocumentBox? then PaintTreeAll(l.children, m) else Ok([]))
  }

  function PaintTreeAll(ls: seq<Laid>, m: Measure): Outcome<seq<Drawable>>
    decreases ls, 0
  {
    if ls == [] then Ok([]) else Both(PaintTreeAll(ls[..|ls| - 1], m), PaintTree(ls[|ls| - 1], m))
  }

  /** `treeToList()`: the layout, then each child's list in order. */
  function Boxes(l: Laid): seq<Laid>
    decreases l, 1
  {
    [l] + if l.BlockBox? || l.DocumentBox? then BoxesAll(l.children) else []
  }

  function BoxesAll(ls: seq<Laid>): seq<Laid>
    decreases ls, 0
  {
    if ls == [] then [] else BoxesAll(ls[..|ls| - 1]) + Boxes(ls[|ls| - 1])
  }

  /** The paint commands of the layouts in turn. */
  function PaintEach(ls: seq<Laid>, m: Measure): Outcome<seq<Drawable>>
  {
    if ls == [] then Ok([]) else Both(PaintEach(ls[..|ls| - 1], m), PaintOf(ls[|ls| - 1], m))
  }

  lemma {:induction false} PaintEachAppend(a: seq<Laid>, b: seq<Laid>, m: Measure)
    ensures PaintEach(a + b, m) == Both(PaintEach(a, m), PaintEach(b, m))
    decreases |b|
  {
    if b == [] {
      assert a + b == a;
      if PaintEach(a, m).Ok? { assert PaintEach(a, m).value + [] == PaintEach(a, m).value; }
    } else {
      var init, last := b[..|b| - 1], b[|b| - 1];
      assert (a + b)[..|a + b| - 1] == a + init && (a + b)[|a + b| - 1] == last;
      PaintEachAppend(a, init, m);
      BothAssociates(PaintEach(a, m), PaintEach(init, m), PaintOf(last, m));
    }
  }

  /** `paintTree()` paints exactly the layouts of `treeToList()`, in that order. */
  lemma {:induction false} PaintTreeIsFlatMap(l: Laid, m: Measure)
    ensures PaintTree(l, m) == PaintEach(Boxes(l), m)
    decreases l, 1
  {
    var below := if l.BlockBox? || l.DocumentBox? then l.children else [];
    if l.BlockBox? || l.DocumentBox? { PaintTreeAllIsFlatMap(l.children, m); }
    assert PaintTree(l, m) == Both(PaintOf(l, m), PaintTreeAll(below, m));
    assert Boxes(l) == [l] + BoxesAll(below);
    PaintEachAppend([l], BoxesAll(below), m);
    assert PaintEach([l], m) == Both(Ok([]), PaintOf(l, m));
    if PaintOf(l, m).Ok? { assert [] + PaintOf(l, m).value == PaintOf(l, m).value; }
  }

  lemma {:induction false} PaintTreeAllIsFlatMap(ls: seq<Laid>, m: Measure)
    ensures PaintTreeAll(ls, m) == PaintEach(BoxesAll(ls), m)
    decreases ls, 0
  {
    if ls != [] {
      var init, last := ls[..|ls| - 1], ls[|ls| - 1];
      PaintTreeAllIsFlatMap(init, m);
      PaintTreeIsFlatMap(last, m);
      PaintEachAppend(BoxesAll(init), Boxes(last), m);
    }
  }

  /** The number of layouts in a tree. */
  function Count(l: Laid): nat
    decreases l, 1
  {
    1 + if l.BlockBox? || l.DocumentBox? then CountAll(l.children) else 0
  }

  function CountAll(ls: seq<Laid>): nat
    decreases ls, 0
  {
    if ls == [] then 0 else CountAll(ls[..|ls| - 1]) + Count(ls[|ls| - 1])
  }

  /** `d` is `l` itself or a layout in the tree of one of its children. */
  predicate InTree(d: Laid, l: Laid)
    decreases l, 1
  {
    d == l || ((l.BlockBox? || l.DocumentBox?) && InTreeAll(d, l.children))
  }

  predicate InTreeAll(d: Laid, ls: seq<Laid>)
    decreases ls, 0
  {
    ls != [] && (InTreeAll(d, ls[..|ls| - 1]) || InTree(d, ls[|ls| - 1]))
  }

  /**
   * `treeToList()` holds the layout first and one entry per layout of the
   * tree, and a layout is in the list exactly when it is in the tree.
   */
  lemma {:induction false} BoxesCount(l: Laid)
    ensures |Boxes(l)| == Count(l) && Boxes(l)[0] == l
    ensures forall d :: d in Boxes(l) <==> InTree(d, l)
    decreases l, 1
  {
    if l.BlockBox? || l.DocumentBox? { BoxesAllCount(l.children); }
  }

  lemma {:induction false} BoxesAllCount(ls: seq<Laid>)
    ensures |BoxesAll(ls)| == CountAll(ls)
    ensures forall d :: d in BoxesAll(ls) <==> InTreeAll(d, ls)
    decreases ls, 0
  {
    if ls != [] {
      BoxesAllCount(ls[..|ls| - 1]);
      BoxesCount(ls[|ls| - 1]);
    }
  }

  /** `treeToList()` with its list filled in place. */
  method TreeToList(l: Laid) returns (list: seq<Laid>)
    ensures list == Boxes(l)
    decreases l
  {
    var cs := Kids(l);
    list := [l];
    var i := 0;
    while i < |cs|
      invariant 0 <= i <= |cs|
      invariant list == [l] + BoxesAll(cs[..i])
    {
      var sub := TreeToList(cs[i]);
      assert cs[..i + 1][..i] == cs[..i];
      list := list + sub;
      i := i + 1;
    }
    assert cs[..i] == cs;
  }

  /** `acc` followed by an output, or that output's exception. */
  function After(acc: seq<Drawable>, o: Outcome<seq<Drawable>>): Outcome<seq<Drawable>>
  {
    if o.Ok? then Ok(acc + o.value) else Fail(o.exc)
  }

  /** A child whose painting throws ends the walk with its exception. */
  lemma {:induction false} PaintTreeAllFails(ls: seq<Laid>, i: nat, m: Measure)
    requires i <= |ls| && PaintTreeAll(ls[..i], m).Fail?
    ensures PaintTreeAll(ls, m) == Fail(PaintTreeAll(ls[..i], m).exc)
    decreases |ls| - i
  {
    if i < |ls| {
      assert ls[..i + 1][..i] == ls[..i];
      PaintTreeAllFails(ls, i + 1, m);
    } else {
      assert ls[..i] == ls;
    }
  }

  /** Appending a two-part output is appending its parts in turn. */
  lemma AfterBoth(acc: seq<Drawable>, a: Outcome<seq<Drawable>>, b: Outcome<seq<Drawable>>)
    requires a.Ok?
    ensures After(acc, Both(a, b)) == After(acc + a.value, b)
  {
    if b.Ok? { assert acc + (a.value + b.value) == acc + a.value + b.value; }
  }

  /** `paintTree(displayList)`: the commands are appended to the list passed in. */
  method PaintTreeInto(l: Laid, m: Measure, acc: seq<Drawable>) returns (r: Outcome<seq<Drawable>>)
    ensures r == After(acc, PaintTree(l, m))
    decreases l, 1
  {
    var own := PaintOf(l, m);
    if own.Fail? {
      return Fail(own.exc);
    }
    var cs := Kids(l);
    assert PaintTree(l, m) == Both(own, PaintTreeAll(cs, m));
    AfterBoth(acc, own, PaintTreeAll(cs, m));
    r := PaintChildren(cs, m, acc + own.value, l);
  }

  /** The loop of `paintTree` over the children, each appending its tree to the list. */
  method PaintChildren(cs: seq<Laid>, m: Measure, acc: seq<Drawable>, ghost l: Laid) returns (r: Outcome<seq<Drawable>>)
    requires forall i :: 0 <= i < |cs| ==> cs[i] < l
    ensures r == After(acc, PaintTreeAll(cs, m))
    decreases l, 0
  {
    var list := acc;
    var i := 0;
    assert acc + [] == acc;
    while i < |cs|
      invariant 0 <= i <= |cs|
      invariant After(acc, PaintTreeAll(cs[..i], m)) == Ok(list)
    {
      var sub := PaintTreeInto(cs[i], m, list);
      assert cs[..i + 1][..i] == cs[..i];
      AfterBoth(acc, PaintTreeAll(cs[..i], m), PaintTree(cs[i], m));
      if sub.Fail? {
        PaintTreeAllFails(cs, i + 1, m);
        return Fail(sub.exc);
      }
      list := sub.value;
      i := i + 1;
    }
    assert cs[..i] == cs;
    r := Ok(list);
  }
}
