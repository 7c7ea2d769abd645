// HtmlParser.kt: a character-by-character scanner that feeds tags and text to
// a tree builder holding the stack of still-open elements (`unfinished`).
// The builder inserts the implied html/head/body elements and closes an open
// <p> or <li> before a sibling of the same kind.

module HtmlParsing {
  import opened Common
  import opened Strings
  import LinkedMaps
  import opened Dom

  /** Tags that belong in <head>: an implied <head> rather than <body> opens for them. */
  const HeadTags: set<string> :=
    {"base", "basefont", "bgsound", "noscript", "link", "meta", "title", "style", "script"}

  /** The separators `getAttributes` splits a tag's text on. */
  const TagSeparators: set<char> := {' ', '\n', '\t', '\r'}

  /** `entities[name] ?: name`: only `lt` and `gt` are known; anything else is kept verbatim. */
  function DecodeEntity(name: string): (r: string)
    ensures name == "lt" ==> r == "<"
    ensures name == "gt" ==> r == ">"
    ensures name != "lt" && name != "gt" ==> r == name
  {
    if name == "lt" then "<" else if name == "gt" then ">" else name
  }

  // ------------------------------------------------------------ attributes

  /** The attribute name and value one whitespace-separated piece of a tag contributes. */
  function AttributeOf(part: string): (r: (string, string))
    ensures IsLower(r.0)
    ensures r.0 == [] || (!IsWhitespace(r.0[0]) && !IsWhitespace(r.0[|r.0| - 1]))
    ensures !Contains(part, "=") ==> r == (Trim(Lower(part)), "")
    ensures Contains(part, "=") ==> r.0 == Trim(Lower(SplitFirst(part, "=").value.0))
    ensures r.1 == [] || (r.1[0] !in {'"', '\''} && r.1[|r.1| - 1] !in {'"', '\''})
  {
    match SplitFirst(part, "=")
    case Some((key, value)) => TrimLowerIsLower(key); (Trim(Lower(key)), TrimChars(Trim(value), {'"', '\''}))
    case None => TrimLowerIsLower(part); (Trim(Lower(part)), "")
  }

  /** The name/value entry of each piece after the tag name. */
  function AttributeEntries(parts: seq<string>): (r: seq<(string, string)>)
    ensures |r| == |parts|
    ensures forall i :: 0 <= i < |parts| ==> r[i] == AttributeOf(parts[i])
  {
    seq(|parts|, i requires 0 <= i < |parts| => AttributeOf(parts[i]))
  }

  /** The attribute map built from the pieces after the tag name, later pieces overriding earlier ones. */
  function AttributesOf(parts: seq<string>): Dom.Attributes
  {
    LinkedMaps.PutAll([], AttributeEntries(parts))
  }

  /** Attribute names are lower case and each occurs once. */
  lemma AttributesOk(parts: seq<string>)
    ensures AttrsOk(AttributesOf(parts))
  {
    var es := AttributeEntries(parts);
    forall k | k in LinkedMaps.Keys(AttributesOf(parts))
      ensures IsLower(k)
    {
      LinkedMaps.PutAllKeysFrom([], es, k);
    }
  }

  /** The last piece that names an attribute decides its value; a piece without `=`
      gives the empty value. */
  lemma LastPieceWins(parts: seq<string>, j: int)
    requires 0 <= j < |parts|
    requires forall i :: j < i < |parts| ==> AttributeOf(parts[i]).0 != AttributeOf(parts[j]).0
    ensures LinkedMaps.Get(AttributesOf(parts), AttributeOf(parts[j]).0) == Some(AttributeOf(parts[j]).1)
    ensures !Contains(parts[j], "=") ==> LinkedMaps.Get(AttributesOf(parts), Trim(Lower(parts[j]))) == Some("")
  {
    LinkedMaps.PutAllLast([], AttributeEntries(parts), j);
  }

  /** The tag name: the first piece, lower-cased and trimmed. */
  function TagNameOf(text: string): string
  {
    Trim(Lower(SplitOn(text, TagSeparators)[0]))
  }

  // ---------------------------------------------------------- implied tags

  predicate Rooted(open: seq<string>)
  {
    open == [] || open[0] == "html"
  }

  /** The tags `implicitTags` can add on its own. */
  datatype Implied = OpenHtml | OpenHead | OpenBody | CloseHead | CloseP | CloseLi
  {
    /** The text `implicitTags` passes to `addTag`. */
    function Name(): string
    {
      match this
      case OpenHtml => "html"
      case OpenHead => "head"
      case OpenBody => "body"
      case CloseHead => "/head"
      case CloseP => "/p"
      case CloseLi => "/li"
    }
  }

  /** The tag `implicitTags(tag)` adds before `tag`, given the open tags (None: the loop stops). */
  function ImplicitTag(open: seq<string>, tag: Option<string>): (r: Option<Implied>)
    ensures open == [] && tag != Some("html") ==> r == Some(OpenHtml)
  {
    if open == [] && tag != Some("html") then Some(OpenHtml)
    else if |open| == 1 && open[0] == "html" && !(tag.Some? && tag.value in {"head", "body", "/html"}) then
      (if tag.Some? && tag.value in HeadTags then Some(OpenHead) else Some(OpenBody))
    else if |open| == 2 && open[0] == "html" && open[1] == "head"
            && !(tag.Some? && (tag.value in HeadTags || tag.value == "/head")) then
      Some(CloseHead)
    else if |open| > 0 && open[|open| - 1] == "p" && tag == Some("p") then Some(CloseP)
    else if |open| > 0 && open[|open| - 1] == "li" && tag == Some("li") then Some(CloseLi)
    else None
  }

  /** What inserting a tag does to the open-tag stack: a closing tag (`/...`) pops the
      innermost element unless only the root is open, a leaf (a void element or one written
      `<.../>`) leaves the stack alone, and any other tag is pushed. */
  function InsertTags(open: seq<string>, tag: string, leaf: bool): (r: seq<string>)
    ensures StartsWithChar(tag, '/') && |open| >= 2 ==> r == open[..|open| - 1]
    ensures StartsWithChar(tag, '/') && |open| <= 1 ==> r == open
    ensures !StartsWithChar(tag, '/') && leaf ==> r == open
    ensures !StartsWithChar(tag, '/') && !leaf ==> r == open + [tag]
  {
    if StartsWithChar(tag, '/') then (if |open| <= 1 then open else open[..|open| - 1])
    else if leaf then open
    else open + [tag]
  }

  /** A measure that every repair step lowers. */
  function RepairRank(open: seq<string>, tag: Option<string>): nat
  {
    if ImplicitTag(open, tag).None? then 0
    else if open == [] then 10
    else if |open| == 1 then 1
    else if |open| == 2 && open[1] == "head" then 2
    else 3 + |open|
  }

  lemma RepairStep(open: seq<string>, tag: Option<string>, i: Implied)
    requires Rooted(open) && ImplicitTag(open, tag) == Some(i)
    ensures Rooted(InsertTags(open, i.Name(), false))
    ensures RepairRank(InsertTags(open, i.Name(), false), tag) < RepairRank(open, tag)
  {
    var next := InsertTags(open, i.Name(), false);
    if open == [] {
      assert next == ["html"];
    } else if |open| == 1 {
      assert next == ["html", i.Name()];
    } else if |open| == 2 && open[1] == "head" && i == CloseHead {
      assert next == ["html"];
    } else {
      assert |open| >= 2 && next == open[..|open| - 1];
    }
  }

  /** The open-tag stack after `implicitTags(tag)`. */
  function RepairTags(open: seq<string>, tag: Option<string>): (r: seq<string>)
    requires Rooted(open)
    ensures Rooted(r) && ImplicitTag(r, tag).None?
    decreases RepairRank(open, tag)
  {
    match ImplicitTag(open, tag)
    case None => open
    case Some(i) =>
      RepairStep(open, tag, i);
      RepairTags(InsertTags(open, i.Name(), false), tag)
  }

  /** The tag `implicitTags` adds needs no repair of its own, so the nested
      `implicitTags(s)` that `addTag(s)` runs for it stops at once. */
  lemma ImpliedTagNeedsNoRepair(open: seq<string>, tag: Option<string>)
    requires ImplicitTag(open, tag).Some?
    ensures ImplicitTag(open, Some(ImplicitTag(open, tag).value.Name())) == None
  {
  }

  lemma LettersNotSeparators(s: string)
    requires forall i :: 0 <= i < |s| ==> 'a' <= s[i] <= 'z' || s[i] == '/'
    ensures forall i :: 0 <= i < |s| ==> s[i] !in TagSeparators
  {
  }

  /** A tag text of lower-case letters has no separator, so `split` keeps it whole. */
  lemma PlainTagSplit(s: string)
    requires forall i :: 0 <= i < |s| ==> 'a' <= s[i] <= 'z' || s[i] == '/'
    ensures SplitOn(s, TagSeparators) == [s]
  {
    LettersNotSeparators(s);
    SplitOnNone(s, TagSeparators);
  }

  /** A tag text of lower-case letters is its own tag name. */
  lemma PlainTagName(s: string)
    requires |s| > 0 && forall i :: 0 <= i < |s| ==> 'a' <= s[i] <= 'z' || s[i] == '/'
    ensures TagNameOf(s) == s && IsLower(s)
  {
    PlainTagSplit(s);
    assert Lower(s) == s;
    PrintableNotWhitespace(s[0]);
    PrintableNotWhitespace(s[|s| - 1]);
    TrimOfTrimmed(s);
  }

  /** A tag text that does not end in `/` is not a `<.../>` tag. */
  lemma NotSelfClosed(s: string)
    requires |s| > 0 && s[|s| - 1] != '/'
    ensures TrimEndChar(s, '/') == s && !EndsWith(s, "/")
  {
    assert s[|s| - 1..] == [s[|s| - 1]];
  }

  /** A tag text of lower-case letters, possibly after a `/`, names that tag and is not `<.../>`. */
  lemma PlainTag(s: string)
    requires |s| > 0 && s[|s| - 1] != '/'
    requires forall i :: 0 <= i < |s| ==> 'a' <= s[i] <= 'z' || s[i] == '/'
    ensures TagNameOf(s) == s && TrimEndChar(s, '/') == s && !EndsWith(s, "/")
  {
    PlainTagName(s);
    NotSelfClosed(s);
  }

  /** The tags `implicitTags` adds are lower case, not declarations and not void elements. */
  lemma ImpliedTagOk(i: Implied)
    ensures IsLower(i.Name()) && !StartsWithChar(i.Name(), '!') && i.Name() !in SelfClosingTags
  {
  }

  /** What `implicitTags` inserts through `addTag(s)` is the plain tag `s`: its name is
      `s`, it has no attributes and it is not written `<.../>`. */
  lemma ImpliedTagText(i: Implied)
    ensures TagNameOf(i.Name()) == i.Name() && AttributesOf([]) == []
    ensures TrimEndChar(i.Name(), '/') == i.Name() && !EndsWith(i.Name(), "/")
  {
    match i
    case OpenHtml => PlainTag("html");
    case OpenHead => PlainTag("head");
    case OpenBody => PlainTag("body");
    case CloseHead => PlainTag("/head");
    case CloseP => PlainTag("/p");
    case CloseLi => PlainTag("/li");
  }

  /** A repair for anything but <html> leaves at least the root element open. */
  lemma {:induction false} ImpliedHtml(open: seq<string>, tag: Option<string>)
    requires Rooted(open) && tag != Some("html")
    ensures var r := RepairTags(open, tag); |r| >= 1 && r[0] == "html"
    decreases RepairRank(open, tag)
  {
    match ImplicitTag(open, tag)
    case None =>
    case Some(i) =>
      RepairStep(open, tag, i);
      ImpliedHtml(InsertTags(open, i.Name(), false), tag);
  }

  /** Text, or a tag that does not belong in the head, at the start of a
      document opens <html><body>. */
  lemma ImpliedBody(tag: Option<string>)
    requires tag == None || (tag.value !in HeadTags && tag.value !in {"html", "head", "body", "/html", "/head"})
    ensures RepairTags([], tag) == ["html", "body"]
  {
    assert InsertTags([], "html", false) == ["html"];
    assert ImplicitTag(["html"], tag) == Some(OpenBody);
    assert InsertTags(["html"], "body", false) == ["html", "body"];
    assert ImplicitTag(["html", "body"], tag) == None;
    assert RepairTags(["html"], tag) == ["html", "body"];
  }

  /** A head tag at the start of a document opens <html><head>. */
  lemma ImpliedHead(tag: string)
    requires tag in HeadTags
    ensures RepairTags([], Some(tag)) == ["html", "head"]
  {
    assert InsertTags([], "html", false) == ["html"];
    assert ImplicitTag(["html"], Some(tag)) == Some(OpenHead);
    assert InsertTags(["html"], "head", false) == ["html", "head"];
    assert ImplicitTag(["html", "head"], Some(tag)) == None;
  }

  /** A body tag while <head> is open closes the head and opens an implied <body>. */
  lemma HeadClosedByBodyContent(tag: string)
    requires tag !in HeadTags && tag !in {"/head", "head", "body", "/html", "p", "li"}
    ensures RepairTags(["html", "head"], Some(tag)) == ["html", "body"]
  {
    assert ImplicitTag(["html", "head"], Some(tag)) == Some(CloseHead);
    assert InsertTags(["html", "head"], "/head", false) == ["html"];
    assert ImplicitTag(["html"], Some(tag)) == Some(OpenBody);
    assert InsertTags(["html"], "body", false) == ["html", "body"];
    assert ImplicitTag(["html", "body"], Some(tag)) == None;
    assert RepairTags(["html"], Some(tag)) == ["html", "body"];
  }

  /** After the repair for <p> the innermost open element is not a <p>, and likewise for <li>:
      paragraphs and list items never nest directly. */
  lemma NoDirectNesting(open: seq<string>, tag: string)
    requires Rooted(open) && (tag == "p" || tag == "li")
    ensures var r := RepairTags(open, Some(tag)); |r| >= 1 && r[|r| - 1] != tag
  {
    ImpliedHtml(open, Some(tag));
  }

  // ------------------------------------------------------------- the tree

  /** The tag of an element (text nodes never sit on the open stack). */
  function TagOf(n: Node): string
  {
    if n.Element? then n.tag else ""
  }

  function Tags(s: seq<Node>): (r: seq<string>)
    ensures |r| == |s|
    ensures forall i :: 0 <= i < |s| ==> r[i] == TagOf(s[i])
  {
    if s == [] then [] else Tags(s[..|s| - 1]) + [TagOf(s[|s| - 1])]
  }

  predicate AttrsOk(attrs: Dom.Attributes)
  {
    LinkedMaps.Valid(attrs) && forall k :: k in LinkedMaps.Keys(attrs) ==> IsLower(k)
  }

  predicate TagOk(tag: string)
  {
    IsLower(tag) && !StartsWithChar(tag, '!') && !StartsWithChar(tag, '/')
  }

  /** What the parser guarantees of every node it outputs: no blank text node, no
      comment or doctype element, lower-case names, no children under a void element,
      and a fresh (empty) style. */
  predicate WellFormed(n: Node)
  {
    match n
    case Text(text, st) => !IsBlank(text) && st == map[]
    case Element(tag, attrs, cs, st, focused) =>
      TagOk(tag) && AttrsOk(attrs) && (tag in SelfClosingTags ==> cs == []) && st == map[] && !focused
      && forall c :: c in cs ==> WellFormed(c)
  }

  /** An element still open on the stack: it is not void and what it holds is finished. */
  predicate OpenOk(n: Node)
  {
    n.Element? && n.tag !in SelfClosingTags && WellFormed(n)
  }

  /** The scanner state kept by `parse()` between characters. */
  datatype Scan = Scan(inTag: bool, inEntity: bool, inAttribute: bool, entity: string, buffer: string)

  /** What the tree builder is asked to do for one character. */
  datatype Action =
    | NoAction
    | FlushText(text: string)           // '<': the text collected so far
    | CloseScript(text: string)         // '>' ending `</script`: the script's text, then `/script`
    | EmitTag(text: string)             // '>' ending a tag

  /** The scanner's reaction to `c`: the tree action and the next scanner state. */
  function Lex(sc: Scan, c: char, inScript: bool): (r: (Action, Scan))
    ensures r.0.FlushText? ==> !IsBlank(r.0.text)
    ensures r.0.EmitTag? ==> !IsBlank(r.0.text) && !StartsWith(r.0.text, "!--")
    ensures c == '&' && !sc.inTag && !sc.inAttribute && !inScript ==> r == (NoAction, sc.(inEntity := true))
    ensures c == '&' && (sc.inTag || sc.inAttribute || inScript) && !sc.inEntity ==> r.1.buffer == sc.buffer + [c]
  {
    if c == '"' && sc.inTag then
      (NoAction, sc.(inAttribute := !sc.inAttribute, buffer := sc.buffer + [c]))
    else if c == '<' && !sc.inAttribute && !inScript then
      (if IsBlank(sc.buffer) then NoAction else FlushText(sc.buffer), sc.(inTag := true, buffer := ""))
    else if c == '>' && !sc.inAttribute then
      if inScript then
        if !EndsWith(sc.buffer, "</script") then (NoAction, sc.(buffer := sc.buffer + [c]))
        else (CloseScript(SubstringBeforeLast(sc.buffer, "</script")), sc.(buffer := ""))
      else
        var inComment := StartsWith(sc.buffer, "!--");
        if inComment && !EndsWith(sc.buffer, "--") then (NoAction, sc)
        else (if !IsBlank(sc.buffer) && !inComment then EmitTag(sc.buffer) else NoAction, sc.(inTag := false, buffer := ""))
    else if c == '&' && !sc.inTag && !sc.inAttribute && !inScript then
      (NoAction, sc.(inEntity := true))
    else if c == ';' && sc.inEntity then
      (NoAction, sc.(inEntity := false, buffer := sc.buffer + DecodeEntity(sc.entity), entity := ""))
    else if sc.inEntity then
      (NoAction, sc.(entity := sc.entity + [c]))
    else
      (NoAction, sc.(buffer := sc.buffer + [c]))
  }

  /** `&lt;` in text appends a literal `<` to the pending text. */
  lemma LessThanEntity(sc: Scan)
    requires !sc.inTag && !sc.inAttribute && !sc.inEntity && sc.entity == ""
    ensures var s1 := Lex(sc, '&', false).1;
            var s2 := Lex(s1, 'l', false).1;
            var s3 := Lex(s2, 't', false).1;
            var s4 := Lex(s3, ';', false);
            s4.0 == NoAction && s4.1.buffer == sc.buffer + "<" && !s4.1.inEntity && s4.1.entity == ""
  {
    var s1 := Lex(sc, '&', false).1;
    assert s1 == sc.(inEntity := true);
    var s2 := Lex(s1, 'l', false).1;
    assert s2 == s1.(entity := "l");
    var s3 := Lex(s2, 't', false).1;
    assert s3 == s1.(entity := "lt");
  }

  /** Outside an entity no entity name is pending: the name is cleared when `;` ends it. */
  lemma EntityClearedOutside(sc: Scan, c: char, inScript: bool)
    requires !sc.inEntity ==> sc.entity == ""
    ensures var next := Lex(sc, c, inScript).1; !next.inEntity ==> next.entity == ""
  {
  }

  /** An unknown entity name is kept without its `&` and `;`. */
  lemma UnknownEntityKept(sc: Scan, name: string)
    requires sc.inEntity && name != "lt" && name != "gt"
    ensures Lex(sc.(entity := name), ';', false).1.buffer == sc.buffer + name
  {
  }

  /** Inside a script `<` is ordinary text, so markup in scripts is not parsed. */
  lemma ScriptKeepsMarkup(sc: Scan)
    requires !sc.inEntity && !sc.inTag
    ensures Lex(sc, '<', true) == (NoAction, sc.(buffer := sc.buffer + "<"))
  {
  }

  /**
   * In a double-quoted attribute value inside a tag (`<a title="x>y">`),
   * `>` does not end the tag: it is kept in the tag's text and the scan
   * stays inside the tag and the value.
   */
  lemma QuotedGreaterThan(sc: Scan)
    requires sc.inAttribute && !sc.inEntity && sc.inTag
    ensures Lex(sc, '>', false) == (NoAction, sc.(buffer := sc.buffer + ">"))
  {
  }

  /** The open elements with `n` added as the last child of the innermost one. */
  function WithChild(stack: seq<Node>, n: Node): (r: seq<Node>)
    requires stack != [] && stack[|stack| - 1].Element?
    ensures |r| == |stack| && r[..|r| - 1] == stack[..|stack| - 1]
    ensures r[|r| - 1].Element? && r[|r| - 1].children == stack[|stack| - 1].children + [n]
  {
    var top := stack[|stack| - 1];
    stack[..|stack| - 1] + [top.(children := top.children + [n])]
  }

  class HtmlParser {
    const body: string
    /** The open elements, outermost first; each holds the children attached to it so far. */
    var unfinished: seq<Node>

    predicate Valid()
      reads this
    {
      Rooted(Tags(unfinished)) && forall i :: 0 <= i < |unfinished| ==> OpenOk(unfinished[i])
    }

    constructor (body: string)
      ensures this.body == body && unfinished == [] && Valid()
    {
      this.body := body;
      unfinished := [];
    }

    /** `parse()` */
    method Parse() returns (root: Node)
      requires Valid() && unfinished == []
      modifies this
      ensures root.Element? && root.tag == "html" && WellFormed(root)
      ensures unfinished == []
    {
      var sc := Scan(false, false, false, "", "");
      for i := 0 to |body|
        invariant Valid()
      {
        var inScript := |unfinished| > 0 && unfinished[|unfinished| - 1].tag == "script";
        var (action, next) := Lex(sc, body[i], inScript);
        match action {
          case NoAction =>
          case FlushText(text) => AddText(text);
          case CloseScript(text) =>
            AddText(text);
            AddTag("/script");
          case EmitTag(text) => AddTag(text);
        }
        sc := next;
      }
      if !sc.inTag && sc.buffer != [] {
        AddText(sc.buffer);
      }
      root := Finish();
    }

    /** `parent.children.add(node)` for the innermost open element. */
    method Attach(n: Node)
      requires Valid() && |unfinished| > 0 && WellFormed(n)
      modifies this
      ensures Valid()
      ensures |unfinished| == |old(unfinished)| && Tags(unfinished) == Tags(old(unfinished))
      ensures unfinished[..|unfinished| - 1] == old(unfinished[..|unfinished| - 1])
      ensures var top := old(unfinished[|unfinished| - 1]);
              unfinished[|unfinished| - 1] == top.(children := top.children + [n])
      ensures unfinished == WithChild(old(unfinished), n)
    {
      var k := |unfinished| - 1;
      var top := unfinished[k];
      var top' := top.(children := top.children + [n]);
      assert forall c :: c in top'.children ==> c in top.children || c == n;
      unfinished := unfinished[..k] + [top'];
      assert Tags(unfinished) == Tags(old(unfinished));
    }

    /** `node = unfinished.removeLast(); parent.children.add(node)` */
    method PopIntoParent()
      requires Valid() && |unfinished| >= 2
      modifies this
      ensures Valid()
      ensures Tags(unfinished) == Tags(old(unfinished))[..|old(unfinished)| - 1]
      ensures var k := |old(unfinished)| - 1;
              unfinished[..k - 1] == old(unfinished[..k - 1]) &&
              unfinished[k - 1] == old(unfinished[k - 1].(children := unfinished[k - 1].children + [unfinished[k]]))
    {
      var k := |unfinished| - 1;
      var node := unfinished[k];
      assert WellFormed(node);
      unfinished := unfinished[..k];
      assert Tags(unfinished) == Tags(old(unfinished))[..k];
      Attach(node);
    }

    /** The part of `addTag` after the repair: a closing tag pops the innermost element into
        its parent (unless only the root is open), a leaf element is added to the innermost
        element's children (and dropped when nothing is open), any other element is pushed. */
    method Insert(tag: string, attributes: Dom.Attributes, leaf: bool)
      requires Valid()
      requires !StartsWithChar(tag, '!') && IsLower(tag) && AttrsOk(attributes)
      requires tag in SelfClosingTags ==> leaf
      requires StartsWithChar(tag, '/') ==> |unfinished| >= 1
      requires unfinished == [] && !leaf ==> tag == "html"
      modifies this
      ensures Valid()
      ensures Tags(unfinished) == InsertTags(old(Tags(unfinished)), tag, leaf)
      ensures !StartsWithChar(tag, '/') && !leaf ==> unfinished == old(unfinished) + [NewElement(tag, attributes)]
      ensures !StartsWithChar(tag, '/') && leaf && old(unfinished) != [] ==>
                unfinished == WithChild(old(unfinished), NewElement(tag, attributes))
      ensures !StartsWithChar(tag, '/') && leaf && old(unfinished) == [] ==> unfinished == []
    {
      if StartsWithChar(tag, '/') {
        if |unfinished| == 1 {
          return;
        }
        PopIntoParent();
      } else if leaf {
        if unfinished != [] {
          Attach(NewElement(tag, attributes));
        }
      } else {
        Push(tag, attributes);
      }
    }

    /** `unfinished.add(Element(tag, attributes, parent))` */
    method Push(tag: string, attributes: Dom.Attributes)
      requires Valid()
      requires TagOk(tag) && AttrsOk(attributes) && tag !in SelfClosingTags
      requires unfinished == [] ==> tag == "html"
      modifies this
      ensures Valid()
      ensures unfinished == old(unfinished) + [NewElement(tag, attributes)]
      ensures Tags(unfinished) == old(Tags(unfinished)) + [tag]
    {
      unfinished := unfinished + [NewElement(tag, attributes)];
      assert Tags(unfinished) == old(Tags(unfinished)) + [tag];
    }

    /** `implicitTags(tag)`: insert implied elements until none is needed. */
    method ImplicitTags(tag: Option<string>)
      requires Valid()
      modifies this
      ensures Valid()
      ensures Tags(unfinished) == RepairTags(old(Tags(unfinished)), tag)
      ensures ImplicitTag(old(Tags(unfinished)), tag).None? ==> unfinished == old(unfinished)
    {
      while true
        invariant Valid()
        invariant RepairTags(Tags(unfinished), tag) == RepairTags(old(Tags(unfinished)), tag)
        invariant ImplicitTag(old(Tags(unfinished)), tag).None? ==> unfinished == old(unfinished)
        decreases RepairRank(Tags(unfinished), tag)
      {
        var implied := ImplicitTag(Tags(unfinished), tag);
        if implied.None? {
          break;
        }
        // addTag(s): the nested repair for s does nothing and s carries no attributes.
        ImpliedTagNeedsNoRepair(Tags(unfinished), tag);
        ImpliedTagText(implied.value);
        ImpliedTagOk(implied.value);
        RepairStep(Tags(unfinished), tag, implied.value);
        Insert(implied.value.Name(), [], false);
      }
    }

    /** `addText(text)`: blank text is dropped; other text becomes the last child of the innermost element. */
    method AddText(text: string)
      requires Valid()
      modifies this
      ensures Valid()
      ensures IsBlank(text) ==> unfinished == old(unfinished)
      ensures !IsBlank(text) ==>
                |unfinished| > 0 && Tags(unfinished) == RepairTags(old(Tags(unfinished)), None) &&
                var top := unfinished[|unfinished| - 1];
                |top.children| > 0 && top.children[|top.children| - 1] == Text(text, map[])
      ensures !IsBlank(text) && ImplicitTag(old(Tags(unfinished)), None).None? ==>
                old(unfinished) != [] && unfinished == WithChild(old(unfinished), Text(text, map[]))
    {
      if IsBlank(text) {
        return;
      }
      ImpliedHtml(Tags(unfinished), None);
      ImplicitTags(None);
      Attach(Text(text, map[]));
    }

    /** `getAttributes(text)`: the lower-cased tag name and the attribute map. */
    method GetAttributes(text: string) returns (tag: string, attributes: Dom.Attributes)
      ensures tag == TagNameOf(text) && IsLower(tag)
      ensures attributes == AttributesOf(SplitOn(text, TagSeparators)[1..]) && AttrsOk(attributes)
    {
      var parts := SplitOn(text, TagSeparators);
      tag := Trim(Lower(parts[0]));
      TrimLowerIsLower(parts[0]);
      var rest := parts[1..];
      ghost var entries := AttributeEntries(rest);
      attributes := [];
      for i := 0 to |rest|
        invariant attributes == LinkedMaps.PutAll([], entries[..i])
      {
        var kv := AttributeOf(rest[i]);
        LinkedMaps.PutAllPrefix([], entries, i);
        attributes := LinkedMaps.Put(attributes, kv.0, kv.1);
      }
      assert entries[..|rest|] == entries;
      AttributesOk(rest);
    }

    /** `addTag(text)`: comments and declarations (`!...`) are dropped; otherwise the
        implied elements are inserted and then the tag itself. */
    method AddTag(text: string)
      requires Valid()
      modifies this
      ensures Valid()
      ensures var tag := TagNameOf(TrimEndChar(text, '/'));
              if StartsWithChar(tag, '!') then unfinished == old(unfinished)
              else Tags(unfinished) == InsertTags(RepairTags(old(Tags(unfinished)), Some(tag)), tag,
                                                  tag in SelfClosingTags || EndsWith(text, "/"))
      ensures var tag := TagNameOf(TrimEndChar(text, '/'));
              var element := NewElement(tag, AttributesOf(SplitOn(TrimEndChar(text, '/'), TagSeparators)[1..]));
              var opens := !StartsWithChar(tag, '!') && !StartsWithChar(tag, '/');
              (opens && !(tag in SelfClosingTags || EndsWith(text, "/")) ==>
                 |unfinished| > 0 && unfinished[|unfinished| - 1] == element) &&
              (opens && (tag in SelfClosingTags || EndsWith(text, "/")) && unfinished != [] ==>
                 var top := unfinished[|unfinished| - 1];
                 |top.children| > 0 && top.children[|top.children| - 1] == element)
      ensures var tag := TagNameOf(TrimEndChar(text, '/'));
              var element := NewElement(tag, AttributesOf(SplitOn(TrimEndChar(text, '/'), TagSeparators)[1..]));
              var opens := !StartsWithChar(tag, '!') && !StartsWithChar(tag, '/');
              opens && ImplicitTag(old(Tags(unfinished)), Some(tag)).None? ==>
                if tag in SelfClosingTags || EndsWith(text, "/") then
                  old(unfinished) != [] ==> unfinished == WithChild(old(unfinished), element)
                else unfinished == old(unfinished) + [element]
    {
      var trimmed := TrimEndChar(text, '/');
      var tag, attributes := GetAttributes(trimmed);
      if StartsWithChar(tag, '!') {
        return;
      }
      if tag != "html" {
        ImpliedHtml(Tags(unfinished), Some(tag));
      }
      ImplicitTags(Some(tag));
      Insert(tag, attributes, tag in SelfClosingTags || EndsWith(text, "/"));
    }

    /** `finish()`: close every open element into its parent and return the root. */
    method Finish() returns (root: Node)
      requires Valid()
      modifies this
      ensures root.Element? && root.tag == "html" && WellFormed(root)
      ensures unfinished == []
    {
      if unfinished == [] {
        ImpliedHtml([], None);
        ImplicitTags(None);
      }
      while |unfinished| > 1
        invariant Valid() && |unfinished| >= 1
        decreases |unfinished|
      {
        PopIntoParent();
      }
      root := unfinished[0];
      unfinished := [];
    }
  }
}
