// The document tree the HTML parser builds (HtmlParser.kt: Token, Text,
// Element). Nodes are values; a node's parent is the node whose `children`
// hold it, so ancestor chains are passed explicitly where they are needed.

module Dom {
  import opened Common
  import opened Strings
  import opened LinkedMaps

  /** Attribute maps keep insertion order, which shows when an element is printed. */
  type Attributes = LinkedMap<string, string>
  type Style = map<string, string>

  datatype Node =
    | Element(tag: string, attributes: Attributes, children: seq<Node>, style: Style, focused: bool)
    | Text(text: string, style: Style)
  {
    /** A text node's child list is always empty. */
    function Children(): seq<Node>
    {
      if Element? then children else []
    }

    /** `Element.tag == t` */
    predicate IsTag(t: string)
    {
      Element? && tag == t
    }

    /** `attributes[name]` of an element; a text node has none. */
    function Attribute(name: string): Option<string>
    {
      if Element? then Get(attributes, name) else None
    }
  }

  /** Void elements: never pushed on the open-element stack, so never given children. */
  const SelfClosingTags: set<string> :=
    {"area", "base", "br", "col", "embed", "hr", "img", "input", "link", "meta", "param", "source", "track", "wbr"}

  /** A fresh element as the parser creates it: no children, empty style, not focused. */
  function NewElement(tag: string, attributes: Attributes): (n: Node)
    ensures n.Element? && n.tag == tag && n.children == [] && n.style == map[]
  {
    Element(tag, attributes, [], map[], false)
  }

  // ---------------------------------------------------------------- size

  function Size(n: Node): (r: nat)
    ensures r >= 1
    decreases n, 1
  {
    match n
    case Text(_, _) => 1
    case Element(_, _, cs, _, _) => 1 + SizeAll(cs)
  }

  function SizeAll(cs: seq<Node>): nat
    decreases cs, 0
  {
    if cs == [] then 0 else SizeAll(cs[..|cs| - 1]) + Size(cs[|cs| - 1])
  }

  // ------------------------------------------------------------ treeToList

  /** The node followed by the pre-order lists of its children, in order. */
  function PreOrder(n: Node): seq<Node>
    decreases n, 1
  {
    match n
    case Text(_, _) => [n]
    case Element(_, _, cs, _, _) => [n] + PreOrderAll(cs)
  }

  function PreOrderAll(cs: seq<Node>): seq<Node>
    decreases cs, 0
  {
    if cs == [] then [] else PreOrderAll(cs[..|cs| - 1]) + PreOrder(cs[|cs| - 1])
  }

  /** The pre-order list starts with the root and holds every node of the tree once: its length is the tree's size. */
  lemma {:induction false} PreOrderSize(n: Node)
    ensures |PreOrder(n)| == Size(n)
    ensures PreOrder(n)[0] == n
    decreases n, 1
  {
    match n
    case Text(_, _) =>
    case Element(_, _, cs, _, _) => PreOrderAllSize(cs);
  }

  lemma {:induction false} PreOrderAllSize(cs: seq<Node>)
    ensures |PreOrderAll(cs)| == SizeAll(cs)
    decreases cs, 0
  {
    if cs != [] {
      PreOrderAllSize(cs[..|cs| - 1]);
      PreOrderSize(cs[|cs| - 1]);
    }
  }

  /** `Token.treeToList()`: the node first, then each child's list appended in turn. */
  method TreeToList(n: Node) returns (list: seq<Node>)
    ensures list == PreOrder(n)
    ensures |list| == Size(n) && list[0] == n
    decreases n
  {
    assert PreOrder(n) == [n] + PreOrderAll(n.Children());
    var cs := n.Children();
    list := [n];
    var i := 0;
    while i < |cs|
      invariant 0 <= i <= |cs|
      invariant list == [n] + PreOrderAll(cs[..i])
    {
      var sub := TreeToList(cs[i]);
      assert cs[..i + 1][..i] == cs[..i];
      list := list + sub;
      i := i + 1;
    }
    assert cs[..|cs|] == cs;
    PreOrderSize(n);
  }

  // -------------------------------------------------------------- printing

  /** One attribute as `Element.toString()` prints it: a blank value prints the bare key. */
  function AttributeText(key: string, value: string): string
  {
    if IsBlank(value) then key else key + "=\"" + value + "\""
  }

  function AttributeTexts(attrs: Attributes): (r: seq<string>)
    ensures |r| == |attrs|
    ensures forall i :: 0 <= i < |attrs| ==> r[i] == AttributeText(attrs[i].0, attrs[i].1)
  {
    if attrs == [] then [] else [AttributeText(attrs[0].0, attrs[0].1)] + AttributeTexts(attrs[1..])
  }

  /**
   * `Element.toString()`: `<tag>` or `<tag attrs>`, the attributes printed
   * by AttributeText, space-separated in insertion order; a blank listing
   * adds no space.
   */
  function OpenTagText(tag: string, attrs: Attributes): (r: string)
    ensures StartsWith(r, "<" + tag) && r[|r| - 1] == '>'
    ensures attrs == [] ==> r == "<" + tag + ">"
    ensures !IsBlank(Join(AttributeTexts(attrs), " ")) ==> r == "<" + tag + " " + Join(AttributeTexts(attrs), " ") + ">"
    ensures IsBlank(Join(AttributeTexts(attrs), " ")) ==> r == "<" + tag + Join(AttributeTexts(attrs), " ") + ">"
  {
    var a := Join(AttributeTexts(attrs), " ");
    var r := "<" + tag + (if IsBlank(a) then "" else " ") + a + ">";
    assert r[..|"<" + tag|] == "<" + tag;
    r
  }

  /**
   * One attribute with a value prints as `<tag key="value">`; with a blank
   * value it prints the bare key, `<tag key>`.
   */
  lemma OpenTagOneAttribute(tag: string, key: string, value: string)
    requires !IsBlank(key)
    ensures !IsBlank(value) ==> OpenTagText(tag, [(key, value)]) == "<" + tag + " " + key + "=\"" + value + "\">"
    ensures IsBlank(value) ==> OpenTagText(tag, [(key, value)]) == "<" + tag + " " + key + ">"
  {
    var t := AttributeText(key, value);
    assert AttributeTexts([(key, value)]) == [t];
    assert Join([t], " ") == t;
    assert !IsBlank(t) by {
      if !IsBlank(value) {
        assert t[..|key|] == key;
      }
    }
  }

  /** `toString()` of a node: the opening tag of an element, the text of a text node. */
  function NodeText(n: Node): string
  {
    match n
    case Element(tag, attrs, _, _, _) => OpenTagText(tag, attrs)
    case Text(text, _) => text
  }
}
