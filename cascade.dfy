// The cascade a tab runs over its document after parsing and after every
// re-render (Tab.kt, `Token.style()`, identical in both source trees):
// inherited properties are seeded from the parent, the matching rules are
// applied in ascending priority, the inline `style` attribute last, and a
// percentage font size is resolved against the parent's pixel size.

module Cascade {
  import opened Common
  import opened Strings
  import opened LinkedMaps
  import opened Dom
  import opened Css

  /** One entry of the tab's rule list: the default sheet's pairs, then each linked sheet's. */
  type Rule = (Selector, Body)

  /**
   * `(parentPx * nodePct).toInt()`: the float parse of the parent's size
   * (`None` when the parent has no font size) and of the node's percentage,
   * their product and its truncation.
   */
  type Scale = (Option<string>, string) -> int

  /** `inheritedProperties`, in declaration order. */
  const Inherited: LinkedMap<string, string> := [
    ("color", "black"), ("font-size", "16px"), ("font-style", "normal"),
    ("font-weight", "normal"), ("font-family", "sans-serif")]

  const InheritedNames: set<string> := {"color", "font-size", "font-style", "font-weight", "font-family"}

  // ----------------------------------------------------------- inheritance

  /** `parent?.style[property] ?: defaultValue` */
  function InheritedValue(parent: Option<Style>, property: string, default: string): string
  {
    if parent.Some? && property in parent.value then parent.value[property] else default
  }

  /** The first loop of `style()`: each property in `props` taken from the parent or its default. */
  function Seed(st: Style, parent: Option<Style>, props: LinkedMap<string, string>): (r: Style)
    decreases |props|
  {
    if props == [] then st
    else
      var e := props[|props| - 1];
      Seed(st, parent, props[..|props| - 1])[e.0 := InheritedValue(parent, e.0, e.1)]
  }

  /** What the seeding loop promises: the inherited properties from the parent (or the defaults), everything else kept. */
  function InheritedStyle(parent: Option<Style>): (r: Style)
    ensures r.Keys == InheritedNames
  {
    map[
      "color" := InheritedValue(parent, "color", "black"),
      "font-size" := InheritedValue(parent, "font-size", "16px"),
      "font-style" := InheritedValue(parent, "font-style", "normal"),
      "font-weight" := InheritedValue(parent, "font-weight", "normal"),
      "font-family" := InheritedValue(parent, "font-family", "sans-serif")]
  }

  lemma SeedInherited(st: Style, parent: Option<Style>)
    ensures Seed(st, parent, Inherited) == st + InheritedStyle(parent)
  {
    var p := Inherited;
    assert p[..5] == p;
    assert p[..5][..4] == p[..4] && p[..4][..3] == p[..3] && p[..3][..2] == p[..2];
    assert p[..2][..1] == p[..1] && p[..1][..0] == [];
    var s1 := Seed(st, parent, p[..1]);
    var s2 := Seed(st, parent, p[..2]);
    var s3 := Seed(st, parent, p[..3]);
    var s4 := Seed(st, parent, p[..4]);
    assert Seed(st, parent, []) == st;
    assert p[..1][0] == ("color", "black");
    assert s1 == st["color" := InheritedValue(parent, "color", "black")];
    assert p[..2][1] == ("font-size", "16px");
    assert s2 == s1["font-size" := InheritedValue(parent, "font-size", "16px")];
    assert p[..3][2] == ("font-style", "normal");
    assert s3 == s2["font-style" := InheritedValue(parent, "font-style", "normal")];
    assert p[..4][3] == ("font-weight", "normal");
    assert s4 == s3["font-weight" := InheritedValue(parent, "font-weight", "normal")];
    assert p[4] == ("font-family", "sans-serif");
  }

  // -------------------------------------------------------------- putAll

  /** `style.putAll(body)`: the body's entries in order, each overwriting. */
  function PutAllStyle(st: Style, body: Body): (r: Style)
    decreases |body|
  {
    if body == [] then st else PutAllStyle(st[body[0].0 := body[0].1], body[1..])
  }

  lemma MapOverride(a: Style, b: Style, k: string, v: string)
    requires k !in b
    ensures a[k := v] + b == a + b[k := v]
  {
  }

  /** For a declaration block without repeated keys, `putAll` is map override. */
  lemma {:induction false} PutAllStyleMerge(st: Style, body: Body)
    requires Valid(body)
    ensures PutAllStyle(st, body) == st + ToMap(body)
    decreases |body|
  {
    if body != [] {
      var k, v := body[0].0, body[0].1;
      var rest := body[1..];
      assert Keys(body) == [k] + Keys(rest);
      assert Valid(rest);
      assert k !in ToMap(rest);
      PutAllStyleMerge(st[k := v], rest);
      assert ToMap(body) == ToMap(rest)[k := v];
      MapOverride(st, ToMap(rest), k, v);
    }
  }

  // ------------------------------------------------------- the stable sort

  predicate SortedBy<T>(xs: seq<T>, key: T -> nat)
  {
    forall i, j :: 0 <= i < j < |xs| ==> key(xs[i]) <= key(xs[j])
  }

  /** Where `x` goes in a sorted list: the first element whose key is above its own, or the end. */
  function InsertPos<T>(x: T, xs: seq<T>, key: T -> nat, i: nat): (n: nat)
    requires i <= |xs|
    ensures i <= n <= |xs|
    ensures n < |xs| ==> key(x) < key(xs[n])
    decreases |xs| - i
  {
    if i == |xs| || key(x) < key(xs[i]) then i else InsertPos(x, xs, key, i + 1)
  }

  lemma {:induction false} InsertPosAfter<T>(x: T, xs: seq<T>, key: T -> nat, i: nat)
    requires i <= |xs|
    ensures forall k :: i <= k < InsertPos(x, xs, key, i) ==> key(xs[k]) <= key(x)
    decreases |xs| - i
  {
    if i < |xs| && key(xs[i]) <= key(x) {
      InsertPosAfter(x, xs, key, i + 1);
    }
  }

  /** Puts `x` after every element whose key is not above its own. */
  function InsertBy<T>(x: T, xs: seq<T>, key: T -> nat): (r: seq<T>)
  {
    var n := InsertPos(x, xs, key, 0);
    xs[..n] + [x] + xs[n..]
  }

  lemma InsertSorted<T>(x: T, xs: seq<T>, key: T -> nat)
    requires SortedBy(xs, key)
    ensures SortedBy(InsertBy(x, xs, key), key)
  {
    var n := InsertPos(x, xs, key, 0);
    InsertPosAfter(x, xs, key, 0);
    var r := InsertBy(x, xs, key);
    assert forall k :: 0 <= k < n ==> r[k] == xs[k];
    assert r[n] == x;
    assert forall k :: n < k < |r| ==> r[k] == xs[k - 1];
    forall i, j | 0 <= i < j < |r|
      ensures key(r[i]) <= key(r[j])
    {
      if j == n {
      } else if i == n {
        assert key(x) < key(xs[n]) <= key(xs[j - 1]);
      } else if i < n && n < j {
        assert key(xs[i]) <= key(x) < key(xs[n]) <= key(xs[j - 1]);
      }
    }
  }

  lemma InsertCount<T>(x: T, xs: seq<T>, key: T -> nat)
    ensures multiset(InsertBy(x, xs, key)) == multiset(xs) + multiset{x}
  {
    var n := InsertPos(x, xs, key, 0);
    assert xs == xs[..n] + xs[n..];
  }

  /** Kotlin's `sortedBy`: a stable sort on a key, here by insertion. */
  function SortBy<T>(xs: seq<T>, key: T -> nat): (r: seq<T>)
    ensures SortedBy(r, key)
    ensures multiset(r) == multiset(xs)
  {
    if xs == [] then []
    else
      var init := xs[..|xs| - 1];
      assert xs == init + [xs[|xs| - 1]];
      InsertSorted(xs[|xs| - 1], SortBy(init, key), key);
      InsertCount(xs[|xs| - 1], SortBy(init, key), key);
      InsertBy(xs[|xs| - 1], SortBy(init, key), key)
  }

  /** The elements with key `p`, in their order. */
  function Level<T>(xs: seq<T>, key: T -> nat, p: nat): seq<T>
  {
    if xs == [] then [] else (if key(xs[0]) == p then [xs[0]] else []) + Level(xs[1..], key, p)
  }

  lemma {:induction false} LevelAppend<T>(a: seq<T>, b: seq<T>, key: T -> nat, p: nat)
    ensures Level(a + b, key, p) == Level(a, key, p) + Level(b, key, p)
    decreases |a|
  {
    if a != [] {
      assert (a + b)[1..] == a[1..] + b;
      LevelAppend(a[1..], b, key, p);
    } else {
      assert a + b == b;
    }
  }

  lemma {:induction false} LevelNone<T>(xs: seq<T>, key: T -> nat, p: nat)
    requires forall k :: 0 <= k < |xs| ==> key(xs[k]) != p
    ensures Level(xs, key, p) == []
    decreases |xs|
  {
    if xs != [] {
      LevelNone(xs[1..], key, p);
    }
  }

  lemma InsertPosRest<T>(x: T, xs: seq<T>, key: T -> nat)
    requires SortedBy(xs, key)
    ensures forall k :: InsertPos(x, xs, key, 0) <= k < |xs| ==> key(x) < key(xs[k])
  {
    var n := InsertPos(x, xs, key, 0);
    forall k | n <= k < |xs| ensures key(x) < key(xs[k]) {
      assert key(xs[n]) <= key(xs[k]);
    }
  }

  /** Inserting `x` before elements of larger keys only appends it to its own level. */
  lemma LevelSplit<T>(a: seq<T>, x: T, b: seq<T>, key: T -> nat, p: nat)
    requires forall k :: 0 <= k < |b| ==> key(x) < key(b[k])
    ensures Level(a + [x] + b, key, p) == Level(a + b, key, p) + Level([x], key, p)
  {
    if key(x) == p {
      LevelSplitOwn(a, x, b, key, p);
    } else {
      LevelSplitOther(a, x, b, key, p);
    }
  }

  lemma LevelSplitOwn<T>(a: seq<T>, x: T, b: seq<T>, key: T -> nat, p: nat)
    requires key(x) == p
    requires forall k :: 0 <= k < |b| ==> key(x) < key(b[k])
    ensures Level(a + [x] + b, key, p) == Level(a + b, key, p) + Level([x], key, p)
  {
    LevelAppend(a + [x], b, key, p);
    LevelAppend(a, [x], key, p);
    LevelAppend(a, b, key, p);
    assert forall k :: 0 <= k < |b| ==> key(b[k]) != p;
    LevelNone(b, key, p);
    var la, lx := Level(a, key, p), Level([x], key, p);
    assert la + lx + [] == la + lx;
    assert la + [] == la;
  }

  lemma LevelSplitOther<T>(a: seq<T>, x: T, b: seq<T>, key: T -> nat, p: nat)
    requires key(x) != p
    ensures Level(a + [x] + b, key, p) == Level(a + b, key, p) + Level([x], key, p)
  {
    LevelAppend(a + [x], b, key, p);
    LevelAppend(a, [x], key, p);
    LevelAppend(a, b, key, p);
    assert Level([x], key, p) == [];
  }

  lemma LevelInsert<T>(x: T, xs: seq<T>, key: T -> nat, p: nat)
    requires forall k :: InsertPos(x, xs, key, 0) <= k < |xs| ==> key(x) < key(xs[k])
    ensures Level(InsertBy(x, xs, key), key, p) == Level(xs, key, p) + Level([x], key, p)
  {
    var n := InsertPos(x, xs, key, 0);
    var a, b := xs[..n], xs[n..];
    forall k | 0 <= k < |b| ensures key(x) < key(b[k]) {
      assert b[k] == xs[n + k];
    }
    LevelSplit(a, x, b, key, p);
    assert a + b == xs;
  }

  /** Stability: the elements of equal key keep their original order. */
  lemma {:induction false} SortStable<T>(xs: seq<T>, key: T -> nat, p: nat)
    ensures Level(SortBy(xs, key), key, p) == Level(xs, key, p)
    decreases |xs|
  {
    if xs != [] {
      var init := xs[..|xs| - 1];
      var last := xs[|xs| - 1];
      SortStable(init, key, p);
      InsertPosRest(last, SortBy(init, key), key);
      LevelInsert(last, SortBy(init, key), key, p);
      assert xs == init + [last];
      LevelAppend(init, [last], key, p);
    }
  }

  /** `cascadePriority()`, which is the selector's priority. */
  function RuleKey(r: Rule): nat
  {
    Priority(r.0)
  }

  /** `rules.sortedBy { it.first.cascadePriority() }` */
  function SortByPriority(rules: seq<Rule>): (r: seq<Rule>)
    ensures SortedBy(r, RuleKey)
    ensures multiset(r) == multiset(rules)
  {
    SortBy(rules, RuleKey)
  }

  // ----------------------------------------------------- applying rules

  /** The rule loop: the body of every matching rule, in list order, put over the style. */
  function ApplyRules(st: Style, rs: seq<Rule>, node: Node, ancestors: seq<Node>): Style
    decreases |rs|
  {
    if rs == [] then st
    else
      var prev := ApplyRules(st, rs[..|rs| - 1], node, ancestors);
      var (sel, body) := rs[|rs| - 1];
      if Matches(sel, node, ancestors) then PutAllStyle(prev, body) else prev
  }

  predicate Declares(r: Rule, node: Node, ancestors: seq<Node>, property: string)
  {
    Matches(r.0, node, ancestors) && property in Keys(r.1)
  }

  /** The last rule in `rs` that matches the node and declares `property`, or -1. */
  function Decider(rs: seq<Rule>, node: Node, ancestors: seq<Node>, property: string): (j: int)
    ensures -1 <= j < |rs|
    ensures j >= 0 ==> Declares(rs[j], node, ancestors, property)
    ensures forall i :: j < i < |rs| ==> !Declares(rs[i], node, ancestors, property)
  {
    if rs == [] then -1
    else if Declares(rs[|rs| - 1], node, ancestors, property) then |rs| - 1
    else
      var init := rs[..|rs| - 1];
      var j := Decider(init, node, ancestors, property);
      assert forall i :: j < i < |init| ==> rs[i] == init[i];
      j
  }

  predicate BodiesValid(rs: seq<Rule>)
  {
    forall k :: 0 <= k < |rs| ==> Valid(rs[k].1)
  }

  /** Later rules overwrite earlier ones: the value is that of the last matching rule declaring the property. */
  lemma {:induction false} ApplyRulesDecided(st: Style, rs: seq<Rule>, node: Node, ancestors: seq<Node>, property: string)
    requires BodiesValid(rs)
    ensures var r := ApplyRules(st, rs, node, ancestors);
      var j := Decider(rs, node, ancestors, property);
      (j == -1 ==> (property in r <==> property in st) && (property in st ==> r[property] == st[property])) &&
      (j >= 0 ==> property in r && Some(r[property]) == Get(rs[j].1, property))
    decreases |rs|
  {
    if rs != [] {
      var init := rs[..|rs| - 1];
      var (sel, body) := rs[|rs| - 1];
      assert BodiesValid(init) by {
        forall k | 0 <= k < |init| ensures Valid(init[k].1) { assert init[k] == rs[k]; }
      }
      ApplyRulesDecided(st, init, node, ancestors, property);
      var prev := ApplyRules(st, init, node, ancestors);
      if Matches(sel, node, ancestors) {
        PutAllStyleMerge(prev, body);
      }
    }
  }

  /**
   * The cascade order: after sorting, the deciding rule has the highest
   * priority of all the rules that match the node and declare the property.
   */
  lemma HighestPriorityDecides(rules: seq<Rule>, node: Node, ancestors: seq<Node>, property: string)
    ensures var sorted := SortByPriority(rules);
      var j := Decider(sorted, node, ancestors, property);
      (j == -1 <==> forall e | e in rules :: !Declares(e, node, ancestors, property)) &&
      (j >= 0 ==> (sorted[j] in rules &&
        forall e | e in rules && Declares(e, node, ancestors, property) :: Priority(e.0) <= Priority(sorted[j].0)))
  {
    var sorted := SortByPriority(rules);
    SortedMembers(rules);
    var j := Decider(sorted, node, ancestors, property);
    forall e | e in rules && Declares(e, node, ancestors, property)
      ensures j >= 0 && Priority(e.0) <= Priority(sorted[j].0)
    {
      var i :| 0 <= i < |sorted| && sorted[i] == e;
      assert i <= j;
    }
  }

  /** Sorting keeps exactly the rules it was given. */
  lemma SortedMembers(rules: seq<Rule>)
    ensures forall e :: e in SortByPriority(rules) <==> e in rules
  {
    var sorted := SortByPriority(rules);
    forall e
      ensures e in sorted <==> e in rules
    {
      assert e in sorted <==> e in multiset(sorted);
      assert e in rules <==> e in multiset(rules);
    }
  }

  // ------------------------------------------------ inline style and sizes

  /** `if (this is Element && "style" in attributes) style.putAll(CssParser(attributes["style"]).body())` */
  function InlineStyle(st: Style, node: Node): Style
  {
    match node.Attribute("style")
    case None => st
    case Some(text) => PutAllStyle(st, ParseBody(text))
  }

  /** The parent's font size as `style()` reads it: the parent's entry, or the default at the root. */
  function ParentFontSize(parent: Option<Style>): Option<string>
  {
    if parent.None? then Some("16px")
    else if "font-size" in parent.value then Some(parent.value["font-size"])
    else None
  }

  /** A percentage font size becomes `<n>px`; anything else is left alone. */
  function ResolveFontSize(st: Style, parent: Option<Style>, scale: Scale): (r: Style)
    ensures r.Keys == st.Keys
    ensures forall k | k in st && k != "font-size" :: r[k] == st[k]
    ensures "font-size" in r ==> !EndsWith(r["font-size"], "%")
    ensures "font-size" in st && !EndsWith(st["font-size"], "%") ==> r == st
  {
    if "font-size" in st && EndsWith(st["font-size"], "%") then
      var px := IntToString(scale(ParentFontSize(parent), st["font-size"])) + "px";
      assert px[|px| - 1] == 'x';
      st["font-size" := px]
    else
      st
  }

  // ---------------------------------------------------------- one node

  /** The style `style()` leaves on one node, given its parent's finished style. */
  function StyleOf(node: Node, parent: Option<Style>, ancestors: seq<Node>, rules: seq<Rule>, scale: Scale): Style
  {
    var seeded := Seed(node.style, parent, Inherited);
    var cascaded := ApplyRules(seeded, SortByPriority(rules), node, ancestors);
    ResolveFontSize(InlineStyle(cascaded, node), parent, scale)
  }

  /** No styled node keeps a percentage font size, and all inherited properties are present. */
  lemma StyleOfResolved(node: Node, parent: Option<Style>, ancestors: seq<Node>, rules: seq<Rule>, scale: Scale)
    ensures var st := StyleOf(node, parent, ancestors, rules, scale);
      InheritedNames <= st.Keys && !EndsWith(st["font-size"], "%")
  {
    var seeded := Seed(node.style, parent, Inherited);
    SeedInherited(node.style, parent);
    var sorted := SortByPriority(rules);
    var cascaded := ApplyRules(seeded, sorted, node, ancestors);
    ApplyRulesKeeps(seeded, sorted, node, ancestors);
    var inline := InlineStyle(cascaded, node);
    if node.Attribute("style").Some? {
      PutAllStyleKeeps(cascaded, ParseBody(node.Attribute("style").value));
    }
  }

  lemma {:induction false} PutAllStyleKeeps(st: Style, body: Body)
    ensures st.Keys <= PutAllStyle(st, body).Keys
    decreases |body|
  {
    if body != [] {
      PutAllStyleKeeps(st[body[0].0 := body[0].1], body[1..]);
    }
  }

  lemma {:induction false} ApplyRulesKeeps(st: Style, rs: seq<Rule>, node: Node, ancestors: seq<Node>)
    ensures st.Keys <= ApplyRules(st, rs, node, ancestors).Keys
    decreases |rs|
  {
    if rs != [] {
      var prev := ApplyRules(st, rs[..|rs| - 1], node, ancestors);
      ApplyRulesKeeps(st, rs[..|rs| - 1], node, ancestors);
      PutAllStyleKeeps(prev, rs[|rs| - 1].1);
    }
  }

  /** The inline `style` attribute is applied last, so it wins over every rule. */
  lemma InlineWins(node: Node, parent: Option<Style>, ancestors: seq<Node>, rules: seq<Rule>, scale: Scale, property: string)
    requires node.Attribute("style").Some?
    requires property in Keys(ParseBody(node.Attribute("style").value))
    requires property != "font-size" || !EndsWith(Get(ParseBody(node.Attribute("style").value), property).value, "%")
    ensures var st := StyleOf(node, parent, ancestors, rules, scale);
      property in st && Some(st[property]) == Get(ParseBody(node.Attribute("style").value), property)
  {
    var body := ParseBody(node.Attribute("style").value);
    var cascaded := ApplyRules(Seed(node.style, parent, Inherited), SortByPriority(rules), node, ancestors);
    PutAllStyleMerge(cascaded, body);
    assert property in ToMap(body);
  }

  /**
   * Without an inline declaration, a property is decided by the deciding rule
   * (the highest-priority matching rule that declares it, see
   * HighestPriorityDecides); a percentage font size is then resolved.
   */
  lemma RuleWins(node: Node, parent: Option<Style>, ancestors: seq<Node>, rules: seq<Rule>, scale: Scale, property: string)
    requires BodiesValid(rules)
    requires property != "font-size"
    requires node.Attribute("style").None? || property !in Keys(ParseBody(node.Attribute("style").value))
    requires Decider(SortByPriority(rules), node, ancestors, property) >= 0
    ensures var sorted := SortByPriority(rules);
      var st := StyleOf(node, parent, ancestors, rules, scale);
      property in st && Some(st[property]) == Get(sorted[Decider(sorted, node, ancestors, property)].1, property)
  {
    var sorted := SortByPriority(rules);
    SortedBodiesValid(rules);
    var seeded := Seed(node.style, parent, Inherited);
    ApplyRulesDecided(seeded, sorted, node, ancestors, property);
    var cascaded := ApplyRules(seeded, sorted, node, ancestors);
    if node.Attribute("style").Some? {
      var body := ParseBody(node.Attribute("style").value);
      PutAllStyleMerge(cascaded, body);
    }
  }

  /** A property that no matching rule and no inline declaration sets is inherited from the parent, or defaulted at the root. */
  lemma InheritedWhenUnset(node: Node, parent: Option<Style>, ancestors: seq<Node>, rules: seq<Rule>, scale: Scale, property: string)
    requires BodiesValid(rules)
    requires property in InheritedNames && property != "font-size"
    requires forall e | e in rules :: !Declares(e, node, ancestors, property)
    requires node.Attribute("style").None? || property !in Keys(ParseBody(node.Attribute("style").value))
    ensures var st := StyleOf(node, parent, ancestors, rules, scale);
      property in st && st[property] == InheritedStyle(parent)[property]
  {
    var seeded := Seed(node.style, parent, Inherited);
    SeedInherited(node.style, parent);
    assert property in seeded && seeded[property] == InheritedStyle(parent)[property];
    CascadeUntouched(seeded, rules, node, ancestors, property);
    InlineUntouched(ApplyRules(seeded, SortByPriority(rules), node, ancestors), node, property);
  }

  /** A property no matching rule declares keeps its value through the rule loop. */
  lemma CascadeUntouched(st: Style, rules: seq<Rule>, node: Node, ancestors: seq<Node>, property: string)
    requires BodiesValid(rules)
    requires forall e | e in rules :: !Declares(e, node, ancestors, property)
    ensures var r := ApplyRules(st, SortByPriority(rules), node, ancestors);
      (property in r <==> property in st) && (property in st ==> r[property] == st[property])
  {
    SortedBodiesValid(rules);
    HighestPriorityDecides(rules, node, ancestors, property);
    ApplyRulesDecided(st, SortByPriority(rules), node, ancestors, property);
  }

  /** A property the inline style does not declare keeps its value. */
  lemma InlineUntouched(st: Style, node: Node, property: string)
    requires node.Attribute("style").None? || property !in Keys(ParseBody(node.Attribute("style").value))
    ensures var r := InlineStyle(st, node);
      (property in r <==> property in st) && (property in st ==> r[property] == st[property])
  {
    if node.Attribute("style").Some? {
      PutAllStyleMerge(st, ParseBody(node.Attribute("style").value));
    }
  }

  lemma SortedBodiesValid(rules: seq<Rule>)
    requires BodiesValid(rules)
    ensures BodiesValid(SortByPriority(rules))
  {
    var sorted := SortByPriority(rules);
    SortedMembers(rules);
    forall k | 0 <= k < |sorted| ensures Valid(sorted[k].1)
    {
      assert sorted[k] in rules;
      var i :| 0 <= i < |rules| && rules[i] == sorted[k];
    }
  }

  // ------------------------------------------------------------ the tree

  /**
   * `style()` over a subtree: the node first, then each child with this
   * node's finished style as its parent style. Selector matching reads only
   * tags and attributes, which styling does not change, so the ancestor
   * chain holds the nodes as they were.
   */
  function Styled(n: Node, parent: Option<Style>, ancestors: seq<Node>, rules: seq<Rule>, scale: Scale): (r: Node)
    decreases n, 1
  {
    var st := StyleOf(n, parent, ancestors, rules, scale);
    match n
    case Text(t, _) => Text(t, st)
    case Element(tag, attrs, cs, _, focused) =>
      Element(tag, attrs, StyledAll(cs, Some(st), ancestors + [n], rules, scale), st, focused)
  }

  function StyledAll(cs: seq<Node>, parent: Option<Style>, ancestors: seq<Node>, rules: seq<Rule>, scale: Scale): (r: seq<Node>)
    ensures |r| == |cs|
    decreases cs, 0
  {
    if cs == [] then [] else StyledAll(cs[..|cs| - 1], parent, ancestors, rules, scale) + [Styled(cs[|cs| - 1], parent, ancestors, rules, scale)]
  }

  /** The tree with every style map emptied: what styling must not change. */
  function Unstyled(n: Node): Node
    decreases n, 1
  {
    match n
    case Text(t, _) => Text(t, map[])
    case Element(tag, attrs, cs, _, focused) => Element(tag, attrs, UnstyledAll(cs), map[], focused)
  }

  function UnstyledAll(cs: seq<Node>): seq<Node>
    decreases cs, 0
  {
    if cs == [] then [] else UnstyledAll(cs[..|cs| - 1]) + [Unstyled(cs[|cs| - 1])]
  }

  /** Every node of the tree has all inherited properties and no percentage font size. */
  predicate Resolved(n: Node)
    decreases n, 1
  {
    InheritedNames <= n.style.Keys && !EndsWith(n.style["font-size"], "%") &&
    (n.Element? ==> ResolvedAll(n.children))
  }

  predicate ResolvedAll(cs: seq<Node>)
    decreases cs, 0
  {
    cs != [] ==> ResolvedAll(cs[..|cs| - 1]) && Resolved(cs[|cs| - 1])
  }

  /** Styling changes styles only: tags, attributes, text, focus and the shape of the tree stay. */
  lemma {:induction false} StyledKeepsTree(n: Node, parent: Option<Style>, ancestors: seq<Node>, rules: seq<Rule>, scale: Scale)
    ensures Unstyled(Styled(n, parent, ancestors, rules, scale)) == Unstyled(n)
    decreases n, 1
  {
    if n.Element? {
      StyledAllKeepsTree(n.children, Some(StyleOf(n, parent, ancestors, rules, scale)), ancestors + [n], rules, scale);
    }
  }

  lemma {:induction false} StyledAllKeepsTree(cs: seq<Node>, parent: Option<Style>, ancestors: seq<Node>, rules: seq<Rule>, scale: Scale)
    ensures UnstyledAll(StyledAll(cs, parent, ancestors, rules, scale)) == UnstyledAll(cs)
    decreases cs, 0
  {
    if cs != [] {
      var init := cs[..|cs| - 1];
      var r := StyledAll(cs, parent, ancestors, rules, scale);
      StyledAllKeepsTree(init, parent, ancestors, rules, scale);
      StyledKeepsTree(cs[|cs| - 1], parent, ancestors, rules, scale);
      assert r[..|r| - 1] == StyledAll(init, parent, ancestors, rules, scale);
    }
  }

  /** After `style()` no node anywhere keeps a percentage font size. */
  lemma {:induction false} StyledResolved(n: Node, parent: Option<Style>, ancestors: seq<Node>, rules: seq<Rule>, scale: Scale)
    ensures Resolved(Styled(n, parent, ancestors, rules, scale))
    decreases n, 1
  {
    StyleOfResolved(n, parent, ancestors, rules, scale);
    if n.Element? {
      StyledAllResolved(n.children, Some(StyleOf(n, parent, ancestors, rules, scale)), ancestors + [n], rules, scale);
    }
  }

  lemma {:induction false} StyledAllResolved(cs: seq<Node>, parent: Option<Style>, ancestors: seq<Node>, rules: seq<Rule>, scale: Scale)
    ensures ResolvedAll(StyledAll(cs, parent, ancestors, rules, scale))
    decreases cs, 0
  {
    if cs != [] {
      var init := cs[..|cs| - 1];
      var r := StyledAll(cs, parent, ancestors, rules, scale);
      StyledAllResolved(init, parent, ancestors, rules, scale);
      StyledResolved(cs[|cs| - 1], parent, ancestors, rules, scale);
      assert r[..|r| - 1] == StyledAll(init, parent, ancestors, rules, scale);
    }
  }

  // ------------------------------------------------------- the procedure

  /** `style.putAll(body)` as the loop it is. */
  method PutAllInto(st: Style, body: Body) returns (r: Style)
    ensures r == PutAllStyle(st, body)
  {
    r := st;
    var i := 0;
    while i < |body|
      invariant 0 <= i <= |body|
      invariant PutAllStyle(r, body[i..]) == PutAllStyle(st, body)
    {
      assert body[i..][1..] == body[i + 1..];
      r := r[body[i].0 := body[i].1];
      i := i + 1;
    }
  }

  /** The loop over `inheritedProperties`. */
  method SeedNode(st0: Style, parent: Option<Style>) returns (st: Style)
    ensures st == Seed(st0, parent, Inherited)
  {
    st := st0;
    for k := 0 to |Inherited|
      invariant st == Seed(st0, parent, Inherited[..k])
    {
      assert Inherited[..k + 1][..k] == Inherited[..k];
      var e := Inherited[k];
      st := st[e.0 := InheritedValue(parent, e.0, e.1)];
    }
    assert Inherited[..|Inherited|] == Inherited;
  }

  /** The loop over the sorted rules. */
  method ApplyNode(st0: Style, sorted: seq<Rule>, node: Node, ancestors: seq<Node>) returns (st: Style)
    ensures st == ApplyRules(st0, sorted, node, ancestors)
  {
    st := st0;
    for j := 0 to |sorted|
      invariant st == ApplyRules(st0, sorted[..j], node, ancestors)
    {
      assert sorted[..j + 1][..j] == sorted[..j];
      if Matches(sorted[j].0, node, ancestors) {
        st := PutAllInto(st, sorted[j].1);
      }
    }
    assert sorted[..|sorted|] == sorted;
  }

  /** `Token.style()` for one node. */
  method StyleNode(node: Node, parent: Option<Style>, ancestors: seq<Node>, rules: seq<Rule>, scale: Scale) returns (st: Style)
    ensures st == StyleOf(node, parent, ancestors, rules, scale)
  {
    st := SeedNode(node.style, parent);
    st := ApplyNode(st, SortByPriority(rules), node, ancestors);
    var inline := node.Attribute("style");
    if inline.Some? {
      st := PutAllInto(st, ParseBody(inline.value));
    }
    if "font-size" in st && EndsWith(st["font-size"], "%") {
      st := st["font-size" := IntToString(scale(ParentFontSize(parent), st["font-size"])) + "px"];
    }
  }

  /** `style()` over a subtree: the node, then `children.forEach { it.style() }`. */
  method StyleTree(n: Node, parent: Option<Style>, ancestors: seq<Node>, rules: seq<Rule>, scale: Scale) returns (r: Node)
    ensures r == Styled(n, parent, ancestors, rules, scale)
    decreases n
  {
    var st := StyleNode(n, parent, ancestors, rules, scale);
    if n.Text? {
      return Text(n.text, st);
    }
    var styled: seq<Node> := [];
    for k := 0 to |n.children|
      invariant styled == StyledAll(n.children[..k], Some(st), ancestors + [n], rules, scale)
    {
      assert n.children[..k + 1][..k] == n.children[..k];
      var child := StyleTree(n.children[k], Some(st), ancestors + [n], rules, scale);
      styled := styled + [child];
    }
    assert n.children[..|n.children|] == n.children;
    r := Element(n.tag, n.attributes, styled, st, n.focused);
  }
}
