// The style-sheet parser (CssParser.kt): a recursive-descent parser that
// advances an index `i` through the text, skips a malformed declaration or rule
// and carries on, and builds a small selector tree whose priority is a reduced
// form of CSS 2.1 specificity (section 6.4.3 of CSS 2.1).
//
// Each parsing routine is a method of `CssParser` that moves `i`, proved
// against a function on (text, start position) that says where it stops and
// what it returns; the properties are proved about those functions.

module Css {
  import opened Common
  import opened Strings
  import opened LinkedMaps
  import opened Dom

  // ------------------------------------------------------------- selectors

  datatype Selector =
    | TagSelector(tag: string)
    | ClassSelector(tagName: Option<string>, classes: seq<string>)
    | DescendantSelector(ancestor: Selector, descendant: Selector)
      /** A list always holds at least the selector it was created from. */
    | ListSelector(first: Selector, rest: seq<Selector>)

  /** A declaration block: property name to value, in insertion order. */
  type Body = LinkedMap<string, string>
  /** The parsed sheet: selector to declaration block, in insertion order. */
  type Rules = LinkedMap<Selector, Body>

  /** `ListSelector.add`: one more alternative at the end. */
  function Add(list: Selector, sel: Selector): (r: Selector)
    requires list.ListSelector?
    ensures r.ListSelector? && r.first == list.first && r.rest == list.rest + [sel]
  {
    list.(rest := list.rest + [sel])
  }

  /** `priority`: 1 for a tag, tag part plus class count for a class selector, the sum for a descendant, the maximum for a list. */
  function Priority(sel: Selector): nat
    decreases sel, 1
  {
    match sel
    case TagSelector(_) => 1
    case ClassSelector(tag, classes) => (if tag.Some? then 1 else 0) + |classes|
    case DescendantSelector(a, d) => Priority(a) + Priority(d)
    case ListSelector(f, rest) => Max(Priority(f), MaxPriority(rest))
  }

  /** `maxOf { it.cascadePriority() }`, with 0 for no selectors. */
  function MaxPriority(sels: seq<Selector>): (r: nat)
    ensures forall k :: 0 <= k < |sels| ==> Priority(sels[k]) <= r
    ensures sels == [] ==> r == 0
    ensures sels != [] ==> exists k :: 0 <= k < |sels| && r == Priority(sels[k])
    decreases sels, 0
  {
    if sels == [] then 0
    else
      var init := sels[..|sels| - 1];
      var r := Max(MaxPriority(init), Priority(sels[|sels| - 1]));
      assert forall k :: 0 <= k < |init| ==> init[k] == sels[k];
      r
  }

  /** A list's priority is that of its highest-priority member. */
  lemma ListPriority(first: Selector, rest: seq<Selector>)
    ensures var all := [first] + rest;
      (forall k :: 0 <= k < |all| ==> Priority(all[k]) <= Priority(ListSelector(first, rest)))
      && exists k :: 0 <= k < |all| && Priority(all[k]) == Priority(ListSelector(first, rest))
  {
    var all := [first] + rest;
    assert all[0] == first;
    assert forall k :: 0 <= k < |rest| ==> all[k + 1] == rest[k];
    if rest != [] && MaxPriority(rest) > Priority(first) {
      var k :| 0 <= k < |rest| && MaxPriority(rest) == Priority(rest[k]);
      assert all[k + 1] == rest[k];
    }
  }

  // --------------------------------------------------------------- matching

  /**
   * `matches(node)`. `ancestors` is the node's chain of parents, the root first
   * and the parent last; the chain of `ancestors[k]` is `ancestors[..k]`.
   */
  predicate Matches(sel: Selector, node: Node, ancestors: seq<Node>)
    decreases sel, 1
  {
    match sel
    case TagSelector(tag) => node.Element? && node.tag == tag
    case ClassSelector(tag, classes) => ClassMatches(tag, classes, node)
    case DescendantSelector(a, d) => Matches(d, node, ancestors) && AncestorMatches(a, ancestors)
    case ListSelector(f, rest) => Matches(f, node, ancestors) || AnyMatches(rest, node, ancestors)
  }

  /** Walks the parent links from the parent upwards, looking for a match of `a`. */
  predicate AncestorMatches(a: Selector, ancestors: seq<Node>)
    decreases a, 2, |ancestors|
  {
    |ancestors| > 0 &&
    var parent := |ancestors| - 1;
    (Matches(a, ancestors[parent], ancestors[..parent]) || AncestorMatches(a, ancestors[..parent]))
  }

  predicate AnyMatches(sels: seq<Selector>, node: Node, ancestors: seq<Node>)
    decreases sels, 0
  {
    sels != [] && (AnyMatches(sels[..|sels| - 1], node, ancestors) || Matches(sels[|sels| - 1], node, ancestors))
  }

  /**
   * The class test as the selector writes it: an element with a `class`
   * attribute whose space-separated tokens are ALL among the selector's
   * classes (the reverse of the CSS rule), and whose tag agrees when given.
   */
  predicate ClassMatches(tag: Option<string>, classes: seq<string>, node: Node)
  {
    node.Element? && (tag.None? || tag.value == node.tag) &&
    match node.Attribute("class")
    case None => false
    case Some(value) =>
      var tokens := SplitOn(value, {' '});
      forall k :: 0 <= k < |tokens| ==> tokens[k] in classes
  }

  /** Descendant matching: the right part matches the node and the left part matches some strict ancestor. */
  lemma {:induction false} AncestorMatchesSome(a: Selector, ancestors: seq<Node>)
    ensures AncestorMatches(a, ancestors) <==>
      exists k :: 0 <= k < |ancestors| && Matches(a, ancestors[k], ancestors[..k])
    decreases |ancestors|
  {
    if |ancestors| > 0 {
      var parent := |ancestors| - 1;
      var init := ancestors[..parent];
      AncestorMatchesSome(a, init);
      assert forall k :: 0 <= k < |init| ==> init[k] == ancestors[k] && init[..k] == ancestors[..k];
    }
  }

  /** A list matches exactly when one of its members matches. */
  lemma {:induction false} AnyMatchesSome(sels: seq<Selector>, node: Node, ancestors: seq<Node>)
    ensures AnyMatches(sels, node, ancestors) <==> exists k :: 0 <= k < |sels| && Matches(sels[k], node, ancestors)
    decreases |sels|
  {
    if sels != [] {
      var init := sels[..|sels| - 1];
      AnyMatchesSome(init, node, ancestors);
      assert forall k :: 0 <= k < |init| ==> init[k] == sels[k];
    }
  }

  /** Every selector needs an element: a text node matches nothing. */
  lemma {:induction false} TextMatchesNothing(sel: Selector, node: Node, ancestors: seq<Node>)
    requires node.Text?
    ensures !Matches(sel, node, ancestors)
    decreases sel, 1
  {
    match sel
    case TagSelector(_) =>
    case ClassSelector(_, _) =>
    case DescendantSelector(a, d) => TextMatchesNothing(d, node, ancestors);
    case ListSelector(f, rest) =>
      TextMatchesNothing(f, node, ancestors);
      TextNoneMatch(rest, node, ancestors);
  }

  lemma {:induction false} TextNoneMatch(sels: seq<Selector>, node: Node, ancestors: seq<Node>)
    requires node.Text?
    ensures !AnyMatches(sels, node, ancestors)
    decreases sels, 0
  {
    if sels != [] {
      TextNoneMatch(sels[..|sels| - 1], node, ancestors);
      TextMatchesNothing(sels[|sels| - 1], node, ancestors);
    }
  }

  /** The inverted class test: `.a` does not match `class="a b"`, but `.a.b` matches `class="a"`. */
  lemma ClassTestInverted()
    ensures !Matches(ClassSelector(None, ["a"]), Element("p", [("class", "a b")], [], map[], false), [])
    ensures Matches(ClassSelector(None, ["a", "b"]), Element("p", [("class", "a")], [], map[], false), [])
  {
    var one: string := "a";
    assert Get([("class", one)], "class") == Some(one);
    assert SplitOn(one, {' '}) == [one];
    var two: string := "a b";
    assert Get([("class", two)], "class") == Some(two);
    assert FirstIn(two, {' '}, 1) == 1;
    assert SplitOn(two, {' '})[0] == "a";
    assert SplitOn(two, {' '})[1..] == SplitOn("b", {' '}) == ["b"];
    var node := Element("p", [("class", two)], [], map[], false);
    assert node.Attribute("class") == Some(two);
    assert SplitOn(two, {' '})[1] !in ["a"];
    assert !ClassMatches(None, ["a"], node);
  }

  /**
   * The class test as CSS means it: every class of the selector is one of
   * the element's space-separated `class` tokens, and the tag agrees when given.
   */
  predicate ClassMatchesIntended(tag: Option<string>, classes: seq<string>, node: Node)
  {
    node.Element? && (tag.None? || tag.value == node.tag) &&
    match node.Attribute("class")
    case None => false
    case Some(value) =>
      var tokens := SplitOn(value, {' '});
      forall k :: 0 <= k < |classes| ==> classes[k] in tokens
  }

  /** The intended test gets both inverted examples right: `.a` matches `class="a b"`, `.a.b` does not match `class="a"`. */
  lemma ClassTestIntended()
    ensures ClassMatchesIntended(None, ["a"], Element("p", [("class", "a b")], [], map[], false))
    ensures !ClassMatchesIntended(None, ["a", "b"], Element("p", [("class", "a")], [], map[], false))
  {
    var one: string := "a";
    assert Get([("class", one)], "class") == Some(one);
    assert SplitOn(one, {' '}) == [one];
    var two: string := "a b";
    assert Get([("class", two)], "class") == Some(two);
    assert FirstIn(two, {' '}, 1) == 1;
    assert SplitOn(two, {' '})[0] == "a";
    var b: string := "b";
    assert b !in SplitOn(one, {' '});
    var sel: seq<string> := [one, b];
    assert sel[1] == b;
    var node := Element("p", [("class", one)], [], map[], false);
    assert node.Attribute("class") == Some(one);
    assert one in SplitOn(two, {' '});
  }

  /**
   * The two tests ask the containment in opposite directions, so they agree
   * exactly when the element's tokens and the selector's classes are the
   * same set.
   */
  lemma ClassTestsAgreeOnSameSet(tag: Option<string>, classes: seq<string>, node: Node)
    requires node.Element? && node.Attribute("class").Some?
    requires forall t :: t in classes <==> t in SplitOn(node.Attribute("class").value, {' '})
    ensures ClassMatches(tag, classes, node) == ClassMatchesIntended(tag, classes, node)
  {
  }

  /**
   * `DescendantSelector.matches`: test the right part on the node, then walk
   * the parent links upwards until an ancestor matches the left part.
   */
  method DescendantMatches(a: Selector, d: Selector, node: Node, ancestors: seq<Node>) returns (r: bool)
    ensures r == Matches(DescendantSelector(a, d), node, ancestors)
  {
    if !Matches(d, node, ancestors) {
      return false;
    }
    var n := |ancestors|;
    assert ancestors[..n] == ancestors;
    while n > 0
      invariant 0 <= n <= |ancestors|
      invariant AncestorMatches(a, ancestors) == AncestorMatches(a, ancestors[..n])
      decreases n
    {
      assert ancestors[..n][..n - 1] == ancestors[..n - 1];
      if Matches(a, ancestors[n - 1], ancestors[..n - 1]) {
        return true;
      }
      n := n - 1;
    }
    return false;
  }

  // ------------------------------------------------------ what parses yields

  predicate WordChar(c: char)
  {
    IsAsciiLetter(c) || IsAsciiDigit(c) || c == '#' || c == '-' || c == '.' || c == '%'
  }

  predicate IsWord(w: string)
  {
    |w| > 0 && forall k :: 0 <= k < |w| ==> WordChar(w[k])
  }

  /** A selector made from one word. */
  predicate Simple(sel: Selector)
  {
    sel.TagSelector? || (sel.ClassSelector? && |sel.classes| >= 1)
  }

  /** Left-nested descendant chains whose right parts are simple. */
  predicate Chain(sel: Selector)
  {
    Simple(sel) || (sel.DescendantSelector? && Chain(sel.ancestor) && Simple(sel.descendant))
  }

  /** The selectors `combinator` can build: a chain, or a list whose later members are simple. */
  predicate Shaped(sel: Selector)
  {
    Chain(sel) || (sel.ListSelector? && Chain(sel.first) && forall k :: 0 <= k < |sel.rest| ==> Simple(sel.rest[k]))
  }

  /** Every selector the parser builds has a positive priority. */
  lemma {:induction false} ShapedPriority(sel: Selector)
    requires Shaped(sel)
    ensures Priority(sel) >= 1
  {
    if Chain(sel) {
      ChainPriority(sel);
    } else {
      ChainPriority(sel.first);
    }
  }

  lemma {:induction false} ChainPriority(sel: Selector)
    requires Chain(sel)
    ensures Priority(sel) >= 1
  {
    if !Simple(sel) {
      ChainPriority(sel.ancestor);
    }
  }

  const ValueStops: set<char> := {'\r', '\n', ';', '}'}
  /** Where `body()` resynchronises after a bad declaration. */
  const DeclStops: set<char> := {';', '}'}
  /** Where `parse()` resynchronises after a bad rule. */
  const RuleStops: set<char> := {'}'}

  /** A stored value: non-empty, trimmed, and free of the characters that end a value. */
  predicate ValueOk(v: string)
  {
    |v| > 0 && !IsWhitespace(v[0]) && !IsWhitespace(v[|v| - 1]) &&
    forall k :: 0 <= k < |v| ==> v[k] !in ValueStops
  }

  /** A stored property name: a lower-case word. */
  predicate PropertyOk(p: string)
  {
    IsWord(p) && IsLower(p)
  }

  predicate BodyOk(body: Body)
  {
    Valid(body) && forall e | e in body :: PropertyOk(e.0) && ValueOk(e.1)
  }

  predicate RulesOk(rules: Rules)
  {
    Valid(rules) && forall e | e in rules :: Shaped(e.0) && BodyOk(e.1)
  }

  lemma PutBodyOk(body: Body, p: string, v: string)
    requires BodyOk(body) && PropertyOk(p) && ValueOk(v)
    ensures BodyOk(Put(body, p, v))
  {
    PutValid(body, p, v);
    PutEntries(body, p, v);
  }

  lemma PutRulesOk(rules: Rules, sel: Selector, body: Body)
    requires RulesOk(rules) && Shaped(sel) && BodyOk(body)
    ensures RulesOk(Put(rules, sel, body))
  {
    PutValid(rules, sel, body);
    PutEntries(rules, sel, body);
  }

  // ------------------------------------------------- positions in the text

  /** Where `whitespace()` stops. */
  function SkipWhitespace(s: string, i: nat): (r: nat)
    requires i <= |s|
    ensures i <= r <= |s|
    decreases |s| - i
  {
    if i < |s| && IsWhitespace(s[i]) then SkipWhitespace(s, i + 1) else i
  }

  /** `whitespace()` skips whitespace only, and all of it. */
  lemma {:induction false} SkipWhitespaceSkips(s: string, i: nat)
    requires i <= |s|
    ensures var r := SkipWhitespace(s, i);
      (r == |s| || !IsWhitespace(s[r])) && forall k :: i <= k < r ==> IsWhitespace(s[k])
    decreases |s| - i
  {
    if i < |s| && IsWhitespace(s[i]) {
      SkipWhitespaceSkips(s, i + 1);
    }
  }

  /** Where the character loop of `word()` stops. */
  function WordEnd(s: string, i: nat): (r: nat)
    requires i <= |s|
    ensures i <= r <= |s|
    ensures r == i <==> i == |s| || !WordChar(s[i])
    decreases |s| - i
  {
    if i < |s| && WordChar(s[i]) then WordEnd(s, i + 1) else i
  }

  /** The word loop takes word characters only, and all of them. */
  lemma {:induction false} WordEndSkips(s: string, i: nat)
    requires i <= |s|
    ensures var r := WordEnd(s, i);
      (r == |s| || !WordChar(s[r])) && forall k :: i <= k < r ==> WordChar(s[k])
    decreases |s| - i
  {
    if i < |s| && WordChar(s[i]) {
      WordEndSkips(s, i + 1);
    }
  }

  /** What a parsing routine returns or throws, and where it left `i`. */
  datatype Step<T> = Step(out: Outcome<T>, pos: nat)

  /** `word()`: the longest run of word characters; an empty run throws. */
  function WordAt(s: string, i: nat): (r: Step<string>)
    requires i <= |s|
    ensures i <= r.pos <= |s|
    ensures r.out.Ok? <==> i < |s| && WordChar(s[i])
    ensures r.out.Ok? ==> r.pos > i
    ensures r.out.Fail? ==> r.out.exc == IllegalState && r.pos == i
  {
    var j := WordEnd(s, i);
    if j > i then Step(Ok(s[i..j]), j) else Step(Fail(IllegalState), j)
  }

  /** A word is a maximal non-empty run of word characters. */
  lemma WordAtIsWord(s: string, i: nat)
    requires i <= |s|
    ensures var r := WordAt(s, i);
      r.out.Ok? ==> IsWord(r.out.value) && (r.pos == |s| || !WordChar(s[r.pos]))
  {
    WordEndSkips(s, i);
  }

  /** `value()`: the text up to CR, LF, `;` or `}`, trimmed; an empty run throws. */
  function ValueAt(s: string, i: nat): (r: Step<string>)
    requires i <= |s|
    ensures i <= r.pos <= |s|
    ensures r.out.Ok? <==> r.pos > i
    ensures r.out.Fail? ==> r.out.exc == IllegalState
  {
    var j := FirstIn(s, ValueStops, i);
    if j > i then Step(Ok(Trim(s[i..j])), j) else Step(Fail(IllegalState), j)
  }

  /** A value that starts at a non-blank character is stored as a good value. */
  lemma ValueAtOk(s: string, i: nat)
    requires i <= |s| && (i < |s| ==> !IsWhitespace(s[i]))
    ensures ValueAt(s, i).out.Ok? ==> ValueOk(ValueAt(s, i).out.value)
  {
    var r := ValueAt(s, i);
    if r.out.Ok? {
      var raw := s[i..r.pos];
      assert r.out.value == Trim(raw);
      assert !IsWhitespace(raw[0]);
      assert !IsBlank(raw);
      FirstInSkips(s, ValueStops, i);
      assert forall k :: 0 <= k < |raw| ==> raw[k] == s[i + k];
      TrimAvoids(raw, ValueStops);
    }
  }

  /** `pair()`: word, optional blanks, `:`, optional blanks, value; the name is lower-cased. */
  function PairAt(s: string, i: nat): (r: Step<(string, string)>)
    requires i <= |s|
    ensures i <= r.pos <= |s|
    ensures r.out.Ok? ==> r.pos > i
    ensures r.out.Fail? ==> r.out.exc == IllegalState
  {
    var w := WordAt(s, i);
    if w.out.Fail? then Step(Fail(w.out.exc), w.pos)
    else
      var j := SkipWhitespace(s, w.pos);
      if !(j < |s| && s[j] == ':') then Step(Fail(IllegalState), j)
      else
        var v := ValueAt(s, SkipWhitespace(s, j + 1));
        if v.out.Fail? then Step(Fail(v.out.exc), v.pos)
        else Step(Ok((Lower(w.out.value), v.out.value)), v.pos)
  }

  /** A lower-cased word is a lower-case word. */
  lemma LowerWordOk(w: string)
    requires IsWord(w)
    ensures PropertyOk(Lower(w))
  {
    var name := Lower(w);
    forall n | 0 <= n < |name|
      ensures WordChar(name[n]) && LowerChar(name[n]) == name[n]
    {
      assert name[n] == LowerChar(w[n]);
    }
  }

  /** A declaration that parses has a lower-case word as its name and a good value. */
  lemma PairAtOk(s: string, i: nat)
    requires i <= |s|
    ensures PairAt(s, i).out.Ok? ==> PropertyOk(PairAt(s, i).out.value.0) && ValueOk(PairAt(s, i).out.value.1)
  {
    var w := WordAt(s, i);
    if w.out.Ok? {
      WordAtIsWord(s, i);
      LowerWordOk(w.out.value);
      var j := SkipWhitespace(s, w.pos);
      if j < |s| && s[j] == ':' {
        var k := SkipWhitespace(s, j + 1);
        SkipWhitespaceSkips(s, j + 1);
        ValueAtOk(s, k);
      }
    }
  }

  /** `ClassSelector(name)`: the part before the first `.` is the tag unless blank; the rest, split on `.`, the classes. */
  function ClassSelectorOf(name: string): (r: Selector)
    ensures r.ClassSelector? && |r.classes| >= 1
  {
    var dot := FirstIn(name, {'.'}, 0);
    var before := name[..dot];
    var pieces := SplitOn(if dot < |name| then name[dot + 1..] else name, {'.'});
    ClassSelector(if IsBlank(before) then None else Some(before), TrimAll(pieces))
  }

  /** `map { it.trim() }` */
  function TrimAll(pieces: seq<string>): (r: seq<string>)
    ensures |r| == |pieces|
    ensures forall k :: 0 <= k < |pieces| ==> r[k] == Trim(pieces[k])
  {
    if pieces == [] then [] else [Trim(pieces[0])] + TrimAll(pieces[1..])
  }

  /** The cut at the first `.` is `substringBefore('.')` and `substringAfter('.')`. */
  lemma DotSplit(name: string)
    ensures var dot := FirstIn(name, {'.'}, 0);
      SubstringBefore(name, ".") == name[..dot] &&
      SubstringAfter(name, ".", name) == if dot < |name| then name[dot + 1..] else name
  {
    var dot := FirstIn(name, {'.'}, 0);
    assert "." == ['.'];
    FirstInSkips(name, {'.'}, 0);
    if dot < |name| {
      ContainsCharAt(name, '.', dot);
      var r := IndexOf(name, ".");
      CharOccursAt(name, '.', r);
    } else {
      NotContainsChar(name, '.');
    }
  }

  /**
   * The class selector's priority: one for a non-blank tag part before the
   * first `.`, plus one per `.`-separated class name after it.
   */
  lemma ClassPriority(name: string)
    ensures var before := SubstringBefore(name, ".");
      Priority(ClassSelectorOf(name)) ==
        (if IsBlank(before) then 0 else 1) + |SplitOn(SubstringAfter(name, ".", name), {'.'})|
  {
    DotSplit(name);
    var dot := FirstIn(name, {'.'}, 0);
    var pieces := SplitOn(if dot < |name| then name[dot + 1..] else name, {'.'});
    var sel := ClassSelectorOf(name);
    assert sel.classes == TrimAll(pieces);
    assert sel.tagName.Some? <==> !IsBlank(name[..dot]);
  }

  /** `selector()`: a word with a `.` is a class selector, any other word a tag selector. */
  function SelectorAt(s: string, i: nat): (r: Step<Selector>)
    requires i <= |s|
    ensures i <= r.pos <= |s|
    ensures r.out.Ok? ==> r.pos > i && Simple(r.out.value)
    ensures r.out.Fail? ==> r.out.exc == IllegalState && r.pos == i
  {
    var w := WordAt(s, i);
    if w.out.Fail? then Step(Fail(w.out.exc), w.pos)
    else if '.' in w.out.value then Step(Ok(ClassSelectorOf(w.out.value)), w.pos)
    else Step(Ok(TagSelector(w.out.value)), w.pos)
  }

  /** The loop of `combinator()` from position `i`, with `out` built so far. */
  function CombineFrom(s: string, i: nat, out: Selector): (r: Step<Selector>)
    requires i <= |s|
    ensures i <= r.pos <= |s|
    ensures r.out.Ok? ==> r.pos == |s| || s[r.pos] == '{'
    ensures r.out.Fail? ==> r.out.exc == IllegalState
    decreases |s| - i
  {
    if i == |s| || s[i] == '{' then Step(Ok(out), i)
    else if s[i] == ',' then
      var j := SkipWhitespace(s, i + 1);
      if out.ListSelector? then
        var n := SelectorAt(s, j);
        if n.out.Fail? then Step(Fail(n.out.exc), n.pos)
        else CombineFrom(s, SkipWhitespace(s, n.pos), Add(out, n.out.value))
      else
        CombineFrom(s, SkipWhitespace(s, j), ListSelector(out, []))
    else
      var d := SelectorAt(s, i);
      if d.out.Fail? then Step(Fail(d.out.exc), d.pos)
      else
        var next := if out.ListSelector? then Add(out, d.out.value) else DescendantSelector(out, d.out.value);
        CombineFrom(s, SkipWhitespace(s, d.pos), next)
  }

  /** `combinator()`: a selector, blanks, then the loop. */
  function CombinatorAt(s: string, i: nat): (r: Step<Selector>)
    requires i <= |s|
    ensures i <= r.pos <= |s|
    ensures r.out.Ok? ==> r.pos == |s| || s[r.pos] == '{'
  {
    var f := SelectorAt(s, i);
    if f.out.Fail? then Step(Fail(f.out.exc), f.pos)
    else CombineFrom(s, SkipWhitespace(s, f.pos), f.out.value)
  }

  /** The combinator only builds chains and lists of simple alternatives. */
  lemma {:induction false} CombineShaped(s: string, i: nat, out: Selector)
    requires i <= |s| && Shaped(out)
    ensures CombineFrom(s, i, out).out.Ok? ==> Shaped(CombineFrom(s, i, out).out.value)
    decreases |s| - i
  {
    if i == |s| || s[i] == '{' {
    } else if s[i] == ',' {
      var j := SkipWhitespace(s, i + 1);
      if out.ListSelector? {
        var n := SelectorAt(s, j);
        if n.out.Ok? {
          var next := Add(out, n.out.value);
          assert !Chain(out);
          assert forall k :: 0 <= k < |out.rest| ==> next.rest[k] == out.rest[k];
          CombineShaped(s, SkipWhitespace(s, n.pos), next);
        }
      } else {
        CombineShaped(s, SkipWhitespace(s, j), ListSelector(out, []));
      }
    } else {
      var d := SelectorAt(s, i);
      if d.out.Ok? {
        if out.ListSelector? {
          var next := Add(out, d.out.value);
          assert !Chain(out);
          assert forall k :: 0 <= k < |out.rest| ==> next.rest[k] == out.rest[k];
          CombineShaped(s, SkipWhitespace(s, d.pos), next);
        } else {
          CombineShaped(s, SkipWhitespace(s, d.pos), DescendantSelector(out, d.out.value));
        }
      }
    }
  }

  lemma CombinatorShaped(s: string, i: nat)
    requires i <= |s|
    ensures CombinatorAt(s, i).out.Ok? ==> Shaped(CombinatorAt(s, i).out.value)
  {
    var f := SelectorAt(s, i);
    if f.out.Ok? {
      CombineShaped(s, SkipWhitespace(s, f.pos), f.out.value);
    }
  }

  /** Once a list has formed, it stays a list with the same members first, only growing at the end. */
  lemma {:induction false} ListAbsorbs(s: string, i: nat, out: Selector)
    requires i <= |s| && out.ListSelector?
    ensures var r := CombineFrom(s, i, out);
      r.out.Ok? ==> r.out.value.ListSelector? && r.out.value.first == out.first && out.rest <= r.out.value.rest
    decreases |s| - i
  {
    if i == |s| || s[i] == '{' {
    } else if s[i] == ',' {
      var n := SelectorAt(s, SkipWhitespace(s, i + 1));
      if n.out.Ok? {
        ListAbsorbs(s, SkipWhitespace(s, n.pos), Add(out, n.out.value));
      }
    } else {
      var d := SelectorAt(s, i);
      if d.out.Ok? {
        ListAbsorbs(s, SkipWhitespace(s, d.pos), Add(out, d.out.value));
      }
    }
  }

  /** The word loop stops exactly at the first non-word character. */
  lemma {:induction false} WordEndAt(s: string, i: nat, j: nat)
    requires i <= j <= |s|
    requires forall k :: i <= k < j ==> WordChar(s[k])
    requires j == |s| || !WordChar(s[j])
    ensures WordEnd(s, i) == j
    decreases j - i
  {
    if i < j {
      WordEndAt(s, i + 1, j);
    }
  }

  /** A run of word characters without a `.` is read as a tag selector. */
  lemma TagSelectorAt(s: string, i: nat, j: nat)
    requires i < j <= |s|
    requires forall k :: i <= k < j ==> WordChar(s[k]) && s[k] != '.'
    requires j == |s| || !WordChar(s[j])
    ensures SelectorAt(s, i) == Step(Ok(TagSelector(s[i..j])), j)
  {
    WordEndAt(s, i, j);
    assert '.' !in s[i..j];
  }

  /** `pre, code` is the list of two tag selectors: the `,` turns `pre` into a list and `code` is added to it. */
  lemma ListExample()
    ensures CombinatorAt("pre, code", 0) == Step(Ok(ListSelector(TagSelector("pre"), [TagSelector("code")])), 9)
  {
    var a: string := "pre, code";
    var list := ListSelector(TagSelector("pre"), []);
    TagSelectorAt(a, 0, 3);
    TagSelectorAt(a, 5, 9);
    assert a[0..3] == "pre" && a[5..9] == "code";
    assert SkipWhitespace(a, 3) == 3;
    assert SkipWhitespace(a, 4) == 5;
    assert SkipWhitespace(a, 9) == 9;
    assert Add(list, TagSelector("code")) == ListSelector(TagSelector("pre"), [TagSelector("code")]);
    assert CombineFrom(a, 9, Add(list, TagSelector("code"))) == Step(Ok(Add(list, TagSelector("code"))), 9);
    assert CombineFrom(a, 5, list) == CombineFrom(a, 9, Add(list, TagSelector("code")));
    assert CombineFrom(a, 3, TagSelector("pre")) == CombineFrom(a, 5, list);
    assert CombinatorAt(a, 0) == CombineFrom(a, 3, TagSelector("pre"));
  }

  /** `header h1` is a descendant selector. */
  lemma DescendantExample()
    ensures CombinatorAt("header h1", 0) == Step(Ok(DescendantSelector(TagSelector("header"), TagSelector("h1"))), 9)
  {
    var b: string := "header h1";
    TagSelectorAt(b, 0, 6);
    TagSelectorAt(b, 7, 9);
    assert b[0..6] == "header" && b[7..9] == "h1";
    assert SkipWhitespace(b, 6) == 7;
    assert SkipWhitespace(b, 9) == 9;
    assert CombineFrom(b, 7, TagSelector("header")) ==
      CombineFrom(b, 9, DescendantSelector(TagSelector("header"), TagSelector("h1")));
  }

  // ---------------------------------------------------------------- blocks

  /** What one pass of a parsing loop leaves: the collection so far, where `i` is, and whether the loop goes on. */
  datatype Pass<T> = Pass(acc: T, pos: nat, more: bool)

  /**
   * One pass of `body()`'s loop at a position that is neither the end nor a
   * `}`. A declaration is stored as soon as it parses, even if the `;` after
   * it is missing; a failure skips to the next `;` (and goes on) or to the next
   * `}` or the end (and stops there).
   */
  function DeclarationPass(s: string, i: nat, acc: Body): (r: Pass<Body>)
    requires i < |s|
    ensures r.more ==> i < r.pos <= |s|
    ensures !r.more ==> i <= r.pos <= |s| && (r.pos == |s| || s[r.pos] == '}')
  {
    AfterPair(s, PairAt(s, i), acc)
  }

  /** The rest of a pass once `pair()` has returned or thrown: store, then expect `;`. */
  function AfterPair(s: string, p: Step<(string, string)>, acc: Body): (r: Pass<Body>)
    requires p.pos <= |s|
    ensures r.more ==> p.pos < r.pos <= |s|
    ensures !r.more ==> p.pos <= r.pos <= |s| && (r.pos == |s| || s[r.pos] == '}')
  {
    if p.out.Fail? then SkipDeclarationAt(s, p.pos, acc)
    else
      var stored := Put(acc, p.out.value.0, p.out.value.1);
      var j := SkipWhitespace(s, p.pos);
      if j < |s| && s[j] == ';' then Pass(stored, SkipWhitespace(s, j + 1), true)
      else SkipDeclarationAt(s, j, stored)
  }

  /** The `catch` block of `body()`: skip to the next `;` and go on, or stop at the next `}` or the end. */
  function SkipDeclarationAt(s: string, j: nat, stored: Body): (r: Pass<Body>)
    requires j <= |s|
    ensures r.acc == stored
    ensures r.more ==> j < r.pos <= |s|
    ensures !r.more ==> j <= r.pos <= |s| && (r.pos == |s| || s[r.pos] == '}')
  {
    var k := FirstIn(s, DeclStops, j);
    if k < |s| && s[k] == ';' then Pass(stored, SkipWhitespace(s, k + 1), true)
    else Pass(stored, k, false)
  }

  /** The loop of `body()` from position `i` with the declarations `acc` read so far. */
  function BodyFrom(s: string, i: nat, acc: Body): (r: (Body, nat))
    requires i <= |s|
    ensures i <= r.1 <= |s|
    decreases |s| - i
  {
    if i == |s| || s[i] == '}' then (acc, i)
    else
      var p := DeclarationPass(s, i, acc);
      if p.more then BodyFrom(s, p.pos, p.acc) else (p.acc, p.pos)
  }

  /** A pass keeps the declarations read so far and only adds well-formed ones. */
  lemma DeclarationPassOk(s: string, i: nat, acc: Body)
    requires i < |s|
    ensures BodyOk(acc) ==> BodyOk(DeclarationPass(s, i, acc).acc)
    ensures forall name :: name in Keys(acc) ==> name in Keys(DeclarationPass(s, i, acc).acc)
  {
    var p := PairAt(s, i);
    PairAtOk(s, i);
    if p.out.Ok? {
      PutEntries(acc, p.out.value.0, p.out.value.1);
      if BodyOk(acc) {
        PutBodyOk(acc, p.out.value.0, p.out.value.1);
      }
    }
  }

  /** The block ends at a `}` or at the end of the text. */
  lemma {:induction false} BodyStops(s: string, i: nat, acc: Body)
    requires i <= |s|
    ensures var r := BodyFrom(s, i, acc); r.1 == |s| || s[r.1] == '}'
    decreases |s| - i
  {
    if i < |s| && s[i] != '}' {
      var p := DeclarationPass(s, i, acc);
      if p.more {
        BodyStops(s, p.pos, p.acc);
      }
    }
  }

  /** Every stored declaration has a lower-case word as its name and a trimmed, non-empty value. */
  lemma {:induction false} BodyFromOk(s: string, i: nat, acc: Body)
    requires i <= |s| && BodyOk(acc)
    ensures BodyOk(BodyFrom(s, i, acc).0)
    decreases |s| - i
  {
    if i < |s| && s[i] != '}' {
      var p := DeclarationPass(s, i, acc);
      DeclarationPassOk(s, i, acc);
      if p.more {
        BodyFromOk(s, p.pos, p.acc);
      }
    }
  }

  /** Declarations already read stay in the block. */
  lemma {:induction false} BodyKeeps(s: string, i: nat, acc: Body, name: string)
    requires i <= |s| && name in Keys(acc)
    ensures name in Keys(BodyFrom(s, i, acc).0)
    decreases |s| - i
  {
    if i < |s| && s[i] != '}' {
      var p := DeclarationPass(s, i, acc);
      DeclarationPassOk(s, i, acc);
      if p.more {
        BodyKeeps(s, p.pos, p.acc, name);
      }
    }
  }

  /** A last declaration without its `;` is still stored, and the block ends at the `}`. */
  lemma LastDeclarationKept(s: string, i: nat, acc: Body)
    requires i < |s| && s[i] != '}' && PairAt(s, i).out.Ok?
    requires var j := SkipWhitespace(s, PairAt(s, i).pos); j < |s| && s[j] == '}'
    ensures var p := PairAt(s, i);
      BodyFrom(s, i, acc) == (Put(acc, p.out.value.0, p.out.value.1), SkipWhitespace(s, p.pos))
  {
    var p := PairAt(s, i);
    var j := SkipWhitespace(s, p.pos);
    assert FirstIn(s, DeclStops, j) == j;
  }

  /** With no `:` and no `;` or `}` before `j`, `pair()` fails somewhere up to `j`, and the skip lands on `j`. */
  lemma NoColonPairFails(s: string, i: nat, j: nat)
    requires i <= j <= |s| && (j == |s| || s[j] in DeclStops)
    requires forall k :: i <= k < j ==> s[k] != ':' && s[k] !in DeclStops
    ensures PairAt(s, i).out.Fail? && PairAt(s, i).pos <= j
    ensures FirstIn(s, DeclStops, PairAt(s, i).pos) == j
  {
    var w := WordAt(s, i);
    WordEndSkips(s, i);
    assert j < |s| ==> !WordChar(s[j]);
    assert w.pos <= j;
    var p := SkipWhitespace(s, w.pos);
    SkipWhitespaceSkips(s, w.pos);
    assert j < |s| ==> !IsWhitespace(s[j]);
    assert p <= j;
    if w.out.Fail? {
      assert PairAt(s, i) == Step(Fail(w.out.exc), w.pos);
    } else {
      assert !(p < |s| && s[p] == ':');
      assert PairAt(s, i) == Step(Fail(IllegalState), p);
    }
    FirstInLands(s, DeclStops, PairAt(s, i).pos, j);
  }

  /** The search for a stop from `q` finds `j` when `j` is the end or a stop and nothing between is. */
  lemma FirstInLands(s: string, stops: set<char>, q: nat, j: nat)
    requires q <= j <= |s| && (j == |s| || s[j] in stops)
    requires forall k :: q <= k < j ==> s[k] !in stops
    ensures FirstIn(s, stops, q) == j
  {
    FirstInSkips(s, stops, q);
  }

  /**
   * A declaration with no `:` before its `;` is dropped whole: the
   * declarations read before it are kept as they were, and everything after
   * the `;` is read exactly as if the body started there.
   */
  lemma DeclarationWithoutColonSkipped(s: string, i: nat, j: nat, acc: Body)
    requires i <= j < |s| && s[j] == ';'
    requires forall k :: i <= k < j ==> s[k] != ':' && s[k] !in DeclStops
    ensures BodyFrom(s, i, acc) == BodyFrom(s, SkipWhitespace(s, j + 1), acc)
  {
    NoColonPairFails(s, i, j);
    var pair := PairAt(s, i);
    var next := SkipWhitespace(s, j + 1);
    assert SkipDeclarationAt(s, pair.pos, acc) == Pass(acc, next, true);
    assert AfterPair(s, pair, acc) == Pass(acc, next, true);
    assert DeclarationPass(s, i, acc) == Pass(acc, next, true);
    assert s[i] != '}';
  }

  /** A declaration with no `:` that runs into the `}` or the end leaves the block with what was read before it. */
  lemma DeclarationWithoutColonEndsBlock(s: string, i: nat, j: nat, acc: Body)
    requires i <= j <= |s| && (j == |s| || s[j] == '}')
    requires forall k :: i <= k < j ==> s[k] != ':' && s[k] !in DeclStops
    ensures BodyFrom(s, i, acc) == (acc, j)
  {
    if i < j {
      NoColonPairFails(s, i, j);
    }
  }

  // ----------------------------------------------------------------- rules

  /** The `try` block of `parse()`: blanks, selector, `{`, blanks, declarations, `}`. */
  function RuleAt(s: string, i: nat): (r: Step<(Selector, Body)>)
    requires i <= |s|
    ensures i <= r.pos <= |s|
    ensures r.out.Ok? ==> r.pos > i
  {
    var j := SkipWhitespace(s, i);
    RuleAfter(s, CombinatorAt(s, j))
  }

  /** The rest of the `try` block once the selector is read: `{`, blanks, declarations, `}`. */
  function RuleAfter(s: string, c: Step<Selector>): (r: Step<(Selector, Body)>)
    requires c.pos <= |s|
    ensures c.pos <= r.pos <= |s|
    ensures r.out.Ok? ==> r.pos > c.pos && c.out.Ok? && r.out.value.0 == c.out.value
    ensures r.out.Ok? ==> r.out.value.1 == BodyFrom(s, SkipWhitespace(s, c.pos + 1), []).0
  {
    if c.out.Fail? then Step(Fail(c.out.exc), c.pos)
    else if !(c.pos < |s| && s[c.pos] == '{') then Step(Fail(IllegalState), c.pos)
    else
      var b := BodyFrom(s, SkipWhitespace(s, c.pos + 1), []);
      if b.1 < |s| && s[b.1] == '}' then Step(Ok((c.out.value, b.0)), b.1 + 1)
      else Step(Fail(IllegalState), b.1)
  }

  /** `RuleAfter` once the block's declarations are read: it closes on a `}` or fails there. */
  lemma RuleAfterBody(s: string, c: Step<Selector>, b: (Body, nat))
    requires c.pos < |s| && c.out.Ok? && s[c.pos] == '{'
    requires b == BodyFrom(s, SkipWhitespace(s, c.pos + 1), [])
    ensures RuleAfter(s, c) == if b.1 < |s| && s[b.1] == '}' then Step(Ok((c.out.value, b.0)), b.1 + 1) else Step(Fail(IllegalState), b.1)
  {
  }

  lemma RuleAtOk(s: string, i: nat)
    requires i <= |s|
    ensures RuleAt(s, i).out.Ok? ==> Shaped(RuleAt(s, i).out.value.0) && BodyOk(RuleAt(s, i).out.value.1)
  {
    var j := SkipWhitespace(s, i);
    CombinatorShaped(s, j);
    RuleAfterOk(s, CombinatorAt(s, j));
  }

  lemma RuleAfterOk(s: string, c: Step<Selector>)
    requires c.pos <= |s| && (c.out.Ok? ==> Shaped(c.out.value))
    ensures var r := RuleAfter(s, c); r.out.Ok? ==> Shaped(r.out.value.0) && BodyOk(r.out.value.1)
  {
    if c.out.Ok? && c.pos < |s| && s[c.pos] == '{' {
      var k := SkipWhitespace(s, c.pos + 1);
      RuleAfterBody(s, c, BodyFrom(s, k, []));
      BodyFromOk(s, k, []);
    }
  }

  /**
   * One pass of `parse()`'s loop: a rule that parses is stored under its
   * selector (replacing the block of an equal selector); on a failure the text
   * is skipped up to and past the next `}`, or to the end.
   */
  function RulePass(s: string, i: nat, rules: Rules): (r: Pass<Rules>)
    requires i < |s|
    ensures i < r.pos <= |s|
  {
    var rule := RuleAt(s, i);
    if rule.out.Ok? then Pass(Put(rules, rule.out.value.0, rule.out.value.1), rule.pos, true)
    else
      var k := FirstIn(s, RuleStops, rule.pos);
      if k < |s| then Pass(rules, SkipWhitespace(s, k + 1), true) else Pass(rules, k, true)
  }

  /** The loop of `parse()`: a pass at a time until the text is used up. */
  function ParseFrom(s: string, i: nat, rules: Rules): Rules
    requires i <= |s|
    decreases |s| - i
  {
    if i == |s| then rules
    else
      var p := RulePass(s, i, rules);
      ParseFrom(s, p.pos, p.acc)
  }

  /** A pass keeps the rules stored so far and only adds well-formed ones. */
  lemma RulePassOk(s: string, i: nat, rules: Rules)
    requires i < |s|
    ensures RulesOk(rules) ==> RulesOk(RulePass(s, i, rules).acc)
    ensures forall sel :: sel in Keys(rules) ==> sel in Keys(RulePass(s, i, rules).acc)
  {
    var rule := RuleAt(s, i);
    RuleAtOk(s, i);
    if rule.out.Ok? && RulesOk(rules) {
      PutRulesOk(rules, rule.out.value.0, rule.out.value.1);
    }
  }

  /** Every stored rule has a selector the combinator can build and a well-formed block. */
  lemma {:induction false} ParseFromOk(s: string, i: nat, rules: Rules)
    requires i <= |s| && RulesOk(rules)
    ensures RulesOk(ParseFrom(s, i, rules))
    decreases |s| - i
  {
    if i < |s| {
      var p := RulePass(s, i, rules);
      RulePassOk(s, i, rules);
      ParseFromOk(s, p.pos, p.acc);
    }
  }

  /** Rules already stored stay stored. */
  lemma {:induction false} ParseKeeps(s: string, i: nat, rules: Rules, sel: Selector)
    requires i <= |s| && sel in Keys(rules)
    ensures sel in Keys(ParseFrom(s, i, rules))
    decreases |s| - i
  {
    if i < |s| {
      var p := RulePass(s, i, rules);
      RulePassOk(s, i, rules);
      ParseKeeps(s, p.pos, p.acc, sel);
    }
  }

  /** `parse()` of a whole sheet. */
  function ParseSheet(s: string): (r: Rules)
    ensures RulesOk(r)
    ensures forall k :: 0 <= k < |r| ==> Priority(r[k].0) >= 1
  {
    var r := ParseFrom(s, 0, []);
    ParseFromOk(s, 0, []);
    forall k | 0 <= k < |r|
      ensures Priority(r[k].0) >= 1
    {
      ShapedPriority(r[k].0);
    }
    r
  }

  /** `body()` of an inline `style` attribute. */
  function ParseBody(s: string): (r: Body)
    ensures BodyOk(r)
  {
    BodyFromOk(s, 0, []);
    BodyFrom(s, 0, []).0
  }

  // ---------------------------------------------------------------- parser

  class CssParser {
    const s: string
    var i: nat

    constructor(s: string)
      ensures this.s == s && i == 0
    {
      this.s := s;
      i := 0;
    }

    method Whitespace()
      requires i <= |s|
      modifies this
      ensures i == SkipWhitespace(s, old(i))
    {
      while i < |s| && IsWhitespace(s[i])
        invariant old(i) <= i <= |s|
        invariant SkipWhitespace(s, i) == SkipWhitespace(s, old(i))
        decreases |s| - i
      {
        i := i + 1;
      }
    }

    method Word() returns (r: Outcome<string>)
      requires i <= |s|
      modifies this
      ensures Step(r, i) == WordAt(s, old(i))
    {
      var start := i;
      while i < |s|
        invariant start <= i <= |s|
        invariant WordEnd(s, i) == WordEnd(s, start)
        decreases |s| - i
      {
        if WordChar(s[i]) {
          i := i + 1;
        } else {
          break;
        }
      }
      if i > start {
        r := Ok(s[start..i]);
      } else {
        r := Fail(IllegalState);
      }
    }

    method Literal(c: char) returns (r: Outcome<()>)
      requires i <= |s|
      modifies this
      ensures r == if old(i) < |s| && s[old(i)] == c then Ok(()) else Fail(IllegalState)
      ensures i == if r.Ok? then old(i) + 1 else old(i)
    {
      if !(i < |s| && s[i] == c) {
        return Fail(IllegalState);
      }
      i := i + 1;
      return Ok(());
    }

    method Pair() returns (r: Outcome<(string, string)>)
      requires i <= |s|
      modifies this
      ensures Step(r, i) == PairAt(s, old(i))
    {
      var prop :- Word();
      Whitespace();
      var colon :- Literal(':');
      Whitespace();
      var value :- Value();
      return Ok((Lower(prop), value));
    }

    method Value() returns (r: Outcome<string>)
      requires i <= |s|
      modifies this
      ensures Step(r, i) == ValueAt(s, old(i))
    {
      var start := i;
      while i < |s|
        invariant start <= i <= |s|
        invariant FirstIn(s, ValueStops, i) == FirstIn(s, ValueStops, start)
        decreases |s| - i
      {
        if s[i] !in ValueStops {
          i := i + 1;
        } else {
          break;
        }
      }
      if i > start {
        r := Ok(Trim(s[start..i]));
      } else {
        r := Fail(IllegalState);
      }
    }

    method IgnoreUntil(chars: set<char>) returns (why: Option<char>)
      requires i <= |s|
      modifies this
      ensures i == FirstIn(s, chars, old(i))
      ensures why == if i < |s| then Some(s[i]) else None
    {
      while i < |s|
        invariant old(i) <= i <= |s|
        invariant FirstIn(s, chars, i) == FirstIn(s, chars, old(i))
        decreases |s| - i
      {
        if s[i] in chars {
          return Some(s[i]);
        }
        i := i + 1;
      }
      return None;
    }

    method Selector() returns (r: Outcome<Selector>)
      requires i <= |s|
      modifies this
      ensures Step(r, i) == SelectorAt(s, old(i))
    {
      var name :- Word();
      if '.' in name {
        return Ok(ClassSelectorOf(name));
      }
      return Ok(TagSelector(name));
    }

    method Combinator() returns (r: Outcome<Selector>)
      requires i <= |s|
      modifies this
      ensures Step(r, i) == CombinatorAt(s, old(i))
    {
      var out :- Selector();
      Whitespace();
      while i < |s| && s[i] != '{'
        invariant i <= |s|
        invariant CombineFrom(s, i, out) == CombinatorAt(s, old(i))
        decreases |s| - i
      {
        if s[i] == ',' {
          var comma := Literal(',');
          Whitespace();
          if out.ListSelector? {
            var next := Selector();
            if next.Fail? {
              return Fail(next.exc);
            }
            out := Add(out, next.value);
          } else {
            out := ListSelector(out, []);
          }
          Whitespace();
          continue;
        }
        var descendant := Selector();
        if descendant.Fail? {
          return Fail(descendant.exc);
        }
        if out.ListSelector? {
          out := Add(out, descendant.value);
        } else {
          out := DescendantSelector(out, descendant.value);
        }
        Whitespace();
      }
      return Ok(out);
    }

    method Body() returns (pairs: Body)
      requires i <= |s|
      modifies this
      ensures (pairs, i) == BodyFrom(s, old(i), [])
    {
      pairs := [];
      while i < |s| && s[i] != '}'
        invariant i <= |s|
        invariant BodyFrom(s, i, pairs) == BodyFrom(s, old(i), [])
        decreases |s| - i
      {
        var more;
        pairs, more := Declaration(pairs);
        if !more {
          break;
        }
      }
    }

    /** One pass of `body()`'s loop: the `try` block, or the `catch` block when it throws. */
    method Declaration(pairs: Body) returns (stored: Body, more: bool)
      requires i < |s|
      modifies this
      ensures Pass(stored, i, more) == DeclarationPass(s, old(i), pairs)
    {
      var p := Pair();
      stored, more := StoreDeclaration(pairs, p);
    }

    /** After `pair()`: store the declaration and expect `;`, or skip when `pair()` threw or `;` is missing. */
    method StoreDeclaration(pairs: Body, p: Outcome<(string, string)>) returns (stored: Body, more: bool)
      requires i <= |s|
      modifies this
      ensures Pass(stored, i, more) == AfterPair(s, Step(p, old(i)), pairs)
    {
      stored := pairs;
      if p.Fail? {
        more := SkipDeclaration(stored);
        return;
      }
      stored := Put(stored, p.value.0, p.value.1);
      Whitespace();
      var semicolon := Literal(';');
      if semicolon.Ok? {
        Whitespace();
        more := true;
      } else {
        more := SkipDeclaration(stored);
      }
    }

    /** The `catch` block of `body()`: skip to the next `;` and go on, or stop at `}` or the end. */
    method SkipDeclaration(ghost stored: Body) returns (more: bool)
      requires i <= |s|
      modifies this
      ensures Pass(stored, i, more) == SkipDeclarationAt(s, old(i), stored)
    {
      var why := IgnoreUntil(DeclStops);
      if why == Some(';') {
        var semicolon := Literal(';');
        Whitespace();
        more := true;
      } else {
        more := false;
      }
    }

    /** The statements inside `parse()`'s `try`, with the exception as a `Fail`. */
    method Rule() returns (r: Outcome<(Selector, Body)>)
      requires i <= |s|
      modifies this
      ensures Step(r, i) == RuleAt(s, old(i))
    {
      Whitespace();
      var selector := Combinator();
      r := RuleBlock(selector);
    }

    /** The block after the selector: `{`, blanks, declarations, `}`. */
    method RuleBlock(selector: Outcome<Selector>) returns (r: Outcome<(Selector, Body)>)
      requires i <= |s|
      modifies this
      ensures Step(r, i) == RuleAfter(s, Step(selector, old(i)))
    {
      if selector.Fail? {
        return Fail(selector.exc);
      }
      ghost var c := Step(selector, old(i));
      var open :- Literal('{');
      Whitespace();
      var body := Body();
      ghost var b := BodyFrom(s, SkipWhitespace(s, c.pos + 1), []);
      assert (body, i) == b;
      RuleAfterBody(s, c, b);
      var close :- Literal('}');
      return Ok((selector.value, body));
    }

    method Parse() returns (rules: Rules)
      requires i <= |s|
      modifies this
      ensures rules == ParseFrom(s, old(i), [])
      ensures i == |s|
    {
      rules := [];
      while i < |s|
        invariant i <= |s|
        invariant ParseFrom(s, i, rules) == ParseFrom(s, old(i), [])
        decreases |s| - i
      {
        rules := RuleOrSkip(rules);
      }
    }

    /** One pass of `parse()`'s loop: store the rule, or skip past the next `}`. */
    method RuleOrSkip(rules: Rules) returns (stored: Rules)
      requires i < |s|
      modifies this
      ensures Pass(stored, i, true) == RulePass(s, old(i), rules)
    {
      stored := rules;
      var rule := Rule();
      if rule.Ok? {
        stored := Put(stored, rule.value.0, rule.value.1);
      } else {
        var why := IgnoreUntil(RuleStops);
        if why == Some('}') {
          var close := Literal('}');
          Whitespace();
        }
      }
    }
  }
}
