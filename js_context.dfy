// The DOM side of the scripting bridge (JsContext.kt): the table of
// integer handles that scripts use for elements, and the document
// operations scripts call through it. Nodes are objects that scripts can
// share and rewire, so they live here in a heap of records addressed by
// id; a record's `children` and `parent` hold ids, and nothing stops them
// from forming a cycle.

module JsContexts {
  import opened Common
  import opened Strings
  import opened LinkedMaps
  import opened Dom
  import HtmlParsing

  type NodeId = nat

  /** A DOM node as an object: an element or a text, with its `parent` link. */
  datatype NodeRec =
    | ElementRec(tag: string, attributes: Attributes, children: seq<NodeId>, parent: Option<NodeId>)
    | TextRec(text: string, parent: Option<NodeId>)
  {
    function Kids(): seq<NodeId> { if ElementRec? then children else [] }
  }

  type Heap = map<NodeId, NodeRec>

  // ---------------------------------------------------------------- handles

  /** The two handle maps are inverse, and the handles are exactly 0 .. size - 1. */
  predicate Inverse(n2h: map<NodeId, int>, h2n: map<int, NodeId>)
  {
    (forall e :: e in n2h ==> n2h[e] in h2n && h2n[n2h[e]] == e)
    && (forall h :: h in h2n ==> 0 <= h < |n2h| && h2n[h] in n2h && n2h[h2n[h]] == h)
    && (forall h :: 0 <= h < |n2h| ==> h in h2n)
  }

  /** `getHandle`: a known element keeps its handle, a new one gets the next handle. */
  function Register(n2h: map<NodeId, int>, h2n: map<int, NodeId>, e: NodeId): (r: (map<NodeId, int>, map<int, NodeId>, int))
    ensures e in n2h ==> r == (n2h, h2n, n2h[e])
    ensures e !in n2h ==> r.2 == |n2h| && r.0 == n2h[e := r.2] && r.1 == h2n[r.2 := e]
  {
    if e in n2h then (n2h, h2n, n2h[e]) else (n2h[e := |n2h|], h2n[|n2h| := e], |n2h|)
  }

  /**
   * Registering keeps the maps inverse, gives `e` a handle that leads back
   * to it, and moves no handle that was already given out.
   */
  lemma RegisterKeepsInverse(n2h: map<NodeId, int>, h2n: map<int, NodeId>, e: NodeId)
    requires Inverse(n2h, h2n)
    ensures var r := Register(n2h, h2n, e);
      Inverse(r.0, r.1) && e in r.0 && r.0[e] == r.2 && r.2 in r.1 && r.1[r.2] == e
      && (forall h :: h in h2n ==> h in r.1 && r.1[h] == h2n[h])
      && (forall x :: x in n2h ==> x in r.0 && r.0[x] == n2h[x])
  {
    if e !in n2h {
      RegisterNew(n2h, h2n, e);
    }
  }

  lemma RegisterNew(n2h: map<NodeId, int>, h2n: map<int, NodeId>, e: NodeId)
    requires Inverse(n2h, h2n) && e !in n2h
    ensures Inverse(n2h[e := |n2h|], h2n[|n2h| := e])
  {
    RegisterNewSize(n2h, e);
    RegisterNewForward(n2h, h2n, e);
    RegisterNewBackward(n2h, h2n, e);
  }

  lemma RegisterNewSize(n2h: map<NodeId, int>, e: NodeId)
    requires e !in n2h
    ensures |n2h[e := |n2h|]| == |n2h| + 1
  {
    assert n2h[e := |n2h|].Keys == n2h.Keys + {e};
  }

  lemma RegisterNewForward(n2h: map<NodeId, int>, h2n: map<int, NodeId>, e: NodeId)
    requires Inverse(n2h, h2n) && e !in n2h
    ensures var n2, h2 := n2h[e := |n2h|], h2n[|n2h| := e];
      forall x :: x in n2 ==> n2[x] in h2 && h2[n2[x]] == x
  {
    var k := |n2h|;
    var n2, h2 := n2h[e := k], h2n[k := e];
    forall x | x in n2
      ensures n2[x] in h2 && h2[n2[x]] == x
    {
      if x != e {
        assert n2h[x] in h2n && n2h[x] < k;
      }
    }
  }

  lemma RegisterNewBackward(n2h: map<NodeId, int>, h2n: map<int, NodeId>, e: NodeId)
    requires Inverse(n2h, h2n) && e !in n2h && |n2h[e := |n2h|]| == |n2h| + 1
    ensures var n2, h2 := n2h[e := |n2h|], h2n[|n2h| := e];
      (forall h :: h in h2 ==> 0 <= h < |n2| && h2[h] in n2 && n2[h2[h]] == h)
      && (forall h :: 0 <= h < |n2| ==> h in h2)
  {
    var k := |n2h|;
    var n2, h2 := n2h[e := k], h2n[k := e];
    forall h | h in h2
      ensures 0 <= h < k + 1 && h2[h] in n2 && n2[h2[h]] == h
    {
      if h != k {
        assert h in h2n && h2n[h] in n2h;
      }
    }
  }

  /** Two elements never share a handle. */
  lemma HandlesDistinct(n2h: map<NodeId, int>, h2n: map<int, NodeId>, a: NodeId, b: NodeId)
    requires Inverse(n2h, h2n) && a in n2h && b in n2h && a != b
    ensures n2h[a] != n2h[b]
  {
    assert h2n[n2h[a]] == a && h2n[n2h[b]] == b;
  }

  // --------------------------------------------------------------- children

  /** `children.filterIsInstance<Element>()` */
  function ElementKids(heap: Heap, cs: seq<NodeId>): (r: seq<NodeId>)
    ensures forall i :: 0 <= i < |r| ==> r[i] in heap && heap[r[i]].ElementRec?
    ensures |r| <= |cs|
  {
    if cs == [] then []
    else (if cs[0] in heap && heap[cs[0]].ElementRec? then [cs[0]] else []) + ElementKids(heap, cs[1..])
  }

  /** Keeping only the elements keeps every element child, in order. */
  lemma {:induction false} ElementKidsKeepOrder(heap: Heap, cs: seq<NodeId>, i: int, j: int)
    requires 0 <= i < j < |cs|
    requires cs[i] in heap && heap[cs[i]].ElementRec? && cs[j] in heap && heap[cs[j]].ElementRec?
    ensures exists a, b :: 0 <= a < b < |ElementKids(heap, cs)| && ElementKids(heap, cs)[a] == cs[i] && ElementKids(heap, cs)[b] == cs[j]
    decreases |cs|
  {
    var rest := ElementKids(heap, cs[1..]);
    if i == 0 {
      ElementKidIn(heap, cs[1..], j - 1);
      var b :| 0 <= b < |rest| && rest[b] == cs[j];
      assert ElementKids(heap, cs)[0] == cs[0] && ElementKids(heap, cs)[b + 1] == cs[j];
    } else {
      ElementKidsKeepOrder(heap, cs[1..], i - 1, j - 1);
      var a, b :| 0 <= a < b < |rest| && rest[a] == cs[i] && rest[b] == cs[j];
      var d := |ElementKids(heap, cs)| - |rest|;
      assert ElementKids(heap, cs)[a + d] == cs[i] && ElementKids(heap, cs)[b + d] == cs[j];
    }
  }

  /** Every element child is kept. */
  lemma {:induction false} ElementKidIn(heap: Heap, cs: seq<NodeId>, j: int)
    requires 0 <= j < |cs| && cs[j] in heap && heap[cs[j]].ElementRec?
    ensures cs[j] in ElementKids(heap, cs)
    decreases |cs|
  {
    if j > 0 {
      ElementKidIn(heap, cs[1..], j - 1);
    }
  }

  /** Every kept id is an element child. */
  lemma {:induction false} ElementKidsFrom(heap: Heap, cs: seq<NodeId>, x: NodeId)
    requires x in ElementKids(heap, cs)
    ensures x in cs
    decreases |cs|
  {
    if cs != [] && x != cs[0] {
      ElementKidsFrom(heap, cs[1..], x);
    }
  }

  // ------------------------------------------------------------ the heap

  /** Every child id names a live node. */
  predicate Closed(heap: Heap)
  {
    forall k, c :: k in heap && c in heap[k].Kids() ==> c in heap
  }

  /** `h2` keeps every record of `h1`. */
  predicate Extends(h1: Heap, h2: Heap)
  {
    forall k :: k in h1 ==> k in h2 && h2[k] == h1[k]
  }

  /** Both heaps hold the same ids, each an element in one exactly when in the other. */
  predicate SameKinds(h1: Heap, h2: Heap)
  {
    h1.Keys == h2.Keys && forall k :: k in h1 ==> (h1[k].ElementRec? <==> h2[k].ElementRec?)
  }

  /** The objects under `id` are the value tree `n`: same tags, attributes and texts, child for child. */
  predicate Holds(heap: Heap, id: NodeId, n: Node)
    decreases n
  {
    id in heap &&
    match n
    case Text(t, _) => heap[id].TextRec? && heap[id].text == t
    case Element(tag, attrs, cs, _, _) =>
      heap[id].ElementRec? && heap[id].tag == tag && heap[id].attributes == attrs
      && |heap[id].children| == |cs|
      && forall i :: 0 <= i < |cs| ==> Holds(heap, heap[id].children[i], cs[i])
  }

  /** Adding objects does not disturb a tree that is already there. */
  lemma {:induction false} HoldsGrow(h1: Heap, h2: Heap, id: NodeId, n: Node)
    requires Holds(h1, id, n) && Extends(h1, h2)
    ensures Holds(h2, id, n)
    decreases n
  {
    match n
    case Text(_, _) =>
    case Element(_, _, cs, _, _) =>
      forall i | 0 <= i < |cs|
        ensures Holds(h2, h2[id].children[i], cs[i])
      {
        HoldsGrow(h1, h2, h1[id].children[i], cs[i]);
      }
  }

  // ------------------------------------------------------------ tree edits

  /** `parent.children.add(at, child)`, then `child.parent = parent`. */
  /** The same node pointing at another parent. */
  function WithParent(n: NodeRec, q: Option<NodeId>): (r: NodeRec)
    ensures r.parent == q && r.Kids() == n.Kids() && r.ElementRec? == n.ElementRec?
  {
    n.(parent := q)
  }

  function Attach(heap: Heap, p: NodeId, c: NodeId, at: nat): (r: Heap)
    requires p in heap && heap[p].ElementRec? && c in heap && at <= |heap[p].children|
    ensures r.Keys == heap.Keys
  {
    var cs := heap[p].children;
    var h1 := heap[p := heap[p].(children := cs[..at] + [c] + cs[at..])];
    h1[c := WithParent(h1[c], Some(p))]
  }

  /**
   * Attaching puts the child at position `at` among the parent's children,
   * points the child at the parent and touches no other node: in
   * particular the child's former parent still lists it.
   */
  lemma AttachEffect(heap: Heap, p: NodeId, c: NodeId, at: nat)
    requires p in heap && heap[p].ElementRec? && c in heap && at <= |heap[p].children|
    ensures var r := Attach(heap, p, c, at);
      var cs := heap[p].children;
      r[p].ElementRec? && r[p].children == cs[..at] + [c] + cs[at..] && r[p].children[at] == c
      && r[c].parent == Some(p)
      && (forall q :: q in heap && q != p && q != c ==> r[q] == heap[q])
      && (p != c ==> r[p] == heap[p].(children := r[p].children))
      && (c != p ==> r[c] == WithParent(heap[c], Some(p)))
  {
    var cs := heap[p].children;
    assert (cs[..at] + [c] + cs[at..])[at] == c;
  }

  lemma AttachKeeps(heap: Heap, p: NodeId, c: NodeId, at: nat)
    requires p in heap && heap[p].ElementRec? && c in heap && at <= |heap[p].children| && Closed(heap)
    ensures Closed(Attach(heap, p, c, at)) && SameKinds(heap, Attach(heap, p, c, at))
  {
    var r := Attach(heap, p, c, at);
    var cs := heap[p].children;
    forall k, x | k in r && x in r[k].Kids()
      ensures x in r
    {
      if k == p {
        assert r[p].Kids() == cs[..at] + [c] + cs[at..];
        assert x == c || x in cs[..at] || x in cs[at..];
        if x != c {
          assert x in heap[p].Kids();
        }
      } else if k == c {
        assert r[k].Kids() == heap[k].Kids();
      }
    }
  }

  /** `list.remove(x)`: drops the first occurrence, if any. */
  function RemoveFirst<T(==)>(s: seq<T>, x: T): (r: seq<T>)
  {
    var i := PositionOf(s, x);
    if i < 0 then s else RemovedAt(s, i)
  }

  /** Removing takes away exactly one occurrence when there is one, and keeps the rest in order. */
  lemma RemoveFirstCounts<T>(s: seq<T>, x: T)
    ensures x in s ==> multiset(RemoveFirst(s, x)) == multiset(s) - multiset{x} && |RemoveFirst(s, x)| == |s| - 1
    ensures x !in s ==> RemoveFirst(s, x) == s
    ensures forall y :: y in RemoveFirst(s, x) ==> y in s
  {
    var i := PositionOf(s, x);
    if i >= 0 {
      assert s == s[..i] + [x] + s[i + 1..];
      assert RemoveFirst(s, x) == s[..i] + s[i + 1..];
      assert multiset(s) == multiset(s[..i]) + multiset{x} + multiset(s[i + 1..]);
      assert multiset(RemoveFirst(s, x)) == multiset(s[..i]) + multiset(s[i + 1..]);
      forall y | y in RemoveFirst(s, x)
        ensures y in s
      {
        assert y in s[..i] || y in s[i + 1..];
      }
    }
  }

  /** `parent.children.remove(child)`, then `child.parent = null`. */
  function Detach(heap: Heap, p: NodeId, c: NodeId): (r: Heap)
    requires p in heap && heap[p].ElementRec? && c in heap
    ensures r.Keys == heap.Keys
  {
    var h1 := heap[p := heap[p].(children := RemoveFirst(heap[p].children, c))];
    h1[c := WithParent(h1[c], None)]
  }

  /**
   * Detaching removes one occurrence of the child from the parent's list and
   * clears the child's parent link, even when the child was not the parent's.
   */
  lemma DetachEffect(heap: Heap, p: NodeId, c: NodeId)
    requires p in heap && heap[p].ElementRec? && c in heap
    ensures var r := Detach(heap, p, c);
      var cs := heap[p].children;
      r[p].ElementRec? && r[p].children == RemoveFirst(cs, c)
      && (c in cs ==> multiset(r[p].children) == multiset(cs) - multiset{c})
      && (c !in cs ==> r[p].children == cs)
      && r[c].parent == None
      && (forall q :: q in heap && q != p && q != c ==> r[q] == heap[q])
  {
    RemoveFirstCounts(heap[p].children, c);
  }

  lemma DetachKeeps(heap: Heap, p: NodeId, c: NodeId)
    requires p in heap && heap[p].ElementRec? && c in heap && Closed(heap)
    ensures Closed(Detach(heap, p, c)) && SameKinds(heap, Detach(heap, p, c))
  {
    var r := Detach(heap, p, c);
    RemoveFirstCounts(heap[p].children, c);
    forall k, x | k in r && x in r[k].Kids()
      ensures x in r
    {
      if k == p {
        assert x in heap[p].Kids();
      } else if k == c {
        assert r[k].Kids() == heap[k].Kids();
      }
    }
  }

  // ------------------------------------------------------------ serializing

  /** A childless element other than a void one, as written: everything before its last `>` becomes `/>\n`. */
  function ChildlessAsWritten(tag: string, attrs: Attributes): string
  {
    ReplaceBeforeLast(OpenTagText(tag, attrs), '>', "/>\n")
  }

  /** The as-written form loses the tag and its attributes: it is `/>\n>` for every element. */
  lemma ChildlessAsWrittenLosesTag(tag: string, attrs: Attributes)
    ensures ChildlessAsWritten(tag, attrs) == "/>\n>"
  {
    var o := OpenTagText(tag, attrs);
    CharOccursAt(o, '>', |o| - 1);
    assert LastIndexOf(o, ">") == |o| - 1;
    assert o[|o| - 1..] == ">";
  }

  /** A childless element other than a void one: its opening tag closed as `/>`, then a line break. */
  function Childless(tag: string, attrs: Attributes): (r: string)
    ensures StartsWith(r, "<" + tag) && EndsWith(r, "/>\n")
    ensures r == OpenTagText(tag, attrs)[..|OpenTagText(tag, attrs)| - 1] + "/>\n"
  {
    var o := OpenTagText(tag, attrs);
    assert |"<" + tag| <= |o| - 1;
    var r := o[..|o| - 1] + "/>\n";
    assert r[..|"<" + tag|] == o[..|"<" + tag|];
    r
  }

  /**
   * `Token.serialize()`, a childless element written as `ChildlessAsWritten` does.
   * Running out of `fuel` stands for the stack overflow that a cycle of
   * children causes.
   */
  function Serialized(heap: Heap, id: NodeId, fuel: nat): Outcome<string>
    requires Closed(heap) && id in heap
    decreases fuel, 0
  {
    if fuel == 0 then Fail(StackOverflow)
    else
      match heap[id]
      case TextRec(t, _) => Ok(t)
      case ElementRec(tag, attrs, cs, _) =>
        var inner :- SerializedAll(heap, cs, fuel - 1);
        var result := OpenTagText(tag, attrs) + (if |cs| > 0 && heap[cs[0]].ElementRec? then "\n" else "") + inner;
        if tag in SelfClosingTags then Ok(result + "\n")
        else if cs == [] then Ok(ChildlessAsWritten(tag, attrs))
        else Ok(result + "</" + tag + ">\n")
  }

  /** `children.joinToString("") { it.serialize() }` */
  function SerializedAll(heap: Heap, cs: seq<NodeId>, fuel: nat): Outcome<string>
    requires Closed(heap) && forall c :: c in cs ==> c in heap
    decreases fuel, 1, |cs|
  {
    if cs == [] then Ok("")
    else
      var first :- Serialized(heap, cs[0], fuel);
      var rest :- SerializedAll(heap, cs[1..], fuel);
      Ok(first + rest)
  }

  /** An element with children: its opening tag first and its closing tag last. */
  lemma SerializedParent(heap: Heap, id: NodeId, fuel: nat)
    requires Closed(heap) && id in heap && heap[id].ElementRec? && heap[id].children != []
    requires heap[id].tag !in SelfClosingTags
    requires Serialized(heap, id, fuel).Ok?
    ensures var r := Serialized(heap, id, fuel).value;
      StartsWith(r, OpenTagText(heap[id].tag, heap[id].attributes))
      && EndsWith(r, "</" + heap[id].tag + ">\n")
  {
    var r := Serialized(heap, id, fuel).value;
    var o := OpenTagText(heap[id].tag, heap[id].attributes);
    var close := "</" + heap[id].tag + ">\n";
    var mid := (if heap[heap[id].children[0]].ElementRec? then "\n" else "") + SerializedAll(heap, heap[id].children, fuel - 1).value;
    assert r == o + mid + close;
    assert r[..|o|] == o;
    assert r[|r| - |close|..] == close;
  }

  /** More fuel never changes a serialization that already succeeded. */
  lemma {:induction false} SerializedFuel(heap: Heap, id: NodeId, fuel: nat, more: nat)
    requires Closed(heap) && id in heap && fuel <= more
    requires Serialized(heap, id, fuel).Ok?
    ensures Serialized(heap, id, more) == Serialized(heap, id, fuel)
    decreases fuel, 0
  {
    if heap[id].ElementRec? {
      SerializedAllFuel(heap, heap[id].children, fuel - 1, more - 1);
    }
  }

  lemma {:induction false} SerializedAllFuel(heap: Heap, cs: seq<NodeId>, fuel: nat, more: nat)
    requires Closed(heap) && (forall c :: c in cs ==> c in heap) && fuel <= more
    requires SerializedAll(heap, cs, fuel).Ok?
    ensures SerializedAll(heap, cs, more) == SerializedAll(heap, cs, fuel)
    decreases fuel, 1, |cs|
  {
    if cs != [] {
      SerializedFuel(heap, cs[0], fuel, more);
      SerializedAllFuel(heap, cs[1..], fuel, more);
    }
  }

  /** `p` follows child links from `p[0]`, through live objects. */
  ghost predicate IsPath(heap: Heap, p: seq<NodeId>)
  {
    |p| >= 1 && (forall i :: 0 <= i < |p| ==> p[i] in heap) &&
    forall i :: 0 <= i < |p| - 1 ==> p[i + 1] in heap[p[i]].Kids()
  }

  /** No chain of child links from `id` comes back to an object it passed. */
  ghost predicate Acyclic(heap: Heap, id: NodeId)
  {
    forall p: seq<NodeId> :: IsPath(heap, p) && p[0] == id ==> Distinct(p)
  }

  /** Every chain of child links from `id` has at most `n` objects. */
  ghost predicate PathsWithin(heap: Heap, id: NodeId, n: nat)
  {
    forall p: seq<NodeId> :: IsPath(heap, p) && p[0] == id ==> |p| <= n
  }

  /** Objects without repeats, all from `s`, are no more than `s` holds. */
  lemma {:induction false} DistinctWithin(p: seq<NodeId>, s: set<NodeId>)
    requires Distinct(p) && forall i :: 0 <= i < |p| ==> p[i] in s
    ensures |p| <= |s|
  {
    if p != [] {
      var rest := p[1..];
      assert Distinct(rest) by {
        forall i, j | 0 <= i < j < |rest| ensures rest[i] != rest[j] {
          assert rest[i] == p[i + 1] && rest[j] == p[j + 1];
        }
      }
      forall i | 0 <= i < |rest| ensures rest[i] in s - {p[0]} {
        assert rest[i] == p[i + 1];
      }
      DistinctWithin(rest, s - {p[0]});
    }
  }

  /** From an object without a cycle below it, no chain is longer than the heap. */
  lemma AcyclicPathsWithin(heap: Heap, id: NodeId)
    requires Acyclic(heap, id)
    ensures PathsWithin(heap, id, |heap|)
  {
    forall p | IsPath(heap, p) && p[0] == id ensures |p| <= |heap| {
      DistinctWithin(p, heap.Keys);
    }
  }

  /** Serializing never runs out of fuel that outlasts every chain below the object. */
  lemma {:induction false} SerializedWithin(heap: Heap, id: NodeId, fuel: nat)
    requires Closed(heap) && id in heap && PathsWithin(heap, id, fuel)
    ensures Serialized(heap, id, fuel).Ok?
    decreases fuel, 0
  {
    assert IsPath(heap, [id]);
    var cs := heap[id].Kids();
    forall c | c in cs ensures PathsWithin(heap, c, fuel - 1) {
      forall p | IsPath(heap, p) && p[0] == c ensures |p| <= fuel - 1 {
        var q := [id] + p;
        assert forall i :: 0 < i < |q| ==> q[i] == p[i - 1];
        assert IsPath(heap, q);
      }
    }
    if heap[id].ElementRec? {
      SerializedAllWithin(heap, cs, fuel - 1);
    }
  }

  lemma {:induction false} SerializedAllWithin(heap: Heap, cs: seq<NodeId>, fuel: nat)
    requires Closed(heap) && forall c :: c in cs ==> c in heap && PathsWithin(heap, c, fuel)
    ensures SerializedAll(heap, cs, fuel).Ok?
    decreases fuel, 1, |cs|
  {
    if cs != [] {
      SerializedWithin(heap, cs[0], fuel);
      SerializedAllWithin(heap, cs[1..], fuel);
    }
  }

  /**
   * The converse of the fuel standing for a stack overflow: an object with no
   * cycle below it always serializes within the fuel `getOuterHTML` gives.
   */
  lemma AcyclicSerializes(heap: Heap, id: NodeId)
    requires Closed(heap) && id in heap
    ensures Acyclic(heap, id) ==> Serialized(heap, id, |heap|).Ok?
  {
    if Acyclic(heap, id) {
      AcyclicPathsWithin(heap, id);
      SerializedWithin(heap, id, |heap|);
    }
  }

  // -------------------------------------------------------------- walking

  /** `treeToList()` over the objects: pre-order ids, cut off when `fuel` runs out. */
  function Walk(heap: Heap, id: NodeId, fuel: nat): Outcome<seq<NodeId>>
    requires Closed(heap) && id in heap
    decreases fuel, 0
  {
    if fuel == 0 then Fail(StackOverflow)
    else
      var below :- WalkAll(heap, heap[id].Kids(), fuel - 1);
      Ok([id] + below)
  }

  function WalkAll(heap: Heap, cs: seq<NodeId>, fuel: nat): Outcome<seq<NodeId>>
    requires Closed(heap) && forall c :: c in cs ==> c in heap
    decreases fuel, 1, |cs|
  {
    if cs == [] then Ok([])
    else
      var first :- Walk(heap, cs[0], fuel);
      var rest :- WalkAll(heap, cs[1..], fuel);
      Ok(first + rest)
  }

  /** A walk lists live nodes only, starting with the node it began at. */
  lemma {:induction false} WalkLive(heap: Heap, id: NodeId, fuel: nat)
    requires Closed(heap) && id in heap && Walk(heap, id, fuel).Ok?
    ensures Walk(heap, id, fuel).value[0] == id
    ensures forall x :: x in Walk(heap, id, fuel).value ==> x in heap
    decreases fuel, 0
  {
    WalkAllLive(heap, heap[id].Kids(), fuel - 1);
  }

  lemma {:induction false} WalkAllLive(heap: Heap, cs: seq<NodeId>, fuel: nat)
    requires Closed(heap) && (forall c :: c in cs ==> c in heap) && WalkAll(heap, cs, fuel).Ok?
    ensures forall x :: x in WalkAll(heap, cs, fuel).value ==> x in heap
    decreases fuel, 1, |cs|
  {
    if cs != [] {
      WalkLive(heap, cs[0], fuel);
      WalkAllLive(heap, cs[1..], fuel);
    }
  }

  /** The `id` attribute of a live element, if it has one. */
  function IdOf(heap: Heap, x: NodeId): Option<string>
  {
    if x in heap && heap[x].ElementRec? then Get(heap[x].attributes, "id") else None
  }

  /** The last node of `list` whose `id` is `v`. */
  function LastWithId(heap: Heap, list: seq<NodeId>, v: string): (r: Option<NodeId>)
    ensures r.Some? ==> r.value in list && IdOf(heap, r.value) == Some(v)
    ensures r.None? ==> forall x :: x in list ==> IdOf(heap, x) != Some(v)
  {
    if list == [] then None
    else if IdOf(heap, list[|list| - 1]) == Some(v) then Some(list[|list| - 1])
    else
      var r := LastWithId(heap, list[..|list| - 1], v);
      assert forall x :: x in list[..|list| - 1] ==> x in list;
      assert forall x :: x in list ==> x in list[..|list| - 1] || x == list[|list| - 1];
      r
  }

  /** `filterIsInstance<Element>().filter(keep)` over a list of ids. */
  function Matching(heap: Heap, list: seq<NodeId>, keep: NodeId -> bool): (r: seq<NodeId>)
    ensures forall x :: x in r <==> x in list && x in heap && heap[x].ElementRec? && keep(x)
    ensures |r| <= |list|
  {
    if list == [] then []
    else
      var x := list[|list| - 1];
      var r := Matching(heap, list[..|list| - 1], keep);
      assert forall y :: y in list <==> y in list[..|list| - 1] || y == x;
      if x in heap && heap[x].ElementRec? && keep(x) then r + [x] else r
  }

  /** Every handle of `h1` still names the same element in `h2`. */
  predicate KeepsHandles(h1: map<int, NodeId>, h2: map<int, NodeId>)
  {
    forall h :: h in h1 ==> h in h2 && h2[h] == h1[h]
  }

  /** `hs` are handles of the elements `ids`, position for position. */
  predicate HandlesFor(h2n: map<int, NodeId>, hs: seq<int>, ids: seq<NodeId>)
  {
    |hs| == |ids| && forall j :: 0 <= j < |hs| ==> hs[j] in h2n && h2n[hs[j]] == ids[j]
  }

  lemma HandlesForGrow(h1: map<int, NodeId>, h2: map<int, NodeId>, hs: seq<int>, ids: seq<NodeId>, extra: Option<(int, NodeId)>)
    requires HandlesFor(h1, hs, ids) && KeepsHandles(h1, h2)
    requires extra.Some? ==> extra.value.0 in h2 && h2[extra.value.0] == extra.value.1
    ensures extra.None? ==> HandlesFor(h2, hs, ids)
    ensures extra.Some? ==> HandlesFor(h2, hs + [extra.value.0], ids + [extra.value.1])
  {
    forall j | 0 <= j < |hs|
      ensures hs[j] in h2 && h2[hs[j]] == ids[j]
    {
      var x := hs[j];
      assert x in h1 && h1[x] == ids[j];
    }
    if extra.Some? {
      var hs2, ids2 := hs + [extra.value.0], ids + [extra.value.1];
      forall j | 0 <= j < |hs2|
        ensures hs2[j] in h2 && h2[hs2[j]] == ids2[j]
      {
        if j < |hs| {
          assert hs2[j] == hs[j] && ids2[j] == ids[j];
        }
      }
    }
  }

  /** `ids` maps each `id` value of `list` to a handle of the last element carrying it. */
  ghost predicate IdsFor(h2n: map<int, NodeId>, ids: map<string, int>, heap: Heap, list: seq<NodeId>)
  {
    (forall v :: v in ids <==> LastWithId(heap, list, v).Some?)
    && forall v :: v in ids ==> ids[v] in h2n && h2n[ids[v]] == LastWithId(heap, list, v).value
  }

  lemma IdsForGrow(h1: map<int, NodeId>, h2: map<int, NodeId>, ids: map<string, int>, heap: Heap, list: seq<NodeId>, i: nat, h: Option<int>)
    requires i < |list| && IdsFor(h1, ids, heap, list[..i]) && KeepsHandles(h1, h2)
    requires h.Some? <==> IdOf(heap, list[i]).Some?
    requires h.Some? ==> h.value in h2 && h2[h.value] == list[i]
    ensures IdsFor(h2, if h.Some? then ids[IdOf(heap, list[i]).value := h.value] else ids, heap, list[..i + 1])
  {
    var ids2 := if h.Some? then ids[IdOf(heap, list[i]).value := h.value] else ids;
    forall v
      ensures (v in ids2 <==> LastWithId(heap, list[..i + 1], v).Some?)
      ensures v in ids2 ==> ids2[v] in h2 && h2[ids2[v]] == LastWithId(heap, list[..i + 1], v).value
    {
      LastWithIdSnoc(heap, list, i, v);
      if IdOf(heap, list[i]) != Some(v) {
        assert v in ids2 <==> v in ids;
        if v in ids {
          assert ids2[v] == ids[v];
        }
      }
    }
  }

  lemma MatchingSnoc(heap: Heap, list: seq<NodeId>, i: nat, keep: NodeId -> bool)
    requires i < |list|
    ensures Matching(heap, list[..i + 1], keep)
         == Matching(heap, list[..i], keep) + (if list[i] in heap && heap[list[i]].ElementRec? && keep(list[i]) then [list[i]] else [])
  {
    assert list[..i + 1][..i] == list[..i];
  }

  lemma LastWithIdSnoc(heap: Heap, list: seq<NodeId>, i: nat, v: string)
    requires i < |list|
    ensures LastWithId(heap, list[..i + 1], v)
         == if IdOf(heap, list[i]) == Some(v) then Some(list[i]) else LastWithId(heap, list[..i], v)
  {
    assert list[..i + 1][..i] == list[..i];
  }

  /** Every element with a handle is a live element. */
  predicate HandlesLive(heap: Heap, n2h: map<NodeId, int>)
  {
    forall e :: e in n2h ==> e in heap && heap[e].ElementRec?
  }

  /** Every id in use lies below `next`. */
  predicate Below(heap: Heap, next: NodeId)
  {
    forall id :: id in heap ==> id < next
  }

  lemma SameKindsLive(h1: Heap, h2: Heap, n2h: map<NodeId, int>, next: NodeId)
    requires HandlesLive(h1, n2h) && Below(h1, next) && SameKinds(h1, h2)
    ensures HandlesLive(h2, n2h) && Below(h2, next)
  {
  }

  /** `h2` and `next2` come from `h1` and `next1` by adding objects with ids from `next1` on. */
  predicate Grown(h1: Heap, next1: NodeId, h2: Heap, next2: NodeId)
  {
    Extends(h1, h2) && next1 <= next2 && (forall k :: k in h2 && k !in h1 ==> next1 <= k < next2)
    && FreshClosed(h1, h2)
  }

  /** The objects of `h` that are not in `base` have only such objects as children. */
  predicate FreshClosed(base: Heap, h: Heap)
  {
    forall k, c :: k in h && k !in base && c in h[k].Kids() ==> c in h && c !in base
  }

  /**
   * `h2` is `h1` with the children of element `e` replaced by new objects
   * holding `nodes`, each pointing back at `e`; every other object, the
   * former children included, is as it was.
   */
  predicate ReplacedChildren(h1: Heap, h2: Heap, e: NodeId, nodes: seq<Node>)
  {
    e in h1 && h1[e].ElementRec? && e in h2 && h2[e].ElementRec?
    && h2[e] == h1[e].(children := h2[e].children)
    && |h2[e].children| == |nodes|
    && (forall i :: 0 <= i < |nodes| ==>
          h2[e].children[i] !in h1 && Holds(h2, h2[e].children[i], nodes[i]) && h2[h2[e].children[i]].parent == Some(e))
    && (forall k :: k in h1 && k != e ==> k in h2 && h2[k] == h1[k])
  }

  /** A tree made of new objects only is not disturbed by changes to the old ones. */
  lemma {:induction false} HoldsKeep(base: Heap, h1: Heap, h2: Heap, id: NodeId, n: Node)
    requires Holds(h1, id, n) && id !in base && FreshClosed(base, h1)
    requires forall k :: k in h1 && k !in base ==> k in h2 && h2[k] == h1[k]
    ensures Holds(h2, id, n)
    decreases n
  {
    match n
    case Text(_, _) =>
    case Element(_, _, cs, _, _) =>
      forall i | 0 <= i < |cs|
        ensures Holds(h2, h2[id].children[i], cs[i])
      {
        assert h1[id].children[i] in h1[id].Kids();
        HoldsKeep(base, h1, h2, h1[id].children[i], cs[i]);
      }
  }

  lemma GrownTrans(h1: Heap, n1: NodeId, h2: Heap, n2: NodeId, h3: Heap, n3: NodeId)
    requires Grown(h1, n1, h2, n2) && Grown(h2, n2, h3, n3)
    ensures Grown(h1, n1, h3, n3)
  {
  }

  /** Adding objects keeps every tree of a list. */
  lemma HoldsAllGrow(h1: Heap, h2: Heap, ids: seq<NodeId>, ns: seq<Node>)
    requires Extends(h1, h2) && |ids| <= |ns|
    requires forall j :: 0 <= j < |ids| ==> Holds(h1, ids[j], ns[j])
    ensures forall j :: 0 <= j < |ids| ==> Holds(h2, ids[j], ns[j])
  {
    forall j | 0 <= j < |ids|
      ensures Holds(h2, ids[j], ns[j])
    {
      HoldsGrow(h1, h2, ids[j], ns[j]);
    }
  }

  /** A new object whose children are live keeps the heap closed and below `next`. */
  lemma AddRecord(heap: Heap, next: NodeId, n2h: map<NodeId, int>, id: NodeId, rec: NodeRec)
    requires Closed(heap) && Below(heap, next) && HandlesLive(heap, n2h)
    requires id !in heap && id < next && forall c :: c in rec.Kids() ==> c in heap
    ensures Closed(heap[id := rec]) && Below(heap[id := rec], next) && HandlesLive(heap[id := rec], n2h)
    ensures Extends(heap, heap[id := rec])
  {
  }

  /** `insertBefore(parent, child, reference)` on the objects the handles name. */
  function InsertedBefore(heap: Heap, h2n: map<int, NodeId>, ph: int, ch: int, rh: Option<int>): Heap
    requires forall h :: h in h2n ==> h2n[h] in heap && heap[h2n[h]].ElementRec?
  {
    if ph !in h2n || ch !in h2n then heap
    else
      var p, c := h2n[ph], h2n[ch];
      match rh
      case None => Attach(heap, p, c, |heap[p].children|)
      case Some(r) =>
        if r !in h2n then heap
        else
          var i := PositionOf(heap[p].children, h2n[r]);
          if i < 0 then heap else Attach(heap, p, c, i)
  }

  /** Without a reference the child goes last. */
  lemma InsertWithoutReference(heap: Heap, h2n: map<int, NodeId>, ph: int, ch: int)
    requires forall h :: h in h2n ==> h2n[h] in heap && heap[h2n[h]].ElementRec?
    requires ph in h2n && ch in h2n
    ensures var r := InsertedBefore(heap, h2n, ph, ch, None);
      r[h2n[ph]].children == heap[h2n[ph]].children + [h2n[ch]] && r[h2n[ch]].parent == Some(h2n[ph])
  {
    var cs := heap[h2n[ph]].children;
    AttachEffect(heap, h2n[ph], h2n[ch], |cs|);
    assert cs[..|cs|] + [h2n[ch]] + cs[|cs|..] == cs + [h2n[ch]];
  }

  /** With a reference among the children, the child lands right before its first occurrence. */
  lemma InsertAtReference(heap: Heap, h2n: map<int, NodeId>, ph: int, ch: int, rh: int)
    requires forall h :: h in h2n ==> h2n[h] in heap && heap[h2n[h]].ElementRec?
    requires ph in h2n && ch in h2n && rh in h2n && h2n[rh] in heap[h2n[ph]].children
    ensures var r := InsertedBefore(heap, h2n, ph, ch, Some(rh));
      var i := PositionOf(heap[h2n[ph]].children, h2n[rh]);
      r[h2n[ph]].children == heap[h2n[ph]].children[..i] + [h2n[ch]] + heap[h2n[ph]].children[i..]
      && r[h2n[ph]].children[i] == h2n[ch] && r[h2n[ph]].children[i + 1] == h2n[rh]
      && r[h2n[ch]].parent == Some(h2n[ph])
  {
    var cs := heap[h2n[ph]].children;
    var i := PositionOf(cs, h2n[rh]);
    AttachEffect(heap, h2n[ph], h2n[ch], i);
    assert (cs[..i] + [h2n[ch]] + cs[i..])[i + 1] == cs[i];
  }

  /** An unknown handle, or a reference that is not a child, changes nothing. */
  lemma InsertNowhere(heap: Heap, h2n: map<int, NodeId>, ph: int, ch: int, rh: Option<int>)
    requires forall h :: h in h2n ==> h2n[h] in heap && heap[h2n[h]].ElementRec?
    requires ph !in h2n || ch !in h2n || (rh.Some? && (rh.value !in h2n || h2n[rh.value] !in heap[h2n[ph]].children))
    ensures InsertedBefore(heap, h2n, ph, ch, rh) == heap
  {
  }

  /** The script engine's bridge to the document of one tab. */
  class JsContext {
    /** The DOM objects; `next` is above every id in use. */
    var heap: Heap
    var next: NodeId
    /** `tab.nodes`: the root of the tab's document, if it has one. */
    var document: Option<NodeId>
    var nodeToHandle: map<NodeId, int>
    var handleToNode: map<int, NodeId>

    predicate Valid()
      reads this
    {
      Below(heap, next) && Closed(heap)
      && Inverse(nodeToHandle, handleToNode) && HandlesLive(heap, nodeToHandle)
      && (document.Some? ==> document.value in heap)
    }

    /** A context for a tab's document; no element has a handle yet. */
    constructor(heap: Heap, next: NodeId, document: Option<NodeId>)
      requires Below(heap, next) && Closed(heap) && (document.Some? ==> document.value in heap)
      ensures Valid()
      ensures this.heap == heap && this.next == next && this.document == document
      ensures nodeToHandle == map[] && handleToNode == map[]
    {
      this.heap := heap;
      this.next := next;
      this.document := document;
      nodeToHandle := map[];
      handleToNode := map[];
    }

    /** `Element.getHandle()` */
    method GetHandle(e: NodeId) returns (h: int)
      requires Valid() && e in heap && heap[e].ElementRec?
      modifies this
      ensures Valid()
      ensures (nodeToHandle, handleToNode, h) == Register(old(nodeToHandle), old(handleToNode), e)
      ensures heap == old(heap) && next == old(next) && document == old(document)
    {
      RegisterKeepsInverse(nodeToHandle, handleToNode, e);
      if e !in nodeToHandle {
        h := |nodeToHandle|;
        nodeToHandle := nodeToHandle[e := h];
        handleToNode := handleToNode[h := e];
      } else {
        h := nodeToHandle[e];
      }
    }

    /** `Document.getAttribute(handle, name)` */
    function GetAttribute(handle: int, name: string): (r: string)
      requires Valid()
      reads this
      ensures handle !in handleToNode ==> r == ""
      ensures handle in handleToNode && Get(heap[handleToNode[handle]].attributes, name).None? ==> r == ""
      ensures handle in handleToNode && Get(heap[handleToNode[handle]].attributes, name).Some? ==>
        r == Get(heap[handleToNode[handle]].attributes, name).value
      ensures r != "" ==> handle in handleToNode && Get(heap[handleToNode[handle]].attributes, name) == Some(r)
    {
      if handle !in handleToNode then ""
      else
        match Get(heap[handleToNode[handle]].attributes, name)
        case None => ""
        case Some(v) => v
    }

    /** `Document.getChildren(handle)`: handles of the element children, in order. */
    method GetChildren(handle: int) returns (hs: seq<int>)
      requires Valid()
      modifies this
      ensures Valid()
      ensures heap == old(heap) && next == old(next) && document == old(document)
      ensures handle !in old(handleToNode) ==> hs == [] && nodeToHandle == old(nodeToHandle) && handleToNode == old(handleToNode)
      ensures handle in old(handleToNode) ==>
        var kids := ElementKids(heap, heap[old(handleToNode)[handle]].children);
        |hs| == |kids| && forall i :: 0 <= i < |hs| ==> hs[i] in handleToNode && handleToNode[hs[i]] == kids[i]
      ensures KeepsHandles(old(handleToNode), handleToNode)
    {
      hs := [];
      if handle !in handleToNode {
        return;
      }
      var kids := ElementKids(heap, heap[handleToNode[handle]].children);
      var i := 0;
      while i < |kids|
        invariant 0 <= i <= |kids| && |hs| == i
        invariant Valid() && heap == old(heap) && next == old(next) && document == old(document)
        invariant forall j :: 0 <= j < i ==> hs[j] in handleToNode && handleToNode[hs[j]] == kids[j]
        invariant KeepsHandles(old(handleToNode), handleToNode)
      {
        RegisterKeepsInverse(nodeToHandle, handleToNode, kids[i]);
        var h := GetHandle(kids[i]);
        hs := hs + [h];
        i := i + 1;
      }
    }

    /** `Document.insertBefore(parent, child, reference)`; re-rendering the tab is left out. */
    method InsertBefore(ph: int, ch: int, rh: Option<int>)
      requires Valid()
      modifies this
      ensures Valid()
      ensures heap == InsertedBefore(old(heap), old(handleToNode), ph, ch, rh)
      ensures nodeToHandle == old(nodeToHandle) && handleToNode == old(handleToNode)
      ensures next == old(next) && document == old(document)
    {
      if ph !in handleToNode {
        return;
      }
      var p := handleToNode[ph];
      if ch !in handleToNode {
        return;
      }
      var c := handleToNode[ch];
      var at: nat;
      if rh.None? {
        at := |heap[p].children|;
      } else {
        if rh.value !in handleToNode {
          return;
        }
        var index := PositionOf(heap[p].children, handleToNode[rh.value]);
        if index == -1 {
          return;
        }
        at := index;
      }
      AttachKeeps(heap, p, c, at);
      SameKindsLive(heap, Attach(heap, p, c, at), nodeToHandle, next);
      heap := heap[p := heap[p].(children := heap[p].children[..at] + [c] + heap[p].children[at..])];
      heap := heap[c := WithParent(heap[c], Some(p))];
    }

    /** `Document.removeChild(parent, child)` */
    method RemoveChild(ph: int, ch: int) returns (r: Option<int>)
      requires Valid()
      modifies this
      ensures Valid()
      ensures (ph !in old(handleToNode) || ch !in old(handleToNode)) ==> r == None && heap == old(heap)
      ensures ph in old(handleToNode) && ch in old(handleToNode) ==>
        r == Some(ch) && heap == Detach(old(heap), old(handleToNode)[ph], old(handleToNode)[ch])
      ensures nodeToHandle == old(nodeToHandle) && handleToNode == old(handleToNode)
      ensures next == old(next) && document == old(document)
    {
      if ph !in handleToNode {
        return None;
      }
      var p := handleToNode[ph];
      if ch !in handleToNode {
        return None;
      }
      var c := handleToNode[ch];
      DetachKeeps(heap, p, c);
      SameKindsLive(heap, Detach(heap, p, c), nodeToHandle, next);
      heap := heap[p := heap[p].(children := RemoveFirst(heap[p].children, c))];
      heap := heap[c := WithParent(heap[c], None)];
      r := Some(ch);
    }

    /** `Document.createElement(tag)`: a new element with no attributes, children or parent, and its handle. */
    method CreateElement(tag: string) returns (h: int)
      requires Valid()
      modifies this
      ensures Valid()
      ensures old(next) in handleToNode.Values && h in handleToNode && handleToNode[h] == old(next)
      ensures h == |old(nodeToHandle)|
      ensures heap == old(heap)[old(next) := ElementRec(tag, [], [], None)] && next == old(next) + 1
      ensures forall k :: k in old(handleToNode) ==> k in handleToNode && handleToNode[k] == old(handleToNode)[k]
      ensures document == old(document)
    {
      var e := next;
      heap := heap[e := ElementRec(tag, [], [], None)];
      next := next + 1;
      assert e !in nodeToHandle;
      RegisterKeepsInverse(nodeToHandle, handleToNode, e);
      h := GetHandle(e);
    }

    /**
     * The objects the parser creates for `n`, under `parent`: fresh ids for
     * `n` and everything below it, holding the tree `n`.
     */
    method Place(n: Node, parent: NodeId) returns (id: NodeId)
      requires Valid()
      modifies this
      ensures Valid() && Grown(old(heap), old(next), heap, next)
      ensures old(next) <= id < next && Holds(heap, id, n) && heap[id].parent == Some(parent)
      ensures nodeToHandle == old(nodeToHandle) && handleToNode == old(handleToNode) && document == old(document)
      decreases n, 1
    {
      id := next;
      next := next + 1;
      var kids: seq<NodeId> := [];
      var rec: NodeRec;
      match n {
        case Text(t, _) =>
          rec := TextRec(t, Some(parent));
        case Element(tag, attributes, cs, _, _) =>
          kids := PlaceAll(cs, id);
          rec := ElementRec(tag, attributes, kids, Some(parent));
      }
      AddRecord(heap, next, nodeToHandle, id, rec);
      HoldsAllGrow(heap, heap[id := rec], kids, n.Children());
      heap := heap[id := rec];
    }

    /** The objects for the trees `cs`, in order, all under `parent`, which is not placed yet. */
    method PlaceAll(cs: seq<Node>, parent: NodeId) returns (kids: seq<NodeId>)
      requires Valid()
      modifies this
      ensures Valid() && Grown(old(heap), old(next), heap, next)
      ensures |kids| == |cs|
      ensures forall j :: 0 <= j < |cs| ==> Holds(heap, kids[j], cs[j]) && kids[j] !in old(heap) && heap[kids[j]].parent == Some(parent)
      ensures nodeToHandle == old(nodeToHandle) && handleToNode == old(handleToNode) && document == old(document)
      decreases cs, 0
    {
      kids := [];
      for i := 0 to |cs|
        invariant Valid() && Grown(old(heap), old(next), heap, next)
        invariant |kids| == i
        invariant forall j :: 0 <= j < i ==> Holds(heap, kids[j], cs[j]) && kids[j] !in old(heap) && heap[kids[j]].parent == Some(parent)
        invariant nodeToHandle == old(nodeToHandle) && handleToNode == old(handleToNode) && document == old(document)
      {
        ghost var earlier, earlierNext := heap, next;
        var k := Place(cs[i], parent);
        GrownTrans(old(heap), old(next), earlier, earlierNext, heap, next);
        HoldsAllGrow(earlier, heap, kids, cs);
        kids := kids + [k];
      }
    }

    /** `elt.children.clear()`, `addAll(newNodes)`, then each new child's `parent = elt`. */
    method ReplaceChildren(e: NodeId, nodes: seq<Node>)
      requires Valid() && e in heap && heap[e].ElementRec?
      modifies this
      ensures Valid() && ReplacedChildren(old(heap), heap, e, nodes) && old(next) <= next
      ensures nodeToHandle == old(nodeToHandle) && handleToNode == old(handleToNode) && document == old(document)
    {
      var kids := PlaceAll(nodes, e);
      ghost var placed := heap;
      heap := heap[e := heap[e].(children := kids)];
      forall j | 0 <= j < |nodes|
        ensures Holds(heap, kids[j], nodes[j])
      {
        HoldsKeep(old(heap), placed, heap, kids[j], nodes[j]);
      }
    }

    /**
     * `Document.setInnerHTML(handle, html)`: the body of the parsed page
     * `<html><body>html</body></html>` becomes the element's children.
     * Re-rendering the tab is left out.
     */
    method SetInnerHTML(handle: int, html: string) returns (r: Outcome<()>, ghost nodes: seq<Node>)
      requires Valid()
      modifies this
      ensures Valid()
      ensures nodeToHandle == old(nodeToHandle) && handleToNode == old(handleToNode) && document == old(document)
      ensures (r.Fail? || handle !in handleToNode) ==> heap == old(heap)
      ensures r.Fail? ==> r.exc == IndexOutOfBounds
      ensures r.Ok? && handle in handleToNode ==> ReplacedChildren(old(heap), heap, handleToNode[handle], nodes)
      ensures r.Ok? ==> forall n :: n in nodes ==> HtmlParsing.WellFormed(n)
    {
      var parser := new HtmlParsing.HtmlParser("<html><body>" + html + "</body></html>");
      var doc := parser.Parse();
      if |doc.children| == 0 {
        return Fail(IndexOutOfBounds), [];
      }
      assert HtmlParsing.WellFormed(doc.children[0]);
      var newNodes := doc.children[0].Children();
      nodes := newNodes;
      if handle !in handleToNode {
        return Ok(()), nodes;
      }
      ReplaceChildren(handleToNode[handle], newNodes);
      r := Ok(());
    }

    /** `getHandle()` of `x` when it is an element that `keep` accepts. */
    method HandleIf(x: NodeId, keep: NodeId -> bool) returns (h: Option<int>)
      requires Valid()
      modifies this
      ensures Valid() && heap == old(heap) && next == old(next) && document == old(document)
      ensures KeepsHandles(old(handleToNode), handleToNode)
      ensures h.Some? <==> x in heap && heap[x].ElementRec? && keep(x)
      ensures h.Some? ==> h.value in handleToNode && handleToNode[h.value] == x
    {
      if x in heap && heap[x].ElementRec? && keep(x) {
        RegisterKeepsInverse(nodeToHandle, handleToNode, x);
        var handle := GetHandle(x);
        h := Some(handle);
      } else {
        h := None;
      }
    }

    /** `Document.getOuterHTML(handle)`; the fuel is the number of objects, enough for any tree without a cycle. */
    function GetOuterHTML(handle: int): (r: Outcome<string>)
      requires Valid()
      reads this
      ensures handle !in handleToNode ==> r == Ok("")
      ensures handle in handleToNode && Acyclic(heap, handleToNode[handle]) ==> r.Ok?
      ensures handle in handleToNode && heap[handleToNode[handle]].children == [] && heap[handleToNode[handle]].tag !in SelfClosingTags ==>
        r == Ok("/>\n>")
      ensures handle in handleToNode && heap[handleToNode[handle]].children != [] && heap[handleToNode[handle]].tag !in SelfClosingTags && r.Ok? ==>
        StartsWith(r.value, OpenTagText(heap[handleToNode[handle]].tag, heap[handleToNode[handle]].attributes))
        && EndsWith(r.value, "</" + heap[handleToNode[handle]].tag + ">\n")
    {
      if handle !in handleToNode then Ok("")
      else
        var e := handleToNode[handle];
        assert |heap| >= 1 by { assert {e} <= heap.Keys; assert |heap| == |heap.Keys|; }
        AcyclicSerializes(heap, e);
        OuterHTML(e)
    }

    /** `getOuterHTML` of a live element, with the fuel of one call per object. */
    function OuterHTML(e: NodeId): (r: Outcome<string>)
      requires Valid() && e in heap && heap[e].ElementRec? && |heap| >= 1
      reads this
      ensures r == Serialized(heap, e, |heap|)
      ensures heap[e].children == [] && heap[e].tag !in SelfClosingTags ==> r == Ok("/>\n>")
      ensures heap[e].children != [] && heap[e].tag !in SelfClosingTags && r.Ok? ==>
        StartsWith(r.value, OpenTagText(heap[e].tag, heap[e].attributes)) && EndsWith(r.value, "</" + heap[e].tag + ">\n")
    {
      if heap[e].children == [] then
        assert SerializedAll(heap, [], |heap| - 1) == Ok("");
        ChildlessAsWrittenLosesTag(heap[e].tag, heap[e].attributes);
        Serialized(heap, e, |heap|)
      else if heap[e].tag !in SelfClosingTags && Serialized(heap, e, |heap|).Ok? then
        SerializedParent(heap, e, |heap|);
        Serialized(heap, e, |heap|)
      else Serialized(heap, e, |heap|)
    }

    /** `Document.getInnerHTML(handle)`: the children serialized one after another. */
    function GetInnerHTML(handle: int): (r: Outcome<string>)
      requires Valid()
      reads this
      ensures handle !in handleToNode ==> r == Ok("")
      ensures handle in handleToNode && heap[handleToNode[handle]].children == [] ==> r == Ok("")
    {
      if handle !in handleToNode then Ok("")
      else SerializedAll(heap, heap[handleToNode[handle]].children, |heap|)
    }

    /**
     * The outer HTML of an element with children that is not void is its
     * opening tag, a line break if the first child is an element, the inner
     * HTML and the closing tag.
     */
    lemma OuterWrapsInner(handle: int)
      requires Valid() && handle in handleToNode
      requires heap[handleToNode[handle]].children != [] && heap[handleToNode[handle]].tag !in SelfClosingTags
      requires GetOuterHTML(handle).Ok?
      ensures var e := handleToNode[handle];
        GetInnerHTML(handle).Ok?
        && GetOuterHTML(handle).value
           == OpenTagText(heap[e].tag, heap[e].attributes) + (if heap[heap[e].children[0]].ElementRec? then "\n" else "")
              + GetInnerHTML(handle).value + "</" + heap[e].tag + ">\n"
    {
      var e := handleToNode[handle];
      SerializedAllFuel(heap, heap[e].children, |heap| - 1, |heap|);
    }

    /** The node has a parent and that parent is a live element: the event bubbles up to it. */
    predicate ElementParent(e: NodeId)
      reads this
    {
      e in heap && heap[e].parent.Some? && heap[e].parent.value in heap && heap[heap[e].parent.value].ElementRec?
    }

    /**
     * `dispatchEvent(type, element)`: `run(handle, type)` stands for running
     * the page's handlers and reading `do_default` and `propagate` from the
     * result. Running out of `fuel` stands for the stack overflow of a cycle
     * of parent links.
     */
    function Dispatched(kind: string, e: NodeId, run: (int, string) -> (bool, bool), fuel: nat): (r: Outcome<bool>)
      requires Valid()
      reads this
      ensures e !in nodeToHandle ==> r == Ok(false)
      ensures r == Ok(true) ==> e in nodeToHandle && run(nodeToHandle[e], kind).0
      ensures e in nodeToHandle && fuel > 0 && !run(nodeToHandle[e], kind).1 ==> r == Ok(run(nodeToHandle[e], kind).0)
      ensures e in nodeToHandle && fuel > 0 && !run(nodeToHandle[e], kind).0 ==> r == Ok(false)
      ensures e in nodeToHandle && fuel == 0 ==> r == Fail(StackOverflow)
      ensures e in nodeToHandle && fuel > 0 && run(nodeToHandle[e], kind) == (true, true) ==>
        r == (if ElementParent(e) then Dispatched(kind, heap[e].parent.value, run, fuel - 1) else Ok(true))
      decreases fuel
    {
      if e !in nodeToHandle then Ok(false)
      else if fuel == 0 then Fail(StackOverflow)
      else
        var (doDefault, propagate) := run(nodeToHandle[e], kind);
        if !propagate then Ok(doDefault)
        else
          match heap[e].parent
          case None => Ok(doDefault)
          case Some(q) =>
            if !(q in heap && heap[q].ElementRec?) then Ok(doDefault)
            else if !doDefault then Ok(false)
            else Dispatched(kind, q, run, fuel - 1)
    }

    /**
     * `Document.querySelectorAll(selector)`: handles of the document's
     * elements, in tree order, that `matches` accepts; `matches` stands for
     * the parsed selector.
     */
    method QuerySelectorAll(matches: NodeId -> bool) returns (r: Outcome<seq<int>>)
      requires Valid()
      modifies this
      ensures Valid() && heap == old(heap) && next == old(next) && document == old(document)
      ensures KeepsHandles(old(handleToNode), handleToNode)
      ensures document.None? ==> r == Ok([])
      ensures document.Some? ==> (r.Fail? <==> Walk(heap, document.value, |heap|).Fail?)
      ensures document.Some? && r.Ok? ==>
        var found := Matching(heap, Walk(heap, document.value, |heap|).value, matches);
        HandlesFor(handleToNode, r.value, found)
    {
      if document.None? {
        return Ok([]);
      }
      var walk := Walk(heap, document.value, |heap|);
      if walk.Fail? {
        return Fail(walk.exc);
      }
      var list := walk.value;
      var hs: seq<int> := [];
      for i := 0 to |list|
        invariant Valid() && heap == old(heap) && next == old(next) && document == old(document)
        invariant KeepsHandles(old(handleToNode), handleToNode)
        invariant HandlesFor(handleToNode, hs, Matching(heap, list[..i], matches))
      {
        MatchingSnoc(heap, list, i, matches);
        ghost var before := handleToNode;
        var h := HandleIf(list[i], matches);
        HandlesForGrow(before, handleToNode, hs, Matching(heap, list[..i], matches), if h.Some? then Some((h.value, list[i])) else None);
        if h.Some? {
          hs := hs + [h.value];
        }
      }
      assert list[..|list|] == list;
      r := Ok(hs);
    }

    /**
     * `Document.getIDs()`: each `id` value of the document's elements with
     * the handle of the last element in tree order that carries it.
     */
    method GetIDs() returns (r: Outcome<map<string, int>>)
      requires Valid()
      modifies this
      ensures Valid() && heap == old(heap) && next == old(next) && document == old(document)
      ensures KeepsHandles(old(handleToNode), handleToNode)
      ensures document.None? ==> r == Ok(map[])
      ensures document.Some? ==> (r.Fail? <==> Walk(heap, document.value, |heap|).Fail?)
      ensures document.Some? && r.Ok? ==>
        var list := Walk(heap, document.value, |heap|).value;
        IdsFor(handleToNode, r.value, heap, list)
    {
      if document.None? {
        return Ok(map[]);
      }
      var walk := Walk(heap, document.value, |heap|);
      if walk.Fail? {
        return Fail(walk.exc);
      }
      var list := walk.value;
      var ids: map<string, int> := map[];
      for i := 0 to |list|
        invariant Valid() && heap == old(heap) && next == old(next) && document == old(document)
        invariant KeepsHandles(old(handleToNode), handleToNode)
        invariant IdsFor(handleToNode, ids, heap, list[..i])
      {
        ghost var before := handleToNode;
        var objects := heap;
        var h := HandleIf(list[i], (x: NodeId) => IdOf(objects, x).Some?);
        IdsForGrow(before, handleToNode, ids, heap, list, i, h);
        if h.Some? {
          ids := ids[IdOf(heap, list[i]).value := h.value];
        }
      }
      assert list[..|list|] == list;
      r := Ok(ids);
    }
  }
}
