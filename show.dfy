// The first text-mode renderer of the browser (`show` in the older
// main.kt): a one-pass scanner that drops everything between `<` and `>`,
// decodes the `&lt;` and `&gt;` entities and echoes every other character.
// The characters it prints are returned here as a string.

module ShowText {

  /** The scanner's three variables: inside a tag, inside an entity, the entity name read so far. */
  datatype Scan = Scan(inTag: bool, inEntity: bool, entity: string)

  const Start: Scan := Scan(false, false, "")

  /** The entity table: only `lt` and `gt` are known, every other name prints nothing. */
  function EntityText(name: string): (r: string)
    ensures |r| <= 1
    ensures r == "<" <==> name == "lt"
    ensures r == ">" <==> name == "gt"
    ensures r != "" <==> name == "lt" || name == "gt"
  {
    if name == "lt" then "<" else if name == "gt" then ">" else ""
  }

  /** What one character does: the new scanner state and what is printed. */
  function Step(st: Scan, c: char): (Scan, string)
  {
    if c == '<' then (st.(inTag := true), "")
    else if c == '>' then (st.(inTag := false), "")
    else if c == '&' then (st.(inEntity := true), "")
    else if c == ';' then (Scan(st.inTag, false, ""), EntityText(st.entity))
    else if st.inEntity then (st.(entity := st.entity + [c]), "")
    else if !st.inTag then (st, [c])
    else (st, "")
  }

  /** Everything printed while scanning `s` from state `st`. */
  function ShownFrom(st: Scan, s: string): string
    decreases |s|
  {
    if s == [] then "" else Step(st, s[0]).1 + ShownFrom(Step(st, s[0]).0, s[1..])
  }

  /** The state after scanning `s` from `st`. */
  function After(st: Scan, s: string): Scan
    decreases |s|
  {
    if s == [] then st else After(Step(st, s[0]).0, s[1..])
  }

  function Shown(body: string): string { ShownFrom(Start, body) }

  /** A character with no meaning to the scanner. */
  predicate Plain(c: char) { c != '<' && c != '>' && c != '&' && c != ';' }

  predicate AllPlain(s: string) { forall i :: 0 <= i < |s| ==> Plain(s[i]) }

  /** An entity name is only collected while an entity is open. */
  predicate Consistent(st: Scan) { !st.inEntity ==> st.entity == "" }

  /** `show`: the loop over the body, printing as it goes. */
  method Show(body: string) returns (out: string)
    ensures out == Shown(body)
  {
    var inTag := false;
    var inEntity := false;
    var entity := "";
    out := "";
    var i := 0;
    while i < |body|
      invariant 0 <= i <= |body|
      invariant out + ShownFrom(Scan(inTag, inEntity, entity), body[i..]) == Shown(body)
    {
      assert body[i..][0] == body[i] && body[i..][1..] == body[i + 1..];
      var printed;
      inTag, inEntity, entity, printed := Consume(inTag, inEntity, entity, body[i]);
      out := out + printed;
      i := i + 1;
    }
  }

  /** The body of `show`'s loop for one character. */
  method Consume(inTag: bool, inEntity: bool, entity: string, c: char)
    returns (inTag': bool, inEntity': bool, entity': string, printed: string)
    ensures (Scan(inTag', inEntity', entity'), printed) == Step(Scan(inTag, inEntity, entity), c)
  {
    inTag', inEntity', entity', printed := inTag, inEntity, entity, "";
    if c == '<' {
      inTag' := true;
    } else if c == '>' {
      inTag' := false;
    } else if c == '&' {
      inEntity' := true;
    } else if c == ';' {
      inEntity' := false;
      printed := EntityText(entity);
      entity' := "";
    } else if inEntity {
      entity' := entity + [c];
    } else if !inTag {
      printed := [c];
    }
  }

  /** The scanner never opens an entity name without an open entity. */
  lemma StepConsistent(st: Scan, c: char)
    requires Consistent(st)
    ensures Consistent(Step(st, c).0)
  {
  }

  lemma {:induction false} AfterConsistent(st: Scan, s: string)
    requires Consistent(st)
    ensures Consistent(After(st, s))
    decreases |s|
  {
    if s != [] {
      StepConsistent(st, s[0]);
      AfterConsistent(Step(st, s[0]).0, s[1..]);
    }
  }

  /** Text without markup is echoed unchanged, character for character and in order. */
  lemma {:induction false} PlainTextEchoed(st: Scan, s: string)
    requires !st.inTag && !st.inEntity && AllPlain(s)
    ensures ShownFrom(st, s) == s
    decreases |s|
  {
    if s != [] {
      assert Plain(s[0]);
      assert AllPlain(s[1..]) by { forall i | 0 <= i < |s| - 1 ensures Plain(s[1..][i]) { assert s[1..][i] == s[i + 1]; } }
      PlainTextEchoed(st, s[1..]);
    }
  }

  /** Inside a tag plain characters print nothing and leave the state alone. */
  lemma {:induction false} TagTextSilent(st: Scan, s: string, rest: string)
    requires st.inTag && !st.inEntity && AllPlain(s)
    ensures ShownFrom(st, s + rest) == ShownFrom(st, rest)
    decreases |s|
  {
    if s != [] {
      assert (s + rest)[0] == s[0] && (s + rest)[1..] == s[1..] + rest;
      assert Plain(s[0]);
      assert Step(st, s[0]) == (st, "");
      assert AllPlain(s[1..]) by { forall i | 0 <= i < |s| - 1 ensures Plain(s[1..][i]) { assert s[1..][i] == s[i + 1]; } }
      TagTextSilent(st, s[1..], rest);
      assert ShownFrom(st, s + rest) == "" + ShownFrom(st, s[1..] + rest);
    } else {
      assert s + rest == rest;
    }
  }

  /** A tag `<t>` whose inside holds no markup characters is dropped entirely. */
  lemma TagStripped(st: Scan, t: string, rest: string)
    requires !st.inEntity && AllPlain(t)
    ensures ShownFrom(st, "<" + t + ">" + rest) == ShownFrom(st.(inTag := false), rest)
  {
    var s := "<" + t + ">" + rest;
    assert s[0] == '<' && s[1..] == t + (">" + rest);
    TagTextSilent(st.(inTag := true), t, ">" + rest);
    assert (">" + rest)[0] == '>' && (">" + rest)[1..] == rest;
  }

  /** While an entity is open, plain characters are appended to its name and print nothing. */
  lemma {:induction false} EntityNameCollected(st: Scan, n: string, rest: string)
    requires st.inEntity && AllPlain(n)
    ensures ShownFrom(st, n + rest) == ShownFrom(st.(entity := st.entity + n), rest)
    decreases |n|
  {
    if n != [] {
      assert (n + rest)[0] == n[0] && (n + rest)[1..] == n[1..] + rest;
      assert Plain(n[0]);
      assert Step(st, n[0]) == (st.(entity := st.entity + [n[0]]), "");
      assert AllPlain(n[1..]) by { forall i | 0 <= i < |n| - 1 ensures Plain(n[1..][i]) { assert n[1..][i] == n[i + 1]; } }
      EntityNameCollected(st.(entity := st.entity + [n[0]]), n[1..], rest);
      assert st.entity + [n[0]] + n[1..] == st.entity + n;
      assert ShownFrom(st, n + rest) == "" + ShownFrom(st.(entity := st.entity + [n[0]]), n[1..] + rest);
    } else {
      assert n + rest == rest && st.entity + n == st.entity;
    }
  }

  /**
   * `&name;` prints the table entry for the name collected so far, which is
   * the name itself unless an earlier `&` was never closed, and then the
   * scan goes on outside any entity. This holds inside a tag too.
   */
  lemma EntityDecoded(st: Scan, n: string, rest: string)
    requires AllPlain(n)
    ensures ShownFrom(st, "&" + n + ";" + rest)
         == EntityText(st.entity + n) + ShownFrom(Scan(st.inTag, false, ""), rest)
  {
    var s := "&" + n + ";" + rest;
    assert s[0] == '&' && s[1..] == n + (";" + rest);
    EntityNameCollected(st.(inEntity := true), n, ";" + rest);
    assert (";" + rest)[0] == ';' && (";" + rest)[1..] == rest;
  }

  /** From the start state, `&lt;` prints `<` and `&gt;` prints `>`. */
  lemma KnownEntities(rest: string)
    ensures Shown("&lt;" + rest) == "<" + Shown(rest)
    ensures Shown("&gt;" + rest) == ">" + Shown(rest)
  {
    assert AllPlain("lt") && AllPlain("gt");
    EntityDecoded(Start, "lt", rest);
    assert "&" + "lt" + ";" + rest == "&lt;" + rest;
    EntityDecoded(Start, "gt", rest);
    assert "&" + "gt" + ";" + rest == "&gt;" + rest;
  }

  /** A `;` with no entity open prints nothing. */
  lemma LoneSemicolonSilent(st: Scan, rest: string)
    requires Consistent(st) && !st.inEntity
    ensures ShownFrom(st, ";" + rest) == ShownFrom(st, rest)
  {
    assert (";" + rest)[0] == ';' && (";" + rest)[1..] == rest;
  }

  /**
   * The output never holds `&` or `;`, and holds `<` or `>` only when the
   * body has a `;` that closed an entity; it is never longer than the body.
   */
  lemma {:induction false} ShownChars(st: Scan, s: string)
    ensures '&' !in ShownFrom(st, s) && ';' !in ShownFrom(st, s)
    ensures ('<' in ShownFrom(st, s) || '>' in ShownFrom(st, s)) ==> ';' in s
    ensures |ShownFrom(st, s)| <= |s|
    decreases |s|
  {
    if s != [] {
      ShownChars(Step(st, s[0]).0, s[1..]);
      assert s == [s[0]] + s[1..];
    }
  }
}
