// Kotlin's `String` helpers that the browser relies on (`trim`, `isBlank`,
// `substringBefore`, `split`, `toInt`, ...), stated on `seq<char>`.

module Strings {
  import opened Common

  /** `Char.isWhitespace()` on the JVM: `Character.isWhitespace || Character.isSpaceChar`. */
  predicate IsWhitespace(c: char)
  {
    c == ' ' || ('\U{0009}' <= c <= '\U{000D}') || ('\U{001C}' <= c <= '\U{001F}')
    || c == '\U{00A0}' || c == '\U{1680}' || ('\U{2000}' <= c <= '\U{200A}')
    || c == '\U{2028}' || c == '\U{2029}' || c == '\U{202F}' || c == '\U{205F}' || c == '\U{3000}'
  }

  /** Visible ASCII characters are not whitespace. */
  lemma PrintableNotWhitespace(c: char)
    requires '!' <= c <= '~'
    ensures !IsWhitespace(c)
  {
  }

  /** `CharSequence.isBlank()`: empty or whitespace only. */
  predicate IsBlank(s: string)
  {
    forall i :: 0 <= i < |s| ==> IsWhitespace(s[i])
  }

  predicate IsAsciiDigit(c: char) { '0' <= c <= '9' }
  predicate IsAsciiLetter(c: char) { 'a' <= c <= 'z' || 'A' <= c <= 'Z' }

  function LowerChar(c: char): char
  {
    if 'A' <= c <= 'Z' then (c as int + 32) as char else c
  }

  function UpperChar(c: char): char
  {
    if 'a' <= c <= 'z' then (c as int - 32) as char else c
  }

  /** `lowercase()` restricted to ASCII letters. */
  function Lower(s: string): (r: string)
    ensures |r| == |s|
    ensures forall i :: 0 <= i < |s| ==> r[i] == LowerChar(s[i])
  {
    if s == [] then [] else [LowerChar(s[0])] + Lower(s[1..])
  }

  /** `uppercase()` restricted to ASCII letters. */
  function Upper(s: string): (r: string)
    ensures |r| == |s|
    ensures forall i :: 0 <= i < |s| ==> r[i] == UpperChar(s[i])
  {
    if s == [] then [] else [UpperChar(s[0])] + Upper(s[1..])
  }

  lemma LowerIdempotent(s: string)
    ensures Lower(Lower(s)) == Lower(s)
  {
  }

  // ---------------------------------------------------------------- trimming

  /** Drops the longest prefix whose characters satisfy `p`. */
  function TrimStartWhere(s: string, p: char -> bool): (r: string)
    ensures |r| <= |s|
    ensures r == [] || !p(r[0])
    ensures forall i :: 0 <= i < |s| - |r| ==> p(s[i])
    decreases |s|
  {
    if |s| > 0 && p(s[0]) then TrimStartWhere(s[1..], p) else s
  }

  /** Drops the longest suffix whose characters satisfy `p`. */
  function TrimEndWhere(s: string, p: char -> bool): (r: string)
    ensures |r| <= |s|
    ensures r == [] || !p(r[|r| - 1])
    ensures forall i :: |r| <= i < |s| ==> p(s[i])
    decreases |s|
  {
    if |s| > 0 && p(s[|s| - 1]) then TrimEndWhere(s[..|s| - 1], p) else s
  }

  /** What `TrimStartWhere` keeps is a suffix of its input. */
  lemma {:induction false} TrimStartIsSuffix(s: string, p: char -> bool)
    ensures var r := TrimStartWhere(s, p); r == s[|s| - |r|..]
    decreases |s|
  {
    if |s| > 0 && p(s[0]) {
      TrimStartIsSuffix(s[1..], p);
    }
  }

  /** What `TrimEndWhere` keeps is a prefix of its input. */
  lemma {:induction false} TrimEndIsPrefix(s: string, p: char -> bool)
    ensures var r := TrimEndWhere(s, p); r == s[..|r|]
    decreases |s|
  {
    if |s| > 0 && p(s[|s| - 1]) {
      TrimEndIsPrefix(s[..|s| - 1], p);
    }
  }

  /** `trim()` */
  function Trim(s: string): (r: string)
    ensures |r| <= |s|
    ensures r == [] || (!IsWhitespace(r[0]) && !IsWhitespace(r[|r| - 1]))
  {
    var t := TrimStartWhere(s, IsWhitespace);
    TrimStartIsSuffix(s, IsWhitespace);
    TrimEndIsPrefix(t, IsWhitespace);
    TrimEndWhere(t, IsWhitespace)
  }

  /** `trim()` leaves nothing exactly when the text is blank. */
  lemma TrimEmptyIffBlank(s: string)
    ensures Trim(s) == [] <==> IsBlank(s)
  {
    var t := TrimStartWhere(s, IsWhitespace);
    TrimStartIsSuffix(s, IsWhitespace);
    TrimEndIsPrefix(t, IsWhitespace);
  }

  /** Every character is already lower case. */
  predicate IsLower(s: string)
  {
    forall i :: 0 <= i < |s| ==> LowerChar(s[i]) == s[i]
  }

  lemma {:induction false} TrimStartKeepsLower(s: string, p: char -> bool)
    requires IsLower(s)
    ensures IsLower(TrimStartWhere(s, p))
    decreases |s|
  {
    if |s| > 0 && p(s[0]) {
      assert forall i :: 0 <= i < |s[1..]| ==> s[1..][i] == s[i + 1];
      TrimStartKeepsLower(s[1..], p);
    }
  }

  lemma {:induction false} TrimEndKeepsLower(s: string, p: char -> bool)
    requires IsLower(s)
    ensures IsLower(TrimEndWhere(s, p))
    decreases |s|
  {
    if |s| > 0 && p(s[|s| - 1]) {
      TrimEndKeepsLower(s[..|s| - 1], p);
    }
  }

  /** `lowercase().trim()`, the way names are normalised, yields a lower-case name. */
  lemma TrimLowerIsLower(s: string)
    ensures IsLower(Trim(Lower(s)))
  {
    var l := Lower(s);
    TrimStartKeepsLower(l, IsWhitespace);
    TrimEndKeepsLower(TrimStartWhere(l, IsWhitespace), IsWhitespace);
  }

  /** `trimEnd(c)` */
  function TrimEndChar(s: string, c: char): (r: string)
    ensures |r| <= |s| && r == s[..|r|]
    ensures r == [] || r[|r| - 1] != c
  {
    var p := x => x == c;
    TrimEndIsPrefix(s, p);
    TrimEndWhere(s, p)
  }

  /** `trim(c1, c2)` */
  function TrimChars(s: string, cs: set<char>): (r: string)
    ensures r == [] || (r[0] !in cs && r[|r| - 1] !in cs)
  {
    var p := x => x in cs;
    var t := TrimStartWhere(s, p);
    TrimStartIsSuffix(s, p);
    TrimEndIsPrefix(t, p);
    TrimEndWhere(t, p)
  }

  lemma TrimOfTrimmed(s: string)
    requires s == [] || (!IsWhitespace(s[0]) && !IsWhitespace(s[|s| - 1]))
    ensures Trim(s) == s
  {
  }

  /** Trimming only drops characters: a character class the text avoids, its trimmed form avoids too. */
  lemma TrimAvoids(s: string, cs: set<char>)
    requires forall k :: 0 <= k < |s| ==> s[k] !in cs
    ensures forall k :: 0 <= k < |Trim(s)| ==> Trim(s)[k] !in cs
  {
    var t := TrimStartWhere(s, IsWhitespace);
    var r := TrimEndWhere(t, IsWhitespace);
    assert r == Trim(s);
    TrimStartIsSuffix(s, IsWhitespace);
    TrimEndIsPrefix(t, IsWhitespace);
    forall k | 0 <= k < |r|
      ensures r[k] !in cs
    {
      assert r[k] == t[k];
      assert t[k] == s[k + |s| - |t|];
    }
  }

  // -------------------------------------------------------------- searching

  predicate StartsWith(s: string, p: string) { |p| <= |s| && s[..|p|] == p }
  predicate EndsWith(s: string, p: string) { |p| <= |s| && s[|s| - |p|..] == p }

  /** `startsWith(c)` for a one-character prefix. */
  predicate StartsWithChar(s: string, c: char) { |s| > 0 && s[0] == c }

  lemma StartsWithCharIsStartsWith(s: string, c: char)
    ensures StartsWithChar(s, c) <==> StartsWith(s, [c])
  {
    if |s| > 0 {
      assert s[..1] == [s[0]];
    }
  }

  /** `d` occurs in `s` at position `j`. */
  predicate OccursAt(s: string, d: string, j: int)
  {
    0 <= j && j + |d| <= |s| && s[j..j + |d|] == d
  }

  function IndexFrom(s: string, d: string, k: nat): (r: int)
    requires k <= |s|
    ensures r == -1 || (k <= r && OccursAt(s, d, r))
    ensures r == -1 ==> forall j :: k <= j ==> !OccursAt(s, d, j)
    ensures r != -1 ==> forall j :: k <= j < r ==> !OccursAt(s, d, j)
    decreases |s| - k
  {
    if k + |d| > |s| then -1
    else if s[k..k + |d|] == d then k
    else if k == |s| then -1
    else IndexFrom(s, d, k + 1)
  }

  /** `indexOf(d)`: the first occurrence of `d`, or -1. */
  function IndexOf(s: string, d: string): (r: int)
    ensures r == -1 || OccursAt(s, d, r)
    ensures r == -1 <==> forall j :: !OccursAt(s, d, j)
    ensures r != -1 ==> forall j :: 0 <= j < r ==> !OccursAt(s, d, j)
  {
    IndexFrom(s, d, 0)
  }

  predicate Contains(s: string, d: string) { IndexOf(s, d) != -1 }

  function LastIndexBelow(s: string, d: string, k: int): (r: int)
    requires k <= |s|
    ensures r == -1 || (r <= k && OccursAt(s, d, r))
    ensures forall j :: r < j <= k ==> !OccursAt(s, d, j)
    decreases k + 1
  {
    if k < 0 then -1
    else if OccursAt(s, d, k) then k
    else LastIndexBelow(s, d, k - 1)
  }

  /** `lastIndexOf(d)`: the last occurrence of `d`, or -1. */
  function LastIndexOf(s: string, d: string): (r: int)
    ensures r == -1 || OccursAt(s, d, r)
    ensures forall j :: r < j ==> !OccursAt(s, d, j)
  {
    LastIndexBelow(s, d, |s|)
  }

  /** `substringBefore(d)`: everything before the first `d`, or `s` when absent. */
  function SubstringBefore(s: string, d: string): (r: string)
    ensures !Contains(s, d) ==> r == s
    ensures Contains(s, d) ==> r + d <= s
    ensures |d| > 0 ==> !Contains(r, d)
  {
    var i := IndexOf(s, d);
    if i < 0 then s
    else
      PrefixOccurrences(s, d, i);
      s[..i]
  }

  lemma PrefixOccurrences(s: string, d: string, i: int)
    requires 0 <= i <= |s|
    ensures forall j :: OccursAt(s[..i], d, j) ==> OccursAt(s, d, j) && j + |d| <= i
  {
    forall j | OccursAt(s[..i], d, j)
      ensures OccursAt(s, d, j) && j + |d| <= i
    {
      assert s[..i][j..j + |d|] == s[j..j + |d|];
    }
  }

  /** `substringAfter(d, missing)`: everything after the first `d`, or `missing`. */
  function SubstringAfter(s: string, d: string, missing: string): (r: string)
    ensures !Contains(s, d) ==> r == missing
    ensures Contains(s, d) ==> SubstringBefore(s, d) + d + r == s
  {
    var i := IndexOf(s, d);
    if i < 0 then missing else s[i + |d|..]
  }

  /** `substringBeforeLast(d)`: everything before the last `d`, or `s` when absent. */
  function SubstringBeforeLast(s: string, d: string): (r: string)
    ensures LastIndexOf(s, d) == -1 ==> r == s
    ensures LastIndexOf(s, d) != -1 ==> r + d <= s && |r| == LastIndexOf(s, d)
  {
    var i := LastIndexOf(s, d);
    if i < 0 then s else s[..i]
  }

  /** `replaceBeforeLast(d, repl)`: the part before the last `d` becomes `repl`. */
  function ReplaceBeforeLast(s: string, d: char, repl: string): (r: string)
    ensures LastIndexOf(s, [d]) == -1 ==> r == s
    ensures LastIndexOf(s, [d]) != -1 ==> r == repl + s[LastIndexOf(s, [d])..] && r[|repl|] == d
  {
    var i := LastIndexOf(s, [d]);
    if i < 0 then s else repl + s[i..]
  }

  lemma NotContainsChar(s: string, c: char)
    requires forall i :: 0 <= i < |s| ==> s[i] != c
    ensures !Contains(s, [c])
  {
    forall j
      ensures !OccursAt(s, [c], j)
    {
      CharOccursAt(s, c, j);
    }
  }

  /** A text whose characters all differ from `d`'s first one holds no `d`. */
  lemma NoOccurrence(a: string, d: string)
    requires |d| > 0 && forall i :: 0 <= i < |a| ==> a[i] != d[0]
    ensures !Contains(a, d)
  {
    forall j
      ensures !OccursAt(a, d, j)
    {
      if 0 <= j && j + |d| <= |a| {
        assert a[j..j + |d|][0] == a[j];
      }
    }
  }

  /** The first `d` in `a + d + b` is the one after `a` when `a` cannot start an occurrence. */
  lemma FirstOccurrence(a: string, d: string, b: string, missing: string)
    requires |d| > 0 && forall i :: 0 <= i < |a| ==> a[i] != d[0]
    ensures IndexOf(a + d + b, d) == |a|
    ensures SubstringBefore(a + d + b, d) == a
    ensures SubstringAfter(a + d + b, d, missing) == b
  {
    var s := a + d + b;
    assert s[|a|..|a| + |d|] == d;
    assert OccursAt(s, d, |a|);
    forall j | 0 <= j < |a|
      ensures !OccursAt(s, d, j)
    {
      if j + |d| <= |s| {
        assert s[j..j + |d|][0] == s[j] == a[j];
      }
    }
    assert s[..|a|] == a;
    assert s[|a| + |d|..] == b;
  }

  /** The same, for an `a` that may contain `d[0]` but no occurrence of `d` starting inside it. */
  lemma FirstOccurrenceAt(a: string, d: string, b: string, missing: string)
    requires |d| > 0 && forall j :: 0 <= j < |a| ==> !OccursAt(a + d + b, d, j)
    ensures IndexOf(a + d + b, d) == |a|
    ensures SubstringBefore(a + d + b, d) == a
    ensures SubstringAfter(a + d + b, d, missing) == b
  {
    var s := a + d + b;
    assert s[|a|..|a| + |d|] == d;
    assert OccursAt(s, d, |a|);
    assert s[..|a|] == a;
    assert s[|a| + |d|..] == b;
  }

  lemma ContainsCharAt(s: string, c: char, k: int)
    requires 0 <= k < |s| && s[k] == c
    ensures Contains(s, [c]) && IndexOf(s, [c]) <= k
  {
    assert s[k..k + 1] == [c];
    assert OccursAt(s, [c], k);
  }

  lemma CharOccursAt(s: string, c: char, k: int)
    ensures OccursAt(s, [c], k) <==> (0 <= k < |s| && s[k] == c)
  {
    if 0 <= k < |s| {
      assert s[k..k + 1] == [s[k]];
    }
  }

  // -------------------------------------------------------------- splitting

  /** `split(*delims)` with single-character delimiters; keeps empty pieces. */
  function SplitOn(s: string, delims: set<char>): (r: seq<string>)
    ensures |r| >= 1
    decreases |s|
  {
    var i := FirstIn(s, delims, 0);
    if i == |s| then [s] else [s[..i]] + SplitOn(s[i + 1..], delims)
  }

  /** Text without a delimiter is one piece. */
  lemma SplitOnNone(s: string, delims: set<char>)
    requires forall i :: 0 <= i < |s| ==> s[i] !in delims
    ensures SplitOn(s, delims) == [s]
  {
    if |s| > 0 {
      assert FirstIn(s, delims, 0) == |s|;
    }
  }

  /** Splitting on one character and joining the pieces with it gives the text back. */
  lemma {:induction false} SplitOnJoin(s: string, d: char)
    ensures Join(SplitOn(s, {d}), [d]) == s
    decreases |s|
  {
    var i := FirstIn(s, {d}, 0);
    if i < |s| {
      var rest := SplitOn(s[i + 1..], {d});
      assert SplitOn(s, {d}) == [s[..i]] + rest;
      SplitOnJoin(s[i + 1..], d);
      assert Join([s[..i]] + rest, [d]) == s[..i] + [d] + Join(rest, [d]);
      assert s == s[..i] + [s[i]] + s[i + 1..];
    }
  }

  /** No piece holds a delimiter. */
  lemma {:induction false} SplitOnAvoids(s: string, delims: set<char>)
    ensures forall k :: 0 <= k < |SplitOn(s, delims)| ==> forall j :: 0 <= j < |SplitOn(s, delims)[k]| ==> SplitOn(s, delims)[k][j] !in delims
    decreases |s|
  {
    var i := FirstIn(s, delims, 0);
    FirstInSkips(s, delims, 0);
    if i < |s| {
      SplitOnAvoids(s[i + 1..], delims);
    }
  }

  /** The first index at or after `k` whose character is in `delims`, or `|s|`. */
  function FirstIn(s: string, delims: set<char>, k: nat): (r: nat)
    requires k <= |s|
    ensures k <= r <= |s|
    ensures r < |s| ==> s[r] in delims
    decreases |s| - k
  {
    if k == |s| || s[k] in delims then k else FirstIn(s, delims, k + 1)
  }

  /** Everything `FirstIn` passes over is outside `delims`. */
  lemma {:induction false} FirstInSkips(s: string, delims: set<char>, k: nat)
    requires k <= |s|
    ensures forall i :: k <= i < FirstIn(s, delims, k) ==> s[i] !in delims
    decreases |s| - k
  {
    if k < |s| && s[k] !in delims {
      FirstInSkips(s, delims, k + 1);
    }
  }

  /** `split(d)` with a non-empty string delimiter; keeps empty pieces. */
  function SplitStr(s: string, d: string): (r: seq<string>)
    requires |d| > 0
    ensures |r| >= 1
    ensures !Contains(s, d) ==> r == [s]
    ensures Contains(s, d) ==> r[0] == SubstringBefore(s, d) && r[1..] == SplitStr(SubstringAfter(s, d, s), d)
    decreases |s|
  {
    var i := IndexOf(s, d);
    if i < 0 then [s] else [s[..i]] + SplitStr(s[i + |d|..], d)
  }

  /** `joinToString(sep)` */
  function Join(parts: seq<string>, sep: string): string
  {
    if parts == [] then []
    else if |parts| == 1 then parts[0]
    else parts[0] + sep + Join(parts[1..], sep)
  }

  lemma {:induction false} JoinSplitStr(s: string, d: string)
    requires |d| > 0
    ensures Join(SplitStr(s, d), d) == s
    decreases |s|
  {
    var i := IndexOf(s, d);
    if i >= 0 {
      JoinSplitStr(s[i + |d|..], d);
      var rest := SplitStr(s[i + |d|..], d);
      assert SplitStr(s, d) == [s[..i]] + rest;
      assert s == s[..i] + d + s[i + |d|..];
    }
  }

  /** A join starts with its first part. */
  lemma JoinStarts(parts: seq<string>, sep: string)
    requires |parts| >= 1
    ensures parts[0] <= Join(parts, sep)
  {
  }

  /** Splitting a join gives the parts back when no part holds the separator's first character. */
  lemma {:induction false} SplitJoin(parts: seq<string>, d: string)
    requires |d| > 0 && |parts| >= 1
    requires forall i, k :: 0 <= i < |parts| && 0 <= k < |parts[i]| ==> parts[i][k] != d[0]
    ensures SplitStr(Join(parts, d), d) == parts
    decreases |parts|
  {
    if |parts| == 1 {
      NoOccurrence(parts[0], d);
    } else {
      var first, tail := parts[0], parts[1..];
      assert forall i, k :: 0 <= i < |tail| && 0 <= k < |tail[i]| ==> tail[i][k] != d[0] by {
        forall i, k | 0 <= i < |tail| && 0 <= k < |tail[i]| ensures tail[i][k] != d[0] {
          assert tail[i] == parts[i + 1];
        }
      }
      SplitJoin(tail, d);
      assert forall k :: 0 <= k < |first| ==> first[k] != d[0] by {
        forall k | 0 <= k < |first| ensures first[k] != d[0] {
          assert parts[0][k] != d[0];
        }
      }
      assert Join(parts, d) == first + d + Join(tail, d);
      SplitJoinStep(first, tail, d);
      assert parts == [first] + tail;
    }
  }

  /** One more part in front: its split is that part followed by the split of the rest. */
  lemma SplitJoinStep(first: string, tail: seq<string>, d: string)
    requires |d| > 0 && forall k :: 0 <= k < |first| ==> first[k] != d[0]
    requires SplitStr(Join(tail, d), d) == tail
    ensures SplitStr(first + d + Join(tail, d), d) == [first] + tail
  {
    var rest := Join(tail, d);
    var s := first + d + rest;
    FirstOccurrence(first, d, rest, s);
    var r := SplitStr(s, d);
    assert r[0] == first && r[1..] == tail;
    assert r == [r[0]] + r[1..];
  }

  /** `split(d, limit = 2)`: the text before and after the first `d`, when there is one. */
  function SplitFirst(s: string, d: string): (r: Option<(string, string)>)
    requires |d| > 0
    ensures r.None? <==> !Contains(s, d)
    ensures r.Some? ==> r.value.0 + d + r.value.1 == s && !Contains(r.value.0, d)
  {
    if !Contains(s, d) then None
    else Some((SubstringBefore(s, d), SubstringAfter(s, d, s)))
  }

  // ----------------------------------------------------------------- numbers

  function DigitChar(d: nat): char
    requires d < 10
  {
    ('0' as int + d) as char
  }

  function DigitValue(c: char): nat
    requires IsAsciiDigit(c)
  {
    c as int - '0' as int
  }

  predicate AllDigits(s: string)
  {
    forall i :: 0 <= i < |s| ==> IsAsciiDigit(s[i])
  }

  /** The value of a string of decimal digits. */
  function DigitsValue(s: string): nat
    requires AllDigits(s)
  {
    if s == [] then 0 else 10 * DigitsValue(s[..|s| - 1]) + DigitValue(s[|s| - 1])
  }

  /** `Int.toString()` for a non-negative value. */
  function NatToString(n: nat): (r: string)
    ensures |r| >= 1 && AllDigits(r)
    ensures DigitsValue(r) == n
    ensures r[0] == '0' ==> n == 0
  {
    if n < 10 then [DigitChar(n)]
    else
      var r := NatToString(n / 10) + [DigitChar(n % 10)];
      assert r[..|r| - 1] == NatToString(n / 10);
      r
  }

  /** `Int.toString()` */
  function IntToString(i: int): (r: string)
    ensures |r| >= 1
    ensures i >= 0 ==> r == NatToString(i)
    ensures i < 0 ==> r == "-" + NatToString(-i)
  {
    if i >= 0 then NatToString(i) else "-" + NatToString(-i)
  }

  /** Kotlin's `toInt()`/`toLong()` without the width check: an optional sign, then one or more digits. */
  function ParseInteger(s: string): (r: Option<int>)
    ensures r.Some? <==> (
      (|s| >= 1 && AllDigits(s)) ||
      (|s| >= 2 && (s[0] == '-' || s[0] == '+') && AllDigits(s[1..])))
  {
    if |s| >= 1 && AllDigits(s) then Some(DigitsValue(s) as int)
    else if |s| >= 2 && s[0] == '-' && AllDigits(s[1..]) then Some(0 - DigitsValue(s[1..]) as int)
    else if |s| >= 2 && s[0] == '+' && AllDigits(s[1..]) then Some(DigitsValue(s[1..]))
    else None
  }

  const IntMin: int := -0x8000_0000
  const IntMax: int := 0x7FFF_FFFF

  /** `String.toInt()`: a malformed or out-of-range value throws NumberFormatException. */
  function ToInt(s: string): (r: Outcome<int>)
    ensures r.Ok? ==> IntMin <= r.value <= IntMax && ParseInteger(s) == Some(r.value)
    ensures r.Fail? ==> r.exc == NumberFormat
  {
    match ParseInteger(s)
    case Some(v) => if IntMin <= v <= IntMax then Ok(v) else Fail(NumberFormat)
    case None => Fail(NumberFormat)
  }

  const LongMin: int := -0x8000_0000_0000_0000
  const LongMax: int := 0x7FFF_FFFF_FFFF_FFFF

  /** `String.toLong()`: the same, over the 64-bit range. */
  function ToLong(s: string): (r: Outcome<int>)
    ensures r.Ok? ==> LongMin <= r.value <= LongMax && ParseInteger(s) == Some(r.value)
    ensures r.Fail? ==> r.exc == NumberFormat
  {
    match ParseInteger(s)
    case Some(v) => if LongMin <= v <= LongMax then Ok(v) else Fail(NumberFormat)
    case None => Fail(NumberFormat)
  }

  lemma ParseIntToString(i: int)
    ensures ParseInteger(IntToString(i)) == Some(i)
  {
    if i < 0 {
      assert IntToString(i)[1..] == NatToString(-i);
    }
  }

  /** Printing an `Int` and parsing it back gives the same `Int`. */
  lemma ToIntOfToString(i: int)
    requires IntMin <= i <= IntMax
    ensures ToInt(IntToString(i)) == Ok(i)
  {
    ParseIntToString(i);
  }
}
