// URL parsing, printing and reference resolution (URL.kt in the older
// tree). A URL is a value: the scheme before the first `:`, the text after
// the scheme separator (`url`), a host and port for http/https, and a path.
// `resolve` is a simplified form of the reference resolution of section 5.2
// of RFC 3986: no query or fragment handling, `../` only at the start.

module Urls {
  import opened Common
  import opened Strings

  datatype Url = Url(scheme: string, url: string, host: string, port: int, path: string)

  predicate KnownScheme(scheme: string)
  {
    scheme == "http" || scheme == "https" || scheme == "file" || scheme == "data"
  }

  predicate IsHttp(scheme: string) { scheme == "http" || scheme == "https" }

  function DefaultPort(scheme: string): int
  {
    if scheme == "http" then 80 else if scheme == "https" then 443 else 0
  }

  /** The text after the scheme: after `://` for http, https and file, after `:` for data. */
  function Rest(s: string, scheme: string): string
  {
    if scheme == "data" then SubstringAfter(s, ":", s) else SubstringAfter(s, "://", s)
  }

  /** The fields the constructor derives from the scheme and the text after it. */
  function Build(scheme: string, rest: string): (r: Outcome<Url>)
    requires KnownScheme(scheme)
    ensures r.Ok? ==> r.value.scheme == scheme && r.value.url == rest
    ensures r.Fail? ==> IsHttp(scheme) && r.exc == NumberFormat
    ensures !IsHttp(scheme) ==> r == Ok(Url(scheme, rest, "", 0, rest))
    ensures r.Ok? && IsHttp(scheme) ==> StartsWith(r.value.path, "/") && IntMin <= r.value.port <= IntMax
  {
    if IsHttp(scheme) then
      var parts := SplitStr(SubstringBefore(rest, "/"), ":");
      var port :- if |parts| == 2 then ToInt(parts[1]) else Ok(DefaultPort(scheme));
      Ok(Url(scheme, rest, parts[0], port, "/" + SubstringAfter(rest, "/", "")))
    else Ok(Url(scheme, rest, "", 0, rest))
  }

  /**
   * `URL(url)`: an unknown scheme fails the `require` (IllegalArgumentException),
   * a port that is not a number fails `toInt` (NumberFormatException).
   */
  function Parse(s: string): (r: Outcome<Url>)
    ensures !KnownScheme(SubstringBefore(s, ":")) ==> r == Fail(IllegalArgument)
    ensures KnownScheme(SubstringBefore(s, ":")) ==> r == Build(SubstringBefore(s, ":"), Rest(s, SubstringBefore(s, ":")))
  {
    var scheme := SubstringBefore(s, ":");
    if !KnownScheme(scheme) then Fail(IllegalArgument) else Build(scheme, Rest(s, scheme))
  }

  /** `toString()`: the default port of the scheme is left out. */
  function UrlString(u: Url): string
  {
    u.scheme + "://" + u.host + PortPart(u) + u.path
  }

  function PortPart(u: Url): string
  {
    if (u.scheme == "https" && u.port == 443) || (u.scheme == "http" && u.port == 80) then ""
    else ":" + IntToString(u.port)
  }

  /** `withPath(path)`: the same scheme, host and port (always written out), another path. */
  function WithPath(u: Url, path: string): Outcome<Url>
  {
    Parse(u.scheme + "://" + u.host + ":" + IntToString(u.port) + path)
  }

  /** A host an http URL can carry: no `:` and no `/` in it. */
  predicate PlainHost(host: string)
  {
    forall i :: 0 <= i < |host| ==> host[i] != ':' && host[i] != '/'
  }

  /** The fields of an http(s) URL that printing and parsing preserve. */
  predicate WellFormed(u: Url)
  {
    IsHttp(u.scheme) && PlainHost(u.host) && IntMin <= u.port <= IntMax && StartsWith(u.path, "/")
  }

  lemma IntToStringPlain(i: int)
    ensures PlainHost(IntToString(i))
  {
    var t := IntToString(i);
    if i < 0 {
      assert t == "-" + NatToString(-i);
      assert forall k :: 1 <= k < |t| ==> t[k] == NatToString(-i)[k - 1];
    }
  }

  /** A scheme without `:` is read back from `scheme://rest`, and so is the rest. */
  lemma SchemeAndRest(scheme: string, rest: string)
    requires IsHttp(scheme)
    ensures Parse(scheme + "://" + rest) == Build(scheme, rest)
  {
    var s := scheme + "://" + rest;
    assert forall i :: 0 <= i < |scheme| ==> scheme[i] != ':';
    assert s == scheme + ":" + ("//" + rest);
    FirstOccurrence(scheme, ":", "//" + rest, s);
    FirstOccurrence(scheme, "://", rest, s);
  }

  /** The text after `://` is `[host][:port]path`: the host, the port and the path come out again. */
  lemma {:induction false} BuildAuthority(scheme: string, host: string, port: int, shown: bool, path: string)
    requires IsHttp(scheme) && PlainHost(host) && IntMin <= port <= IntMax && StartsWith(path, "/")
    requires !shown ==> port == DefaultPort(scheme)
    ensures var portText := if shown then ":" + IntToString(port) else "";
      Build(scheme, host + portText + path) == Ok(Url(scheme, host + portText + path, host, port, path))
  {
    var portText := if shown then ":" + IntToString(port) else "";
    var authority := host + portText;
    var rest := authority + path;
    AuthorityPlain(host, port, shown);
    assert path == "/" + path[1..] by { assert path[..1] == "/"; }
    assert rest == authority + "/" + path[1..];
    FirstOccurrence(authority, "/", path[1..], "");
    if shown {
      assert authority == host + ":" + IntToString(port);
      PortSplit(host, port);
      ToIntOfToString(port);
      BuildPorted(scheme, rest, authority, path[1..], host, port);
    } else {
      assert authority == host;
      NoOccurrence(host, ":");
      BuildDefault(scheme, rest, host, path[1..]);
    }
  }

  lemma BuildPorted(scheme: string, rest: string, authority: string, tail: string, host: string, port: int)
    requires IsHttp(scheme) && SubstringBefore(rest, "/") == authority && SubstringAfter(rest, "/", "") == tail
    requires SplitStr(authority, ":") == [host, IntToString(port)] && ToInt(IntToString(port)) == Ok(port)
    ensures Build(scheme, rest) == Ok(Url(scheme, rest, host, port, "/" + tail))
  {
  }

  lemma BuildDefault(scheme: string, rest: string, host: string, tail: string)
    requires IsHttp(scheme) && SubstringBefore(rest, "/") == host && SubstringAfter(rest, "/", "") == tail
    requires SplitStr(host, ":") == [host]
    ensures Build(scheme, rest) == Ok(Url(scheme, rest, host, DefaultPort(scheme), "/" + tail))
  {
  }

  lemma AuthorityPlain(host: string, port: int, shown: bool)
    requires PlainHost(host)
    ensures var a := host + (if shown then ":" + IntToString(port) else "");
      forall i :: 0 <= i < |a| ==> a[i] != '/'
  {
    IntToStringPlain(port);
    var a := host + (if shown then ":" + IntToString(port) else "");
    if shown {
      assert forall i :: |host| + 1 <= i < |a| ==> a[i] == IntToString(port)[i - |host| - 1];
    }
  }

  lemma PortSplit(host: string, port: int)
    requires PlainHost(host)
    ensures SplitStr(host + ":" + IntToString(port), ":") == [host, IntToString(port)]
  {
    var p := IntToString(port);
    IntToStringPlain(port);
    FirstOccurrence(host, ":", p, host + ":" + p);
    NoOccurrence(p, ":");
  }

  /**
   * The central parsing fact: `scheme://host[:port]path` with a plain host
   * and a path starting with `/` parses back to exactly those parts.
   */
  lemma ParseAuthority(scheme: string, host: string, port: int, shown: bool, path: string)
    requires IsHttp(scheme) && PlainHost(host) && IntMin <= port <= IntMax && StartsWith(path, "/")
    requires !shown ==> port == DefaultPort(scheme)
    ensures var portText := if shown then ":" + IntToString(port) else "";
      Parse(scheme + "://" + host + portText + path) == Ok(Url(scheme, host + portText + path, host, port, path))
  {
    var portText := if shown then ":" + IntToString(port) else "";
    assert scheme + "://" + host + portText + path == scheme + "://" + (host + portText + path);
    SchemeAndRest(scheme, host + portText + path);
    BuildAuthority(scheme, host, port, shown, path);
  }

  /** Printing a well-formed URL and parsing the text again gives back its scheme, host, port and path. */
  lemma ParseUrlString(u: Url)
    requires WellFormed(u)
    ensures var r := Parse(UrlString(u));
      r.Ok? && r.value.scheme == u.scheme && r.value.host == u.host && r.value.port == u.port && r.value.path == u.path
  {
    var shown := PortPart(u) != "";
    ParseAuthority(u.scheme, u.host, u.port, shown, u.path);
    assert UrlString(u) == u.scheme + "://" + u.host + (if shown then ":" + IntToString(u.port) else "") + u.path;
  }

  /** `withPath` keeps scheme, host and port and installs the new path. */
  lemma WithPathKeeps(u: Url, path: string)
    requires WellFormed(u) && StartsWith(path, "/")
    ensures var r := WithPath(u, path);
      r.Ok? && r.value.scheme == u.scheme && r.value.host == u.host && r.value.port == u.port && r.value.path == path
  {
    var text := u.scheme + "://" + u.host + ":" + IntToString(u.port) + path;
    assert text == u.scheme + "://" + u.host + (":" + IntToString(u.port)) + path;
    ParseAuthority(u.scheme, u.host, u.port, true, path);
  }

  /** A parsed URL is determined by its scheme and `url`, the two fields `hashCode` reads. */
  lemma ParsedDeterminedByKey(s1: string, s2: string)
    requires Parse(s1).Ok? && Parse(s2).Ok?
    requires Parse(s1).value.scheme == Parse(s2).value.scheme && Parse(s1).value.url == Parse(s2).value.url
    ensures Parse(s1) == Parse(s2)
  {
  }

  // ---------------------------------------------------------------- hashing

  /** A 32-bit two's-complement wrap of an integer. */
  function Wrap32(x: int): (r: int)
    ensures IntMin <= r <= IntMax
  {
    (x - IntMin) % 0x1_0000_0000 + IntMin
  }

  /** `String.hashCode()`: `s[0]*31^(n-1) + … + s[n-1]` in 32-bit arithmetic. */
  function StringHash(s: string): int
  {
    if s == [] then 0 else Wrap32(31 * StringHash(s[..|s| - 1]) + s[|s| - 1] as int)
  }

  /** `hashCode()`: scheme and `url` only. */
  function HashCode(u: Url): (r: int)
    ensures IntMin <= r <= IntMax
  {
    Wrap32(31 * StringHash(u.scheme) + StringHash(u.url))
  }

  // -------------------------------------------------------------- resolving

  /** `substringAfter("/")` on a reference starting with `../` drops exactly those three characters. */
  lemma DropDotDot(ref: string)
    requires StartsWith(ref, "../")
    ensures SubstringAfter(ref, "/", ref) == ref[3..]
  {
    assert ref == ".." + "/" + ref[3..] by { assert ref[..3] == "../"; }
    FirstOccurrence("..", "/", ref[3..], ref);
  }

  /**
   * The `while (tmpUrl.startsWith("../"))` loop: each `../` is dropped from the
   * reference and takes one segment off the directory while it still has a `/`.
   */
  function DotDot(ref: string, dir: string): (r: (string, string))
    ensures !StartsWith(r.0, "../")
    decreases |ref|
  {
    if StartsWith(ref, "../") then
      DropDotDot(ref);
      DotDot(SubstringAfter(ref, "/", ref), if Contains(dir, "/") then SubstringBeforeLast(dir, "/") else dir)
    else (ref, dir)
  }

  /** However many `../` a reference starts with, the directory only ever shrinks to a prefix of itself. */
  lemma {:induction false} DotDotStaysInside(ref: string, dir: string)
    ensures DotDot(ref, dir).1 <= dir
    decreases |ref|
  {
    if StartsWith(ref, "../") {
      DropDotDot(ref);
      var dir' := if Contains(dir, "/") then SubstringBeforeLast(dir, "/") else dir;
      DotDotStaysInside(SubstringAfter(ref, "/", ref), dir');
    }
  }

  /** Each leading `../` removes exactly one segment while the directory has one. */
  lemma DotDotOneLevel(rest: string, dir: string)
    requires !StartsWith(rest, "../") && Contains(dir, "/")
    ensures DotDot("../" + rest, dir) == (rest, SubstringBeforeLast(dir, "/"))
  {
    var ref := "../" + rest;
    assert ref == ".." + "/" + rest;
    FirstOccurrence("..", "/", rest, ref);
    assert StartsWith(ref, "../") by { assert ref[..3] == "../"; }
  }

  /** What `resolve(ref)` on `base` returns (or throws). */
  function ResolveSpec(base: Url, ref: string): Outcome<Url>
  {
    if IsBlank(ref) then Ok(base) else Parse(ResolvedText(base, ref))
  }

  /** The text a non-blank reference is turned into before it is parsed. */
  function ResolvedText(base: Url, ref: string): string
  {
    if Contains(ref, "://") then ref
    else
      var t := if StartsWith(ref, "/") then ref else Joined(ref, SubstringBeforeLast(base.path, "/"));
      if StartsWith(t, "//") then base.scheme + ":" + t
      else base.scheme + "://" + base.host + ":" + IntToString(base.port) + t
  }

  /** `"$dir/$tmpUrl"` after the `../` loop. */
  function Joined(ref: string, dir: string): string
  {
    var p := DotDot(ref, dir);
    p.1 + "/" + p.0
  }

  /** `resolve(url)` */
  method Resolve(base: Url, ref: string) returns (r: Outcome<Url>)
    ensures r == ResolveSpec(base, ref)
  {
    if IsBlank(ref) {
      return Ok(base);
    }
    var text := Target(base, ref);
    r := Parse(text);
  }

  /** The body of `resolve` between the blank check and the final `URL(...)`. */
  method Target(base: Url, ref: string) returns (text: string)
    ensures text == ResolvedText(base, ref)
  {
    var tmpUrl := ref;
    if Contains(tmpUrl, "://") {
      return tmpUrl;
    }
    if !StartsWith(tmpUrl, "/") {
      var dir := SubstringBeforeLast(base.path, "/");
      while StartsWith(tmpUrl, "../")
        invariant DotDot(tmpUrl, dir) == DotDot(ref, SubstringBeforeLast(base.path, "/"))
        decreases |tmpUrl|
      {
        DropDotDot(tmpUrl);
        tmpUrl := SubstringAfter(tmpUrl, "/", tmpUrl);
        if Contains(dir, "/") {
          dir := SubstringBeforeLast(dir, "/");
        }
      }
      tmpUrl := dir + "/" + tmpUrl;
    }
    if StartsWith(tmpUrl, "//") {
      text := base.scheme + ":" + tmpUrl;
    } else {
      text := base.scheme + "://" + base.host + ":" + IntToString(base.port) + tmpUrl;
    }
  }

  /** A blank reference resolves to the base itself. */
  lemma ResolveBlank(base: Url, ref: string)
    requires IsBlank(ref)
    ensures ResolveSpec(base, ref) == Ok(base)
  {
  }

  /** A host-relative reference `/x` keeps the base's scheme, host and port and takes `/x` as the path. */
  lemma ResolveRooted(base: Url, ref: string)
    requires WellFormed(base) && StartsWith(ref, "/") && !StartsWith(ref, "//") && !Contains(ref, "://")
    ensures var r := ResolveSpec(base, ref);
      r.Ok? && r.value.scheme == base.scheme && r.value.host == base.host && r.value.port == base.port && r.value.path == ref
  {
    assert !IsBlank(ref) by { assert ref[0] == ref[..1][0]; }
    assert ResolvedText(base, ref) == base.scheme + "://" + base.host + ":" + IntToString(base.port) + ref;
    assert ResolveSpec(base, ref) == WithPath(base, ref);
    WithPathKeeps(base, ref);
  }

  /** A scheme-relative reference `//host/path` takes the base's scheme and its own host, with the default port. */
  lemma ResolveSchemeRelative(base: Url, host: string, path: string)
    requires IsHttp(base.scheme) && PlainHost(host) && StartsWith(path, "/") && !Contains("//" + host + path, "://")
    ensures ResolveSpec(base, "//" + host + path) == Ok(Url(base.scheme, host + path, host, DefaultPort(base.scheme), path))
  {
    SchemeRelativeText(base, "//" + host + path, host, path);
    ParseAuthority(base.scheme, host, DefaultPort(base.scheme), false, path);
  }

  /** A reference starting with `//` and without `://` is prefixed with the base's scheme and a colon. */
  lemma SchemeRelativeText(base: Url, ref: string, host: string, path: string)
    requires ref == "//" + host + path && !Contains(ref, "://")
    ensures !IsBlank(ref) && ResolvedText(base, ref) == base.scheme + "://" + host + "" + path
  {
    assert !IsBlank(ref) by { assert ref[0] == '/'; }
    assert StartsWith(ref, "/") && StartsWith(ref, "//") by { assert ref[..2] == "//"; assert ref[..1] == "/"; }
    assert base.scheme + ":" + ref == base.scheme + "://" + host + "" + path;
  }

  /**
   * A bare name resolves next to the base's last path segment: in the
   * directory `dir` of a base path `dir/leaf`.
   */
  lemma ResolveSibling(base: Url, dir: string, leaf: string, name: string)
    requires WellFormed(base) && base.path == dir + "/" + leaf
    requires forall i :: 0 <= i < |leaf| ==> leaf[i] != '/'
    requires forall i :: 0 <= i < |name| ==> name[i] != '/' && name[i] != ':'
    requires !IsBlank(name)
    requires !StartsWith(base.path, "//")
    ensures var r := ResolveSpec(base, name);
      r.Ok? && r.value.host == base.host && r.value.port == base.port && r.value.path == dir + "/" + name
  {
    NoOccurrence(name, "://");
    assert |name| > 0;
    assert !StartsWith(name, "/") && !StartsWith(name, "../") by {
      assert name[..1] == [name[0]];
      if |name| >= 3 { assert name[..3][2] == name[2]; }
    }
    LastSlash(dir, leaf);
    var t := dir + "/" + name;
    assert Joined(name, dir) == t;
    SiblingRooted(base.path, dir, leaf, name);
    assert ResolvedText(base, name) == base.scheme + "://" + base.host + ":" + IntToString(base.port) + t;
    assert ResolveSpec(base, name) == WithPath(base, t);
    WithPathKeeps(base, t);
  }

  /** A sibling path of a rooted path that does not start with `//` is rooted the same way. */
  lemma SiblingRooted(p: string, dir: string, leaf: string, name: string)
    requires p == dir + "/" + leaf && StartsWith(p, "/") && !StartsWith(p, "//") && |name| > 0 && name[0] != '/'
    ensures StartsWith(dir + "/" + name, "/") && !StartsWith(dir + "/" + name, "//")
  {
    var t := dir + "/" + name;
    if dir == "" {
      assert t[..1] == "/";
      assert t[1] == name[0];
    } else {
      assert t[..1] == dir[..1] == p[..1];
      assert |dir| >= 2 by { assert p[0] == dir[0]; assert p[..2] == [p[0], p[1]]; }
      assert t[..2] == dir[..2] == p[..2];
    }
  }

  /** The last `/` of `dir + "/" + leaf` is the one before a slash-free leaf. */
  lemma LastSlash(dir: string, leaf: string)
    requires forall i :: 0 <= i < |leaf| ==> leaf[i] != '/'
    ensures SubstringBeforeLast(dir + "/" + leaf, "/") == dir
  {
    var s := dir + "/" + leaf;
    assert OccursAt(s, "/", |dir|) by { assert s[|dir|..|dir| + 1] == "/"; }
    forall j | |dir| < j
      ensures !OccursAt(s, "/", j)
    {
      if j + 1 <= |s| {
        assert s[j..j + 1] == [leaf[j - |dir| - 1]];
      }
    }
    assert s[..|dir|] == dir;
  }
}
