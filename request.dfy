// HTTP/1.1 request messages (Request.kt, in both trees). The header map is
// the three defaults followed by the caller's headers; `encode` writes the
// request line and header section of section 3 and section 2.1 of RFC 9112.

module Requests {
  import opened Common
  import opened Strings
  import opened LinkedMaps
  import opened Urls

  const CRLF: string := "\r\n"
  const UserAgent: string := "Browser from Scratch"

  /** `mapOf("Host" to host, "Connection" to "keep-alive", "User-Agent" to ...)` */
  function DefaultHeaders(host: string): LinkedMap<string, string>
  {
    [("Host", host), ("Connection", "keep-alive"), ("User-Agent", UserAgent)]
  }

  /** Bytes of one character in UTF-8 (`String.toByteArray()`); a Dafny `char` is a scalar value, never a lone surrogate. */
  function Utf8Size(c: char): nat
  {
    if c as int < 0x80 then 1 else if c as int < 0x800 then 2 else if c as int < 0x1_0000 then 3 else 4
  }

  /** `s.toByteArray().size` */
  function Utf8Length(s: string): (r: nat)
    ensures |s| <= r <= 4 * |s|
  {
    if s == [] then 0 else Utf8Size(s[0]) + Utf8Length(s[1..])
  }

  /** ASCII text takes one byte per character. */
  lemma {:induction false} AsciiLength(s: string)
    requires forall i :: 0 <= i < |s| ==> s[i] as int < 0x80
    ensures Utf8Length(s) == |s|
  {
    if s != [] {
      AsciiLength(s[1..]);
    }
  }

  /** A request: the URL, the method, the merged headers and the body text (`decodeToString` of its bytes). */
  datatype Request = Request(url: Url, methodName: string, headers: LinkedMap<string, string>, body: Option<string>)

  /**
   * The newer `Request(url, method, _headers, rawBody)`: a body adds a
   * `Content-Length` default after the other three, and the caller's
   * headers are put over the defaults.
   */
  function NewRequest(url: Url, methodName: string, caller: LinkedMap<string, string>, rawBody: Option<string>): (r: Request)
    ensures r.url == url && r.methodName == methodName && r.body == rawBody
  {
    Request(url, methodName, PutAll(InitialHeaders(url.host, rawBody), caller), rawBody)
  }

  /** The map `init` builds before adding the caller's headers. */
  function InitialHeaders(host: string, rawBody: Option<string>): LinkedMap<string, string>
  {
    if rawBody.Some? then Put(DefaultHeaders(host), "Content-Length", NatToString(Utf8Length(rawBody.value)))
    else DefaultHeaders(host)
  }

  /** The older `Request(url, method, _headers)`: no body and no `Content-Length`. */
  function OldRequest(url: Url, methodName: string, caller: LinkedMap<string, string>): (r: Request)
    ensures r.url == url && r.methodName == methodName && r.body == None
  {
    Request(url, methodName, PutAll(DefaultHeaders(url.host), caller), None)
  }

  /** The keys `init` puts in before the caller's. */
  function DefaultKeys(withBody: bool): seq<string>
  {
    ["Host", "Connection", "User-Agent"] + if withBody then ["Content-Length"] else []
  }

  lemma DefaultsBeforeCaller(host: string, rawBody: Option<string>, tmp: LinkedMap<string, string>)
    requires tmp == InitialHeaders(host, rawBody)
    ensures Keys(tmp) == DefaultKeys(rawBody.Some?) && Valid(tmp)
    ensures Get(tmp, "Host") == Some(host) && Get(tmp, "Connection") == Some("keep-alive")
    ensures Get(tmp, "User-Agent") == Some(UserAgent)
    ensures rawBody.Some? ==> Get(tmp, "Content-Length") == Some(NatToString(Utf8Length(rawBody.value)))
  {
    var d := DefaultHeaders(host);
    DefaultHeadersHold(host, d);
    if rawBody.Some? {
      var v := NatToString(Utf8Length(rawBody.value));
      assert tmp == Put(d, "Content-Length", v);
      WithContentLength(d, v, tmp);
    }
  }

  /** `tmp["Content-Length"] = ...` on the defaults appends a fourth header and leaves the others alone. */
  lemma WithContentLength(d: LinkedMap<string, string>, v: string, tmp: LinkedMap<string, string>)
    requires Keys(d) == DefaultKeys(false) && Valid(d) && tmp == Put(d, "Content-Length", v)
    ensures Keys(tmp) == DefaultKeys(true) && Valid(tmp) && Get(tmp, "Content-Length") == Some(v)
    ensures forall k :: k != "Content-Length" ==> Get(tmp, k) == Get(d, k)
  {
    ContentLengthKeys(d, v, tmp);
    forall k | k != "Content-Length"
      ensures Get(tmp, k) == Get(d, k)
    {
      PutOther(d, "Content-Length", v, k);
    }
  }

  lemma ContentLengthKeys(d: LinkedMap<string, string>, v: string, tmp: LinkedMap<string, string>)
    requires Keys(d) == DefaultKeys(false) && Valid(d) && tmp == Put(d, "Content-Length", v)
    ensures Keys(tmp) == DefaultKeys(true) && Valid(tmp)
  {
    assert "Content-Length" !in Keys(d) by {
      assert Keys(d) == ["Host", "Connection", "User-Agent"];
    }
    assert Keys(tmp) == Keys(d) + ["Content-Length"];
    assert DefaultKeys(true) == DefaultKeys(false) + ["Content-Length"];
    PutValid(d, "Content-Length", v);
  }

  lemma DefaultHeadersHold(host: string, d: LinkedMap<string, string>)
    requires d == DefaultHeaders(host)
    ensures Keys(d) == DefaultKeys(false) && Valid(d)
    ensures Get(d, "Host") == Some(host) && Get(d, "Connection") == Some("keep-alive")
    ensures Get(d, "User-Agent") == Some(UserAgent)
  {
    assert Keys(d) == ["Host", "Connection", "User-Agent"];
    GetAt(d, 0);
    GetAt(d, 1);
    GetAt(d, 2);
  }

  /**
   * The merged header map of the newer request: the defaults come first and
   * in their order, a caller's header wins over a default of the same name,
   * defaults the caller does not name keep their values, and nothing else
   * is added.
   */
  lemma NewRequestHeaders(url: Url, methodName: string, caller: LinkedMap<string, string>, rawBody: Option<string>)
    requires Valid(caller)
    ensures var h := NewRequest(url, methodName, caller, rawBody).headers;
      Valid(h) && DefaultKeys(rawBody.Some?) <= Keys(h)
      && (forall k :: k in Keys(caller) ==> Get(h, k) == Get(caller, k))
      && (forall k :: k in Keys(h) ==> k in Keys(caller) || k in DefaultKeys(rawBody.Some?))
      && ("Host" !in Keys(caller) ==> Get(h, "Host") == Some(url.host))
      && ("User-Agent" !in Keys(caller) ==> Get(h, "User-Agent") == Some(UserAgent))
      && ("Connection" !in Keys(caller) ==> Get(h, "Connection") == Some("keep-alive"))
      && (rawBody.Some? && "Content-Length" !in Keys(caller) ==>
            Get(h, "Content-Length") == Some(NatToString(Utf8Length(rawBody.value))))
      && (rawBody.None? && "Content-Length" !in Keys(caller) ==> "Content-Length" !in Keys(h))
  {
    var h := NewRequest(url, methodName, caller, rawBody).headers;
    MergedOverDefaults(h, InitialHeaders(url.host, rawBody), caller, url.host, rawBody);
  }

  /** The same for the older request, which has no body. */
  lemma OldRequestHeaders(url: Url, methodName: string, caller: LinkedMap<string, string>)
    requires Valid(caller)
    ensures var h := OldRequest(url, methodName, caller).headers;
      Valid(h) && DefaultKeys(false) <= Keys(h)
      && (forall k :: k in Keys(caller) ==> Get(h, k) == Get(caller, k))
      && (forall k :: k in Keys(h) ==> k in Keys(caller) || k in DefaultKeys(false))
      && ("Host" !in Keys(caller) ==> Get(h, "Host") == Some(url.host))
      && ("User-Agent" !in Keys(caller) ==> Get(h, "User-Agent") == Some(UserAgent))
      && ("Connection" !in Keys(caller) ==> Get(h, "Connection") == Some("keep-alive"))
  {
    var h := OldRequest(url, methodName, caller).headers;
    MergedOverDefaults(h, InitialHeaders(url.host, None), caller, url.host, None);
  }

  lemma MergedOverDefaults(h: LinkedMap<string, string>, tmp: LinkedMap<string, string>, caller: LinkedMap<string, string>,
                           host: string, rawBody: Option<string>)
    requires Valid(caller) && tmp == InitialHeaders(host, rawBody) && h == PutAll(tmp, caller)
    ensures Valid(h) && DefaultKeys(rawBody.Some?) <= Keys(h)
    ensures forall k :: k in Keys(caller) ==> Get(h, k) == Get(caller, k)
    ensures forall k :: k in Keys(h) ==> k in Keys(caller) || k in DefaultKeys(rawBody.Some?)
    ensures "Host" !in Keys(caller) ==> Get(h, "Host") == Some(host)
    ensures "User-Agent" !in Keys(caller) ==> Get(h, "User-Agent") == Some(UserAgent)
    ensures "Connection" !in Keys(caller) ==> Get(h, "Connection") == Some("keep-alive")
    ensures rawBody.Some? && "Content-Length" !in Keys(caller) ==>
      Get(h, "Content-Length") == Some(NatToString(Utf8Length(rawBody.value)))
    ensures rawBody.None? && "Content-Length" !in Keys(caller) ==> "Content-Length" !in Keys(h)
  {
    DefaultsBeforeCaller(host, rawBody, tmp);
    MergeHeaders(tmp, caller);
  }

  /** `tmp + _headers` on valid maps. */
  lemma MergeHeaders(tmp: LinkedMap<string, string>, caller: LinkedMap<string, string>)
    requires Valid(tmp) && Valid(caller)
    ensures var h := PutAll(tmp, caller);
      Valid(h) && Keys(tmp) <= Keys(h)
      && (forall k :: k in Keys(caller) ==> Get(h, k) == Get(caller, k))
      && (forall k :: k !in Keys(caller) ==> Get(h, k) == Get(tmp, k))
      && (forall k :: k in Keys(h) ==> k in Keys(caller) || k in Keys(tmp))
  {
    PutAllKeepsOrder(tmp, caller);
    forall k | k in Keys(caller)
      ensures Get(PutAll(tmp, caller), k) == Get(caller, k)
    {
      PutAllGet(tmp, caller, k);
    }
    forall k | k !in Keys(caller)
      ensures Get(PutAll(tmp, caller), k) == Get(tmp, k)
    {
      PutAllOther(tmp, caller, k);
    }
    forall k | k in Keys(PutAll(tmp, caller))
      ensures k in Keys(caller) || k in Keys(tmp)
    {
      PutAllKeysFrom(tmp, caller, k);
    }
  }

  // -------------------------------------------------------------- encoding

  /** `"${it.key}: ${it.value}"` for every header, in the map's order. */
  function HeaderLines(h: LinkedMap<string, string>): (r: seq<string>)
    ensures |r| == |h|
    ensures forall i :: 0 <= i < |h| ==> r[i] == h[i].0 + ": " + h[i].1
  {
    if h == [] then [] else [h[0].0 + ": " + h[0].1] + HeaderLines(h[1..])
  }

  function RequestLine(r: Request): string
  {
    r.methodName + " " + r.url.path + " HTTP/1.1"
  }

  /** The newer `encode()`: the header lines each end in CRLF, an empty line follows, then the body text. */
  function Encode(r: Request): string
  {
    RequestLine(r) + CRLF + (Join(HeaderLines(r.headers), CRLF) + CRLF) + CRLF
      + (if r.body.Some? then r.body.value else "")
  }

  /** The older `encode()`: the header lines joined by CRLF, then an empty line, never a body. */
  function EncodeOld(r: Request): string
  {
    RequestLine(r) + CRLF + Join(HeaderLines(r.headers), CRLF) + CRLF + CRLF
  }

  predicate NoCR(s: string) { forall i :: 0 <= i < |s| ==> s[i] != '\r' }

  /** Text that can sit on one line of the message head: method, path, header names and values. */
  predicate LineSafe(r: Request)
  {
    NoCR(r.methodName) && NoCR(r.url.path) && forall i :: 0 <= i < |r.headers| ==> NoCR(r.headers[i].0) && NoCR(r.headers[i].1)
  }

  /** Lines of the head: non-empty and free of CR. */
  predicate HeadLines(lines: seq<string>)
  {
    forall i :: 0 <= i < |lines| ==> |lines[i]| > 0 && NoCR(lines[i])
  }

  /** A character that differs from `d[k]` at `j + k` rules out an occurrence of `d` at `j`. */
  lemma MismatchAt(s: string, d: string, j: int, k: int)
    requires 0 <= k < |d| && 0 <= j && j + k < |s| && s[j + k] != d[k]
    ensures !OccursAt(s, d, j)
  {
    if j + |d| <= |s| {
      assert s[j..j + |d|][k] == s[j + k];
    }
  }

  /** Occurrences past a prefix are occurrences in the rest. */
  lemma ShiftOccurrence(p: string, t: string, d: string, j: int)
    requires j >= |p|
    ensures OccursAt(p + t, d, j) <==> OccursAt(t, d, j - |p|)
  {
    if j + |d| <= |p + t| {
      assert (p + t)[j..j + |d|] == t[j - |p|..j - |p| + |d|];
    }
  }

  /** No empty line (CRLF CRLF) starts inside a CRLF-join of non-empty CR-free lines, whatever follows it. */
  lemma {:induction false} NoBlankLineInside(lines: seq<string>, rest: string)
    requires |lines| >= 1 && HeadLines(lines)
    ensures forall j :: 0 <= j < |Join(lines, CRLF)| ==> !OccursAt(Join(lines, CRLF) + rest, CRLF + CRLF, j)
    decreases |lines|
  {
    var d := CRLF + CRLF;
    var l := lines[0];
    if |lines| == 1 {
      forall j | 0 <= j < |l|
        ensures !OccursAt(l + rest, d, j)
      {
        MismatchAt(l + rest, d, j, 0);
      }
    } else {
      var tail := Join(lines[1..], CRLF);
      var t := tail + rest;
      var p := l + CRLF;
      var s := p + t;
      assert Join(lines, CRLF) + rest == s;
      JoinStarts(lines[1..], CRLF);
      assert |tail| > 0 && t[0] == lines[1][0];
      NoBlankLineInside(lines[1..], rest);
      forall j | 0 <= j < |Join(lines, CRLF)|
        ensures !OccursAt(s, d, j)
      {
        if j < |l| {
          assert s[j] == l[j];
          MismatchAt(s, d, j, 0);
        } else if j == |l| {
          assert s[j + 2] == t[0];
          MismatchAt(s, d, j, 2);
        } else if j == |l| + 1 {
          MismatchAt(s, d, j, 0);
        } else {
          ShiftOccurrence(p, t, d, j);
        }
      }
    }
  }

  /**
   * A head of lines followed by an empty line and a body splits back into
   * those lines and that body at the first empty line.
   */
  lemma MessageReadsBack(lines: seq<string>, body: string)
    requires |lines| >= 1 && HeadLines(lines)
    ensures var m := Join(lines, CRLF) + (CRLF + CRLF) + body;
      SplitStr(SubstringBefore(m, CRLF + CRLF), CRLF) == lines
      && SubstringAfter(m, CRLF + CRLF, "") == body
  {
    NoBlankLineInside(lines, CRLF + CRLF + body);
    assert Join(lines, CRLF) + (CRLF + CRLF) + body == Join(lines, CRLF) + (CRLF + CRLF + body);
    FirstOccurrenceAt(Join(lines, CRLF), CRLF + CRLF, body, "");
    SplitJoin(lines, CRLF);
  }

  lemma HeadOfRequest(r: Request)
    requires LineSafe(r) && |r.headers| >= 1
    ensures var lines := [RequestLine(r)] + HeaderLines(r.headers);
      HeadLines(lines) && Join(lines, CRLF) == RequestLine(r) + CRLF + Join(HeaderLines(r.headers), CRLF)
  {
    var lines := [RequestLine(r)] + HeaderLines(r.headers);
    assert lines[1..] == HeaderLines(r.headers);
    forall i | 0 <= i < |lines|
      ensures |lines[i]| > 0 && NoCR(lines[i])
    {
      if i > 0 {
        var e := r.headers[i - 1];
        var line := lines[i];
        assert line == e.0 + ": " + e.1;
        forall k | 0 <= k < |line|
          ensures line[k] != '\r'
        {
          if k < |e.0| {
            assert line[k] == e.0[k];
          } else if k >= |e.0| + 2 {
            assert line[k] == e.1[k - |e.0| - 2];
          }
        }
      } else {
        var rl := RequestLine(r);
        forall k | 0 <= k < |rl|
          ensures rl[k] != '\r'
        {
          if k < |r.methodName| {
            assert rl[k] == r.methodName[k];
          } else if |r.methodName| < k < |r.methodName| + 1 + |r.url.path| {
            assert rl[k] == r.url.path[k - |r.methodName| - 1];
          }
        }
      }
    }
  }

  /**
   * The newer `encode` reads back: up to the first empty line are the
   * request line and one `name: value` line per header in map order, and
   * after it is exactly the body text.
   */
  lemma EncodeReadsBack(r: Request)
    requires LineSafe(r) && |r.headers| >= 1
    ensures var m := Encode(r);
      SplitStr(SubstringBefore(m, CRLF + CRLF), CRLF) == [RequestLine(r)] + HeaderLines(r.headers)
      && SubstringAfter(m, CRLF + CRLF, "") == (if r.body.Some? then r.body.value else "")
  {
    var lines := [RequestLine(r)] + HeaderLines(r.headers);
    var body := if r.body.Some? then r.body.value else "";
    HeadOfRequest(r);
    assert Encode(r) == Join(lines, CRLF) + (CRLF + CRLF) + body;
    MessageReadsBack(lines, body);
  }

  /** The older `encode` reads back the same way and carries nothing after the empty line. */
  lemma EncodeOldReadsBack(r: Request)
    requires LineSafe(r) && |r.headers| >= 1
    ensures var m := EncodeOld(r);
      SplitStr(SubstringBefore(m, CRLF + CRLF), CRLF) == [RequestLine(r)] + HeaderLines(r.headers)
      && SubstringAfter(m, CRLF + CRLF, "") == ""
  {
    var lines := [RequestLine(r)] + HeaderLines(r.headers);
    HeadOfRequest(r);
    assert EncodeOld(r) == Join(lines, CRLF) + (CRLF + CRLF) + "";
    MessageReadsBack(lines, "");
  }
}
