// The guestbook server (server/Server.kt): the list of entries, the routing
// of a request line to a page, the comments page, the form decoder, the
// 404 page, the header map and the text of the reply. Sockets are left
// out: a request is its request line, its header lines and the input that
// follows them, and the reply is the text that would be written back.

module Servers {
  import opened Common
  import opened Strings

  const FirstEntry: string := "Pavel was here"
  const Doctype: string := "<!DOCTYPE html>"
  const Ok200: string := "200 OK"
  const NotFound404: string := "404 Not Found"

  /** The fixed markup after the entries: the form, the status line, the script and the stylesheet. */
  const FormTail: string :=
    "<form action=add method=post><p><input name=guest></p><p><button>Sign the book!</button></p></form>"
    + "<strong></strong><script src=/comment.js></script><link rel=stylesheet href=/comment.css>"

  // ------------------------------------------------------------ text length

  /** `String.length`: UTF-16 code units, two for a character outside the Basic Multilingual Plane. */
  function Utf16Length(s: string): (r: nat)
    ensures r >= |s|
  {
    if s == [] then 0 else (if s[0] as int >= 0x1_0000 then 2 else 1) + Utf16Length(s[1..])
  }

  /** A byte as `toByteArray()` produces it. */
  type Byte = b: int | 0 <= b < 256

  /** The UTF-8 encoding of one character. */
  function Utf8Char(c: char): (r: seq<Byte>)
    ensures 1 <= |r| <= 4
    ensures |r| == 1 <==> c as int < 0x80
  {
    var n := c as int;
    if n < 0x80 then [n]
    else if n < 0x800 then [0xC0 + n / 0x40, 0x80 + n % 0x40]
    else if n < 0x1_0000 then [0xE0 + n / 0x1000, 0x80 + (n / 0x40) % 0x40, 0x80 + n % 0x40]
    else [0xF0 + n / 0x4_0000, 0x80 + (n / 0x1000) % 0x40, 0x80 + (n / 0x40) % 0x40, 0x80 + n % 0x40]
  }

  /** `toByteArray()`: the UTF-8 encoding of a text. */
  function Utf8(s: string): seq<Byte>
  {
    if s == [] then [] else Utf8Char(s[0]) + Utf8(s[1..])
  }

  /** Encoding distributes over concatenation. */
  lemma {:induction false} Utf8Append(a: string, b: string)
    ensures Utf8(a + b) == Utf8(a) + Utf8(b)
    decreases |a|
  {
    if a != [] {
      assert (a + b)[0] == a[0] && (a + b)[1..] == a[1..] + b;
      Utf8Append(a[1..], b);
    } else {
      assert a + b == b;
    }
  }

  predicate Ascii(s: string) { forall i :: 0 <= i < |s| ==> s[i] as int < 0x80 }

  /**
   * A text has as many UTF-16 units as UTF-8 bytes exactly when it is
   * ASCII; otherwise it has fewer units than bytes.
   */
  lemma {:induction false} UnitsAgreeIffAscii(s: string)
    ensures Utf16Length(s) <= |Utf8(s)|
    ensures Utf16Length(s) == |Utf8(s)| <==> Ascii(s)
    decreases |s|
  {
    if s != [] {
      UnitsAgreeIffAscii(s[1..]);
      if Ascii(s) {
        assert Ascii(s[1..]) by { forall i | 0 <= i < |s| - 1 ensures s[1..][i] as int < 0x80 { assert s[1..][i] == s[i + 1]; } }
      } else if Ascii(s[1..]) {
        assert !(s[0] as int < 0x80) by {
          if s[0] as int < 0x80 {
            forall i | 0 <= i < |s| ensures s[i] as int < 0x80 { if i > 0 { assert s[i] == s[1..][i - 1]; } }
          }
        }
      }
    }
  }

  // ----------------------------------------------------------------- reply

  /** The head of the reply: status line, `Content-Length` and the blank line. */
  function Head(status: string, length: nat): string
  {
    "HTTP/1.1 " + status + "\r\nContent-Length: " + NatToString(length) + "\r\n\r\n"
  }

  /** The reply as written: `Content-Length` counts the body's UTF-16 units. */
  function ReplyAsWritten(status: string, body: string): (r: string)
    ensures r == Head(status, Utf16Length(body)) + body
  {
    Head(status, Utf16Length(body)) + body
  }

  /** The reply with `Content-Length` counting the bytes the body is sent as. */
  function Reply(status: string, body: string): string
  {
    Head(status, |Utf8(body)|) + body
  }

  /**
   * The bytes written for a reply are its head followed by exactly as many
   * body bytes as `Content-Length` announces.
   */
  lemma ReplyFramesBody(status: string, body: string)
    ensures Utf8(Reply(status, body)) == Utf8(Head(status, |Utf8(body)|)) + Utf8(body)
    ensures DigitsValue(NatToString(|Utf8(body)|)) == |Utf8(body)|
  {
    Utf8Append(Head(status, |Utf8(body)|), body);
  }

  /**
   * The reply as written announces one byte fewer than it sends for a page
   * holding a single `é`, so a client reading `Content-Length` bytes stops
   * short of the body.
   */
  lemma ReplyAsWrittenShortForNonAscii(status: string)
    ensures var body := "é";
      Utf16Length(body) == 1 && |Utf8(body)| == 2
  {
  }

  /** For ASCII pages the two replies are the same text. */
  lemma ReplyAsWrittenAgreesOnAscii(status: string, body: string)
    requires Ascii(body)
    ensures ReplyAsWritten(status, body) == Reply(status, body)
  {
    UnitsAgreeIffAscii(body);
  }

  // ------------------------------------------------------------- the pages

  /** The paragraph of one entry. */
  function Para(entry: string): string { "<p>" + entry + "</p>" }

  /** One `<p>entry</p>` per entry, in order. */
  function Paragraphs(entries: seq<string>): string
  {
    if entries == [] then "" else Paragraphs(entries[..|entries| - 1]) + Para(entries[|entries| - 1])
  }

  /** `showComments()` */
  function CommentsPage(entries: seq<string>): string
  {
    Doctype + Paragraphs(entries) + FormTail
  }

  /** Appending an entry adds its paragraph right before the form. */
  lemma CommentsPageAppend(entries: seq<string>, e: string)
    ensures CommentsPage(entries + [e]) == Doctype + Paragraphs(entries) + Para(e) + FormTail
  {
    assert (entries + [e])[..|entries|] == entries;
  }

  /** Every entry's paragraph lies in the page, after those of the entries before it. */
  lemma {:induction false} ParagraphsList(entries: seq<string>, i: int)
    requires 0 <= i < |entries|
    ensures Paragraphs(entries[..i]) + Para(entries[i]) <= Paragraphs(entries)
    decreases |entries|
  {
    var n := |entries| - 1;
    if i < n {
      assert entries[..n][..i] == entries[..i];
      ParagraphsList(entries[..n], i);
    } else {
      assert entries[..i] == entries[..n];
    }
  }

  /** `notFound(url, method)` */
  function NotFoundPage(url: string, methodName: string): (r: string)
    ensures Doctype <= r
  {
    Doctype + "<h1>" + methodName + " " + url + " not found</h1>"
  }

  // ---------------------------------------------------------- form decoding

  /** `replace(from, to)`: every non-overlapping occurrence, left to right. */
  function Replaced(s: string, from: string, to: string): string
    requires |from| > 0
    decreases |s|
  {
    var i := IndexOf(s, from);
    if i < 0 then s else s[..i] + to + Replaced(s[i + |from|..], from, to)
  }

  /** After `replace("%20", "+")` no `%20` is left for the decoder. */
  lemma {:induction false} NoEncodedSpaceLeft(s: string)
    ensures !Contains(Replaced(s, "%20", "+"), "%20")
    decreases |s|
  {
    var i := IndexOf(s, "%20");
    if i >= 0 {
      NoEncodedSpaceLeft(s[i + 3..]);
      var b := Replaced(s[i + 3..], "%20", "+");
      forall j
        ensures !OccursAt(s[..i] + "+" + b, "%20", j)
      {
        NoOccurrenceAround(s, i, b, j);
      }
    }
  }

  /** No `%20` starts at `j` in `s[..i] + "+" + b` when `i` is the first one in `s` and `b` holds none. */
  lemma NoOccurrenceAround(s: string, i: int, b: string, j: int)
    requires 0 <= i && i == IndexOf(s, "%20") && !Contains(b, "%20")
    ensures !OccursAt(s[..i] + "+" + b, "%20", j)
  {
    var r := s[..i] + "+" + b;
    if 0 <= j && j + 3 <= |r| {
      if j + 3 <= i {
        assert r[j..j + 3] == s[j..j + 3];
        assert !OccursAt(s, "%20", j);
      } else if j <= i {
        assert r[j..j + 3][i - j] == '+';
      } else {
        assert r[j..j + 3] == b[j - i - 1..j - i + 2];
        assert !OccursAt(b, "%20", j - i - 1);
      }
    }
  }

  /** One field `name=value`; a field without `=` cannot be destructured. */
  function Field(field: string, decode: string -> Outcome<string>): (r: Outcome<(string, string)>)
  {
    match SplitFirst(field, "=")
    case None => Fail(IndexOutOfBounds)
    case Some(p) =>
      var name :- decode(Replaced(p.0, "%20", "+"));
      var value :- decode(Replaced(p.1, "%20", "+"));
      Ok((name, value))
  }

  /** `split("&", limit = 2)`: the text before the first `&` and everything after it. */
  function FormFields(text: string): (r: seq<string>)
    ensures 1 <= |r| <= 2
  {
    match SplitFirst(text, "&")
    case None => [text]
    case Some(p) => [p.0, p.1]
  }

  /** The map after the first `k` fields. */
  function Decoded(fields: seq<string>, k: nat, read: string -> Outcome<(string, string)>): Outcome<map<string, string>>
    requires k <= |fields|
  {
    if k == 0 then Ok(map[])
    else
      var m :- Decoded(fields, k - 1, read);
      var f :- read(fields[k - 1]);
      Ok(m[f.0 := f.1])
  }

  /** `formDecode(body)` */
  function FormDecoded(body: Option<string>, decode: string -> Outcome<string>): Outcome<map<string, string>>
  {
    if body.None? then Ok(map[])
    else
      var fields := FormFields(body.value);
      Decoded(fields, |fields|, f => Field(f, decode))
  }

  /** A field map after `k` fields has at most `k` names. */
  lemma {:induction false} DecodedSize(fields: seq<string>, k: nat, read: string -> Outcome<(string, string)>)
    requires k <= |fields|
    ensures Decoded(fields, k, read).Ok? ==> |Decoded(fields, k, read).value| <= k
  {
    if k > 0 {
      DecodedSize(fields, k - 1, read);
    }
  }

  /** Only the first `&` splits, so a decoded form never holds more than two names. */
  lemma AtMostTwoFields(body: Option<string>, decode: string -> Outcome<string>)
    ensures FormDecoded(body, decode).Ok? ==> |FormDecoded(body, decode).value| <= 2
  {
    if body.Some? {
      DecodedSize(FormFields(body.value), |FormFields(body.value)|, f => Field(f, decode));
    }
  }

  /**
   * With an `&` in the body, the second field runs to the end: a third
   * `name=value` pair is swallowed by the second field's value.
   */
  lemma SecondFieldTakesTheRest(a: string, b: string, decode: string -> Outcome<string>)
    requires !Contains(a, "&")
    ensures FormFields(a + "&" + b) == [a, b]
  {
    assert !Contains(a + "&" + b, "&") ==> false by {
      assert (a + "&" + b)[|a|..|a| + 1] == "&";
      assert OccursAt(a + "&" + b, "&", |a|);
    }
    var p := SplitFirst(a + "&" + b, "&").value;
    assert p.0 + "&" + p.1 == a + "&" + b && !Contains(p.0, "&");
    if |p.0| < |a| {
      assert (a + "&" + b)[|p.0|] == '&';
      ContainsCharAt(a, '&', |p.0|);
    } else if |p.0| > |a| {
      assert p.0[|a|] == '&';
      ContainsCharAt(p.0, '&', |a|);
    }
    assert p.0 == (a + "&" + b)[..|a|] == a;
    assert p.1 == (a + "&" + b)[|a| + 1..] == b;
  }

  /** `formDecode(body)`: the body text is split into fields, then read one by one. */
  method FormDecode(body: Option<string>, decode: string -> Outcome<string>) returns (r: Outcome<map<string, string>>)
    ensures r == FormDecoded(body, decode)
  {
    if body.None? {
      return Ok(map[]);
    }
    var fields := FormFields(body.value);
    r := DecodeFields(fields, f => Field(f, decode));
  }

  /** The loop of `formDecode`: each field becomes one entry, a later equal name winning. */
  method DecodeFields(fields: seq<string>, read: string -> Outcome<(string, string)>) returns (r: Outcome<map<string, string>>)
    ensures r == Decoded(fields, |fields|, read)
  {
    var params: map<string, string> := map[];
    var i := 0;
    while i < |fields|
      invariant 0 <= i <= |fields|
      invariant Decoded(fields, i, read) == Ok(params)
    {
      var f := read(fields[i]);
      if f.Fail? {
        FailureSticks(fields, i + 1, |fields|, read);
        return Fail(f.exc);
      }
      params := params[f.value.0 := f.value.1];
      i := i + 1;
    }
    r := Ok(params);
  }

  /** Once a field fails, the whole decode fails with its exception. */
  lemma {:induction false} FailureSticks(fields: seq<string>, k: nat, n: nat, read: string -> Outcome<(string, string)>)
    requires 1 <= k <= n <= |fields|
    requires Decoded(fields, k - 1, read).Ok? && read(fields[k - 1]).Fail?
    ensures Decoded(fields, n, read) == Fail(read(fields[k - 1]).exc)
    decreases n
  {
    if n > k {
      FailureSticks(fields, k, n - 1, read);
    }
  }

  // --------------------------------------------------------------- routing

  datatype Route = Comments | Script | Stylesheet | Add | Missing

  /** `doRequest`'s choice of handler, tried in the source's order. */
  function RouteOf(methodName: string, url: string): (r: Route)
    ensures r == Comments <==> methodName == "GET" && url == "/"
    ensures r == Script <==> methodName == "GET" && url == "/comment.js"
    ensures r == Stylesheet <==> methodName == "GET" && StartsWith(url, "/comment.css")
    ensures r == Add <==> methodName == "POST" && url == "/add"
  {
    if methodName == "GET" && url == "/" then Comments
    else if methodName == "GET" && url == "/comment.js" then Script
    else if methodName == "GET" && StartsWith(url, "/comment.css") then Stylesheet
    else if methodName == "POST" && url == "/add" then Add
    else Missing
  }

  /** `addEntry`'s test: a guest that is present, not blank and at most 100 UTF-16 units long. */
  predicate Accepts(params: map<string, string>)
  {
    "guest" in params && !IsBlank(params["guest"]) && Utf16Length(params["guest"]) <= 100
  }

  function AddedEntries(entries: seq<string>, params: map<string, string>): (r: seq<string>)
    ensures Accepts(params) ==> r == entries + [params["guest"]]
    ensures !Accepts(params) ==> r == entries
  {
    if Accepts(params) then entries + [params["guest"]] else entries
  }

  /** A request handled by the server: what `doRequest` returns and the entries afterwards. */
  datatype Served = Served(entries: seq<string>, result: Outcome<(string, string)>)

  function DoRequestOn(entries: seq<string>, methodName: string, url: string, body: Option<string>,
                       decode: string -> Outcome<string>, script: string, stylesheet: string): Served
  {
    match RouteOf(methodName, url)
    case Comments => Served(entries, Ok((Ok200, CommentsPage(entries))))
    case Script => Served(entries, Ok((Ok200, script)))
    case Stylesheet => Served(entries, Ok((Ok200, stylesheet)))
    case Add =>
      (match FormDecoded(body, decode)
       case Fail(e) => Served(entries, Fail(e))
       case Ok(params) =>
         var now := AddedEntries(entries, params);
         Served(now, Ok((Ok200, CommentsPage(now)))))
    case Missing => Served(entries, Ok((NotFound404, NotFoundPage(url, methodName))))
  }

  /** Entries only ever grow, by at most one, and only through `POST /add`. */
  lemma EntriesOnlyGrow(entries: seq<string>, methodName: string, url: string, body: Option<string>,
                        decode: string -> Outcome<string>, script: string, stylesheet: string)
    ensures var s := DoRequestOn(entries, methodName, url, body, decode, script, stylesheet);
      entries <= s.entries && |s.entries| <= |entries| + 1
      && (s.entries != entries ==> methodName == "POST" && url == "/add")
  {
  }

  /** A guest signing the book with an acceptable name finds it as the last paragraph of the page. */
  lemma SignedGuestShown(entries: seq<string>, body: Option<string>, decode: string -> Outcome<string>,
                         script: string, stylesheet: string)
    requires FormDecoded(body, decode).Ok? && Accepts(FormDecoded(body, decode).value)
    ensures var g := FormDecoded(body, decode).value["guest"];
      DoRequestOn(entries, "POST", "/add", body, decode, script, stylesheet)
        == Served(entries + [g], Ok((Ok200, Doctype + Paragraphs(entries) + Para(g) + FormTail)))
  {
    CommentsPageAppend(entries, FormDecoded(body, decode).value["guest"]);
  }

  /** The status is `404 Not Found` exactly when no route matched. */
  lemma NotFoundIff(entries: seq<string>, methodName: string, url: string, body: Option<string>,
                    decode: string -> Outcome<string>, script: string, stylesheet: string)
    ensures var s := DoRequestOn(entries, methodName, url, body, decode, script, stylesheet);
      s.result.Ok? ==> (s.result.value.0 == NotFound404 <==> RouteOf(methodName, url) == Missing)
  {
  }

  /** The request line's three words; fewer than three cannot be destructured. */
  function RequestLine(line: string): (r: Outcome<(string, string, string)>)
    ensures r.Ok? ==> r.value.0 + " " + r.value.1 + " " + r.value.2 == line
    ensures r.Ok? ==> !Contains(r.value.0, " ") && !Contains(r.value.1, " ")
  {
    match SplitFirst(line, " ")
    case None => Fail(IndexOutOfBounds)
    case Some(p) =>
      match SplitFirst(p.1, " ")
      case None => Fail(IndexOutOfBounds)
      case Some(q) =>
        assert p.0 + " " + p.1 == line && q.0 + " " + q.1 == p.1;
        assert p.0 + " " + (q.0 + " " + q.1) == p.0 + " " + q.0 + " " + q.1;
        Ok((p.0, q.0, q.1))
  }

  // --------------------------------------------------------------- headers

  /**
   * One header line read into the map: `split(":", limit = 2)` destructured
   * into two parts throws IndexOutOfBounds on a line without `:`; the name
   * is lower-cased and trimmed, the value trimmed (which drops the line's CRLF).
   */
  function HeaderEntry(line: string): Outcome<(string, string)>
  {
    match SplitFirst(line, ":")
    case None => Fail(IndexOutOfBounds)
    case Some(p) => Ok((Trim(Lower(p.0)), Trim(p.1)))
  }

  /** A line is read exactly when it has a `:`; the name read is lower-case and trimmed. */
  lemma HeaderEntryRead(line: string)
    ensures HeaderEntry(line).Fail? <==> !Contains(line, ":")
    ensures HeaderEntry(line).Fail? ==> HeaderEntry(line).exc == IndexOutOfBounds
    ensures HeaderEntry(line).Ok? ==> IsLower(HeaderEntry(line).value.0) && Trim(HeaderEntry(line).value.0) == HeaderEntry(line).value.0
  {
    if Contains(line, ":") {
      var p := SplitFirst(line, ":").value;
      TrimLowerIsLower(p.0);
      TrimOfTrimmed(Trim(Lower(p.0)));
    }
  }

  /**
   * `associate` over the first `k` header lines, each line read by `read`:
   * in order, a later equal name winning; the first line `read` rejects throws.
   */
  function HeaderMap(lines: seq<string>, k: nat, read: string -> Outcome<(string, string)>): Outcome<map<string, string>>
    requires k <= |lines|
  {
    if k == 0 then Ok(map[])
    else
      var m :- HeaderMap(lines, k - 1, read);
      var e :- read(lines[k - 1]);
      Ok(m[e.0 := e.1])
  }

  /** The header map is read exactly when every line is; otherwise it fails as the first bad line does. */
  lemma {:induction false} HeaderMapReadIff(lines: seq<string>, k: nat, read: string -> Outcome<(string, string)>)
    requires k <= |lines|
    ensures HeaderMap(lines, k, read).Ok? <==> forall i :: 0 <= i < k ==> read(lines[i]).Ok?
    ensures HeaderMap(lines, k, read).Fail? ==>
      exists i :: 0 <= i < k && read(lines[i]).Fail? && HeaderMap(lines, k, read).exc == read(lines[i]).exc
  {
    if k > 0 {
      HeaderMapReadIff(lines, k - 1, read);
      if HeaderMap(lines, k - 1, read).Ok? && read(lines[k - 1]).Fail? {
        assert HeaderMap(lines, k, read).exc == read(lines[k - 1]).exc;
      }
    }
  }

  /** Every name in a read header map is lower-case and trimmed. */
  lemma {:induction false} HeaderNamesNormalised(lines: seq<string>, k: nat)
    requires k <= |lines| && HeaderMap(lines, k, HeaderEntry).Ok?
    ensures forall name :: name in HeaderMap(lines, k, HeaderEntry).value ==> IsLower(name) && Trim(name) == name
  {
    if k > 0 {
      HeaderNamesNormalised(lines, k - 1);
      HeaderEntryRead(lines[k - 1]);
    }
  }

  /** A header line whose name no later line repeats gives the value kept for that name. */
  lemma {:induction false} HeaderLastWins(lines: seq<string>, k: nat, i: nat, read: string -> Outcome<(string, string)>)
    requires i < k <= |lines| && HeaderMap(lines, k, read).Ok?
    requires forall j :: i < j < k ==> read(lines[j]).Ok? && read(lines[i]).Ok? ==> read(lines[j]).value.0 != read(lines[i]).value.0
    ensures read(lines[i]).Ok?
    ensures read(lines[i]).value.0 in HeaderMap(lines, k, read).value
    ensures HeaderMap(lines, k, read).value[read(lines[i]).value.0] == read(lines[i]).value.1
  {
    HeaderMapReadIff(lines, k, read);
    if i < k - 1 {
      HeaderLastWins(lines, k - 1, i, read);
    }
  }

  /**
   * The body read for a request: none without `content-length`; otherwise
   * `toInt()` of its value (NumberFormat when malformed), `readNBytes` of a
   * negative length throws IllegalArgument, and a stream that ends early
   * gives what is left.
   */
  function RequestBody(headers: map<string, string>, rest: string): (r: Outcome<Option<string>>)
    ensures "content-length" !in headers ==> r == Ok(None)
    ensures r.Ok? && r.value.Some? ==> "content-length" in headers && r.value.value <= rest
    ensures r.Fail? ==> "content-length" in headers && (r.exc == NumberFormat || r.exc == IllegalArgument)
  {
    if "content-length" !in headers then Ok(None)
    else
      var n :- ToInt(headers["content-length"]);
      if n < 0 then Fail(IllegalArgument) else Ok(Some(rest[..Min(n, |rest|)]))
  }

  /** With a valid, non-negative Content-Length, the body is that many characters of what follows, or all of it. */
  lemma BodyOfLength(headers: map<string, string>, rest: string)
    requires "content-length" in headers && ToInt(headers["content-length"]).Ok?
    ensures var n := ToInt(headers["content-length"]).value;
      (n < 0 ==> RequestBody(headers, rest) == Fail(IllegalArgument)) &&
      (n >= 0 ==> RequestBody(headers, rest) == Ok(Some(rest[..Min(n, |rest|)])) &&
                  |RequestBody(headers, rest).value.value| == Min(n, |rest|))
  {
  }

  /**
   * What `handleRequest` makes of a request: the reply text, or the
   * exception after which the socket is closed with no reply.
   */
  datatype Handled = Handled(entries: seq<string>, reply: Outcome<string>)

  function HandleRequestOn(entries: seq<string>, line: string, headerLines: seq<string>, rest: string,
                           decode: string -> Outcome<string>, script: string, stylesheet: string): Handled
  {
    match RequestLine(line)
    case Fail(e) => Handled(entries, Fail(e))
    case Ok(words) =>
      if words.0 != "GET" && words.0 != "POST" then Handled(entries, Fail(IllegalArgument))
      else
        match HeaderMap(headerLines, |headerLines|, HeaderEntry)
        case Fail(e) => Handled(entries, Fail(e))
        case Ok(headers) =>
          match RequestBody(headers, rest)
          case Fail(e) => Handled(entries, Fail(e))
          case Ok(body) =>
            var s := DoRequestOn(entries, words.0, words.1, body, decode, script, stylesheet);
            match s.result
            case Fail(e) => Handled(s.entries, Fail(e))
            case Ok(sb) => Handled(s.entries, Ok(ReplyAsWritten(sb.0, sb.1)))
  }

  /** Only GET and POST are answered; any other method leaves the entries alone and gets no reply. */
  lemma OnlyGetAndPost(entries: seq<string>, line: string, headerLines: seq<string>, rest: string,
                       decode: string -> Outcome<string>, script: string, stylesheet: string)
    ensures var h := HandleRequestOn(entries, line, headerLines, rest, decode, script, stylesheet);
      h.reply.Ok? ==> RequestLine(line).Ok? && (RequestLine(line).value.0 == "GET" || RequestLine(line).value.0 == "POST")
    ensures var h := HandleRequestOn(entries, line, headerLines, rest, decode, script, stylesheet);
      (RequestLine(line).Ok? && RequestLine(line).value.0 != "GET" && RequestLine(line).value.0 != "POST")
      ==> h == Handled(entries, Fail(IllegalArgument))
  {
  }

  /**
   * A GET or POST with a header line that has no `:`, or with a
   * Content-Length that is malformed or negative, gets no reply and leaves
   * the entries alone.
   */
  lemma BadHeadersNoReply(entries: seq<string>, line: string, headerLines: seq<string>, rest: string,
                          decode: string -> Outcome<string>, script: string, stylesheet: string)
    requires RequestLine(line).Ok? && (RequestLine(line).value.0 == "GET" || RequestLine(line).value.0 == "POST")
    ensures var h := HandleRequestOn(entries, line, headerLines, rest, decode, script, stylesheet);
      (exists i :: 0 <= i < |headerLines| && !Contains(headerLines[i], ":")) ==> h == Handled(entries, Fail(IndexOutOfBounds))
    ensures var h := HandleRequestOn(entries, line, headerLines, rest, decode, script, stylesheet);
      var m := HeaderMap(headerLines, |headerLines|, HeaderEntry);
      m.Ok? && "content-length" in m.value && (ToInt(m.value["content-length"]).Fail? || ToInt(m.value["content-length"]).value < 0)
      ==> h.entries == entries && h.reply.Fail? && h.reply.exc in {NumberFormat, IllegalArgument}
  {
    HeaderMapReadIff(headerLines, |headerLines|, HeaderEntry);
    forall i | 0 <= i < |headerLines|
      ensures HeaderEntry(headerLines[i]).Ok? <==> Contains(headerLines[i], ":")
    {
      HeaderEntryRead(headerLines[i]);
    }
  }

  /** The guestbook: its entries are the server's only state. */
  class Server {
    var entries: seq<string>

    /** The first entry is always the seeded one. */
    predicate Valid()
      reads this
    {
      |entries| >= 1 && entries[0] == FirstEntry
    }

    constructor()
      ensures Valid() && entries == [FirstEntry]
    {
      entries := [FirstEntry];
    }

    /** `showComments()`, built by appending one paragraph per entry. */
    method ShowComments() returns (page: string)
      ensures page == CommentsPage(entries)
    {
      page := Doctype;
      var i := 0;
      while i < |entries|
        invariant 0 <= i <= |entries|
        invariant page == Doctype + Paragraphs(entries[..i])
      {
        assert entries[..i + 1][..i] == entries[..i];
        page := page + Para(entries[i]);
        i := i + 1;
      }
      assert entries[..i] == entries;
      page := page + FormTail;
    }

    /** `addEntry(params)` */
    method AddEntry(params: map<string, string>) returns (page: string)
      requires Valid()
      modifies this
      ensures Valid()
      ensures entries == AddedEntries(old(entries), params)
      ensures page == CommentsPage(entries)
    {
      if "guest" in params && !IsBlank(params["guest"]) && Utf16Length(params["guest"]) <= 100 {
        entries := entries + [params["guest"]];
      }
      page := ShowComments();
    }

    /** `doRequest(method, url, headers, body)`; the two static files are passed in. */
    method DoRequest(methodName: string, url: string, body: Option<string>,
                     decode: string -> Outcome<string>, script: string, stylesheet: string)
      returns (r: Outcome<(string, string)>)
      requires Valid()
      modifies this
      ensures Valid()
      ensures Served(entries, r) == DoRequestOn(old(entries), methodName, url, body, decode, script, stylesheet)
    {
      if methodName == "GET" && url == "/" {
        var page := ShowComments();
        r := Ok((Ok200, page));
      } else if methodName == "GET" && url == "/comment.js" {
        r := Ok((Ok200, script));
      } else if methodName == "GET" && StartsWith(url, "/comment.css") {
        r := Ok((Ok200, stylesheet));
      } else if methodName == "POST" && url == "/add" {
        var params := FormDecode(body, decode);
        if params.Fail? {
          return Fail(params.exc);
        }
        var page := AddEntry(params.value);
        r := Ok((Ok200, page));
      } else {
        r := Ok((NotFound404, NotFoundPage(url, methodName)));
      }
    }

    /** `handleRequest` without the socket: the request line and body in, the reply text out. */
    method HandleRequest(line: string, headerLines: seq<string>, rest: string,
                         decode: string -> Outcome<string>, script: string, stylesheet: string)
      returns (reply: Outcome<string>)
      requires Valid()
      modifies this
      ensures Valid()
      ensures Handled(entries, reply) == HandleRequestOn(old(entries), line, headerLines, rest, decode, script, stylesheet)
    {
      var words := RequestLine(line);
      if words.Fail? {
        return Fail(words.exc);
      }
      var (methodName, url, _) := words.value;
      if methodName != "GET" && methodName != "POST" {
        return Fail(IllegalArgument);
      }
      var headers := HeaderMap(headerLines, |headerLines|, HeaderEntry);
      if headers.Fail? {
        return Fail(headers.exc);
      }
      var body := RequestBody(headers.value, rest);
      if body.Fail? {
        return Fail(body.exc);
      }
      var r := DoRequest(methodName, url, body.value, decode, script, stylesheet);
      if r.Fail? {
        return Fail(r.exc);
      }
      reply := Ok(ReplyAsWritten(r.value.0, r.value.1));
    }
  }
}
