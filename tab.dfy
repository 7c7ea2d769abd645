// A browser tab (Tab.kt, both the newer tree under src/main and the older
// one under src/io): its history list and index, the scroll offset, the
// window size, the page title, the content-security-policy gate in front of
// every request, the `data:` scheme and the link targets built from `href`.
// Fetching, parsing, styling and layout of a page are not repeated here: a
// load is handed their outcome as a `Page`.

module Tabs {
  import opened Common
  import opened Strings
  import opened Dom
  import opened Responses
  import opened Caching

  const ScrollStep: int := 10
  const VStep: int := 50
  const BlankUrl: string := "about:blank"
  const ViewSource: string := "view-source:"
  const CspHeader: string := "content-security-policy"

  /**
   * What fetching, parsing, styling and laying out the current history entry
   * produced: the response headers, the document tree, the height of its
   * layout and the `y` of the first box whose element carries the URL's
   * fragment as `id` (None when there is no such box).
   */
  datatype Page = Page(headers: map<string, string>, document: Node, height: int, anchorY: Option<int>)

  // --------------------------------------------------------------- history

  /** The history list and the index of the current entry (-1 before the first load). */
  datatype History = History(entries: seq<string>, index: int)
  {
    predicate Valid() { -1 <= index < |entries| }
  }

  /**
   * `load` as written: a URL different from `rawUrl` is appended at the end
   * and the index moves up by one, whatever lies beyond the index.
   */
  function LoadHistoryAsWritten(h: History, rawUrl: string, url: string): (r: History)
    requires h.Valid()
    ensures r.Valid()
    ensures url != rawUrl ==> r.entries == h.entries + [url] && r.index == h.index + 1
    ensures url == rawUrl ==> r == h
  {
    if url != rawUrl then History(h.entries + [url], h.index + 1) else h
  }

  /**
   * After going back from the second of two pages, loading a third URL
   * makes the index point at the page that was gone back from, so `doLoad`
   * shows that page instead of the one asked for.
   */
  lemma LoadAfterBackShowsForwardEntry()
    ensures var r := LoadHistoryAsWritten(History(["a", "b"], 0), "a", "c");
      r.entries[r.index] == "b" && r.entries[r.index] != "c"
  {
  }

  /**
   * `load` as a browser history behaves: the entries beyond the current one
   * are dropped before the URL is appended, so the new entry is current.
   */
  function LoadHistory(h: History, rawUrl: string, url: string): (r: History)
    requires h.Valid()
    ensures r.Valid()
  {
    if url != rawUrl then History(h.entries[..h.index + 1] + [url], h.index + 1) else h
  }

  /** A new URL becomes the current entry, the last one, right after the old current entry. */
  lemma LoadShowsRequested(h: History, rawUrl: string, url: string)
    requires h.Valid() && url != rawUrl
    ensures var r := LoadHistory(h, rawUrl, url);
      r.entries[r.index] == url && r.index == |r.entries| - 1 && r.index == h.index + 1 &&
      r.entries[..r.index] == h.entries[..h.index + 1]
  {
  }

  /** Loading agrees with the code as written whenever nothing lies beyond the current entry. */
  lemma LoadAtEndAsWritten(h: History, rawUrl: string, url: string)
    requires h.Valid() && h.index == |h.entries| - 1
    ensures LoadHistory(h, rawUrl, url) == LoadHistoryAsWritten(h, rawUrl, url)
  {
    assert h.entries[..h.index + 1] == h.entries;
  }

  // ------------------------------------------------------------- scrolling

  /** `scrollDown`: ten pixels further, unless already 100 pixels past the end of the page. */
  function ScrolledDown(scroll: int, docHeight: int, height: int): (r: int)
    ensures scroll < docHeight - height + 2 * VStep ==> r == scroll + ScrollStep
    ensures scroll >= docHeight - height + 2 * VStep ==> r == scroll
  {
    if scroll >= docHeight - height + 2 * VStep then scroll else scroll + ScrollStep
  }

  /** `scrollUp`: ten pixels back, unless already at or above the top. */
  function ScrolledUp(scroll: int): (r: int)
    ensures scroll <= 0 ==> r == scroll
    ensures scroll > 0 ==> r == scroll - ScrollStep
  {
    if scroll <= 0 then scroll else scroll - ScrollStep
  }

  /** Scrolling down by a step and up again comes back to the same offset. */
  lemma UpUndoesDown(scroll: int, docHeight: int, height: int)
    requires 0 <= scroll < docHeight - height + 2 * VStep
    ensures ScrolledUp(ScrolledDown(scroll, docHeight, height)) == scroll
  {
  }

  /** Scrolling up by a step and down again comes back, when the page is long enough. */
  lemma DownUndoesUp(scroll: int, docHeight: int, height: int)
    requires scroll > 0 && scroll - ScrollStep < docHeight - height + 2 * VStep
    ensures ScrolledDown(ScrolledUp(scroll), docHeight, height) == scroll
  {
  }

  /**
   * Scrolling keeps the offset within one step of the range the guards test:
   * never a full step above the top, never a full step beyond the end limit.
   */
  lemma ScrollStaysNear(scroll: int, docHeight: int, height: int)
    requires -ScrollStep < scroll < docHeight - height + 2 * VStep + ScrollStep
    ensures -ScrollStep < ScrolledUp(scroll) < docHeight - height + 2 * VStep + ScrollStep
    ensures -ScrollStep < ScrolledDown(scroll, docHeight, height) < docHeight - height + 2 * VStep + ScrollStep
  {
  }

  /**
   * `scroll.coerceIn(0, docHeight - height)` as written: Kotlin throws
   * IllegalArgumentException when the range is empty, that is whenever the
   * page is shorter than the window.
   */
  function ResizedScrollAsWritten(scroll: int, docHeight: int, height: int): (r: Outcome<int>)
    ensures r.Fail? <==> docHeight - height < 0
    ensures r.Ok? ==> 0 <= r.value <= docHeight - height
  {
    if docHeight - height < 0 then Fail(IllegalArgument)
    else if scroll < 0 then Ok(0)
    else if scroll > docHeight - height then Ok(docHeight - height)
    else Ok(scroll)
  }

  /** A tab with no document (height 0) resized to a 600-pixel window throws. */
  lemma ShortPageResizeThrows()
    ensures ResizedScrollAsWritten(0, 0, 600) == Fail(IllegalArgument)
  {
  }

  /** The clamp the resize evidently means: into `[0, max(0, docHeight - height)]`. */
  function ResizedScroll(scroll: int, docHeight: int, height: int): (r: int)
    ensures 0 <= r <= Max(0, docHeight - height)
    ensures 0 <= scroll <= docHeight - height ==> r == scroll
  {
    if scroll < 0 || docHeight - height < 0 then 0
    else if scroll > docHeight - height then docHeight - height
    else scroll
  }

  /** Wherever the code as written does not throw, the clamp gives the same offset. */
  lemma ResizedScrollAgrees(scroll: int, docHeight: int, height: int)
    ensures ResizedScrollAsWritten(scroll, docHeight, height).Ok? ==>
      ResizedScrollAsWritten(scroll, docHeight, height).value == ResizedScroll(scroll, docHeight, height)
  {
  }

  /** After a load: the fragment's anchor when the URL has a non-blank fragment and it was found, else the top. */
  function ScrollAfterLoad(url: string, anchorY: Option<int>): (r: int)
    ensures IsBlank(SubstringAfter(url, "#", "")) ==> r == 0
    ensures anchorY.None? ==> r == 0
  {
    if !IsBlank(SubstringAfter(url, "#", "")) && anchorY.Some? then anchorY.value else 0
  }

  // ----------------------------------------------------------------- title

  /** The index of the first element tagged `tag` among `cs`. */
  function FirstTagged(cs: seq<Node>, tag: string): (r: Option<nat>)
    ensures r.Some? ==> r.value < |cs| && cs[r.value].IsTag(tag)
    ensures r.Some? ==> forall j :: 0 <= j < r.value ==> !cs[j].IsTag(tag)
    ensures r.None? ==> forall j :: 0 <= j < |cs| ==> !cs[j].IsTag(tag)
  {
    if cs == [] then None
    else if cs[0].IsTag(tag) then Some(0)
    else match FirstTagged(cs[1..], tag)
      case None => None
      case Some(k) => Some(k + 1)
  }

  /** The text node the title is read from: first child of the first `title` of the first `head` of an `html` root. */
  function TitleText(nodes: Option<Node>): Option<string>
  {
    if nodes.None? || !nodes.value.IsTag("html") then None
    else
      var html := nodes.value;
      match FirstTagged(html.children, "head")
      case None => None
      case Some(h) =>
        var head := html.children[h];
        match FirstTagged(head.children, "title")
        case None => None
        case Some(t) =>
          var title := head.children[t];
          if title.children != [] && title.children[0].Text? then Some(title.children[0].text) else None
  }

  /** The `title` getter: the trimmed title text, or the raw URL in every other case. */
  function Title(nodes: Option<Node>, rawUrl: string): (r: string)
    ensures TitleText(nodes).None? ==> r == rawUrl
    ensures TitleText(nodes).Some? ==> r == Trim(TitleText(nodes).value)
  {
    match TitleText(nodes)
    case None => rawUrl
    case Some(t) => Trim(t)
  }

  /** A document `<html><head><title>t</title>…` is titled with `t` trimmed. */
  lemma TitleOfDocument(t: string, rest: seq<Node>, before: seq<Node>, ha: Attributes, ta: Attributes, st: Style, rawUrl: string)
    requires forall j :: 0 <= j < |before| ==> !before[j].IsTag("title")
    ensures var title := Element("title", ta, [Text(t, st)], st, false);
      var head := Element("head", ha, before + [title] + rest, st, false);
      Title(Some(Element("html", ha, [head], st, false)), rawUrl) == Trim(t)
  {
    var title := Element("title", ta, [Text(t, st)], st, false);
    var cs := before + [title] + rest;
    var head := Element("head", ha, cs, st, false);
    assert FirstTagged([head], "head") == Some(0);
    assert cs[|before|] == title;
    assert FirstTagged(cs, "title") == Some(|before|);
    assert TitleText(Some(Element("html", ha, [head], st, false))) == Some(t);
  }

  /** Without a `head` child of the root the title is the raw URL. */
  lemma TitleWithoutHead(html: Node, rawUrl: string)
    requires forall j :: 0 <= j < |html.Children()| ==> !html.Children()[j].IsTag("head")
    ensures Title(Some(html), rawUrl) == rawUrl
  {
    if html.IsTag("html") {
      assert html.Children() == html.children;
    }
  }

  // -------------------------------------------------------- requests and CSP

  /** The origins a `content-security-policy: default-src o1 o2 …` header allows; none without one. */
  function CspOrigins(headers: map<string, string>, originOf: string -> string): (r: set<string>)
  {
    if CspHeader !in headers then {}
    else
      var csp := SplitStr(headers[CspHeader], " ");
      if csp[0] == "default-src" then Listed(csp, originOf) else {}
  }

  /** The origins of the words after the first. */
  function Listed(csp: seq<string>, originOf: string -> string): set<string>
  {
    set i | 1 <= i < |csp| :: originOf(csp[i])
  }

  /**
   * `getResponse` in the newer tab: 403 with an empty body for an origin the
   * policy does not allow, the text after the first `,` for `data:`, else
   * what the scheme's fetch gave.
   */
  function GuardedResponse(allowed: set<string>, origin: string, scheme: string, url: string, fetched: Response): (r: Response)
    ensures |allowed| > 0 && origin !in allowed ==> r == Response(403, map[], "")
    ensures (|allowed| == 0 || origin in allowed) && scheme == "data" ==> r == BodyResponse(SubstringAfter(url, ",", url))
    ensures (|allowed| == 0 || origin in allowed) && scheme != "data" ==> r == fetched
  {
    if |allowed| > 0 && origin !in allowed then Response(403, map[], "")
    else if scheme == "data" then BodyResponse(SubstringAfter(url, ",", url))
    else fetched
  }

  /** An origin named in the page's policy is never blocked. */
  lemma ListedOriginAllowed(headers: map<string, string>, originOf: string -> string, k: nat, scheme: string, url: string, fetched: Response)
    requires CspHeader in headers
    requires var csp := SplitStr(headers[CspHeader], " "); csp[0] == "default-src" && 1 <= k < |csp|
    ensures var csp := SplitStr(headers[CspHeader], " ");
      GuardedResponse(CspOrigins(headers, originOf), originOf(csp[k]), scheme, url, fetched).status != 403 || fetched.status == 403
  {
    var csp := SplitStr(headers[CspHeader], " ");
    assert originOf(csp[k]) in CspOrigins(headers, originOf);
  }

  /** A `data:` URL with a comma-free prefix serves exactly the text after that comma. */
  lemma DataUrlBody(prefix: string, payload: string, origin: string, fetched: Response)
    requires !Contains(prefix, ",")
    ensures GuardedResponse({}, origin, "data", prefix + "," + payload, fetched).body == payload
  {
    var url := prefix + "," + payload;
    assert OccursAt(url, ",", |prefix|) by { assert url[|prefix|..|prefix| + 1] == ","; }
    var i := IndexOf(url, ",");
    assert i == |prefix| by {
      if i < |prefix| {
        assert url[i..i + 1] == prefix[i..i + 1];
        assert OccursAt(prefix, ",", i);
      }
    }
    assert url[i + 1..] == payload;
  }

  /**
   * The older tab's `getResponse` with its response cache: `data:` and
   * `file:` bypass the cache; otherwise an unexpired entry is served, or the
   * fetched response is returned after being stored.
   */
  method CachedResponse(cache: ResponseCache<string>, url: string, scheme: string, fileText: string, fetched: Response, now: int)
    returns (r: Outcome<Response>)
    requires cache.Valid()
    modifies cache
    ensures cache.Valid()
    ensures scheme == "data" ==> r == Ok(BodyResponse(SubstringAfter(url, ",", url))) && cache.entries == old(cache.entries)
    ensures scheme == "file" ==> r == Ok(BodyResponse(fileText)) && cache.entries == old(cache.entries)
    ensures scheme != "data" && scheme != "file" && Lookup(old(cache.entries), url, now).Some? ==>
      r == Ok(Lookup(old(cache.entries), url, now).value) && cache.entries == old(cache.entries)
    ensures scheme != "data" && scheme != "file" && Lookup(old(cache.entries), url, now).None? ==>
      var s := Store(old(cache.entries), url, fetched, now);
      (s.Ok? ==> r == Ok(fetched) && cache.entries == s.value) &&
      (s.Fail? ==> r == Fail(s.exc) && cache.entries == old(cache.entries))
  {
    if scheme == "data" {
      return Ok(BodyResponse(SubstringAfter(url, ",", url)));
    } else if scheme == "file" {
      return Ok(BodyResponse(fileText));
    }
    var hit := cache.Find(url, now);
    if hit.Some? {
      return Ok(hit.value);
    }
    var stored := cache.Insert(url, fetched, now);
    if stored.Fail? {
      return Fail(stored.exc);
    }
    r := Ok(fetched);
  }

  // ------------------------------------------------------------ link targets

  /** The fragment of an `href`: the text after the first `#`, empty without one. */
  function Fragment(href: string): string
  {
    SubstringAfter(href, "#", "")
  }

  /** The newer tab's link target: the resolved URL, plus `#fragment` only for a non-blank fragment. */
  function LinkTarget(resolved: string, href: string): (r: string)
    ensures IsBlank(Fragment(href)) ==> r == resolved
    ensures !IsBlank(Fragment(href)) ==> r == resolved + "#" + Fragment(href)
  {
    if !IsBlank(Fragment(href)) then resolved + "#" + Fragment(href) else resolved
  }

  /** The older tab's link target: always `resolved#fragment`, with the `#` even for an empty fragment. */
  function OldLinkTarget(resolved: string, href: string): (r: string)
    ensures EndsWith(r, "#" + Fragment(href)) && StartsWith(r, resolved)
  {
    var r := resolved + "#" + Fragment(href);
    assert r[..|resolved|] == resolved;
    assert r[|r| - |"#" + Fragment(href)|..] == "#" + Fragment(href);
    r
  }

  /** An `href` without `#` targets the resolved URL alone in the newer tab, and the URL plus a bare `#` in the older one. */
  lemma NoFragmentTargets(resolved: string, href: string)
    requires !Contains(href, "#")
    ensures LinkTarget(resolved, href) == resolved
    ensures OldLinkTarget(resolved, href) == resolved + "#"
  {
  }

  // ------------------------------------------------------------------ state

  /** The fields of the newer `Tab` that its navigation, scrolling and resize methods update. */
  class Tab {
    var history: seq<string>
    var historyIndex: int
    var rawUrl: string
    var scroll: int
    var width: int
    var height: int
    /** `document?.height ?: 0` */
    var docHeight: int
    var nodes: Option<Node>
    var allowedOrigins: set<string>

    /**
     * The index stays inside the history, the raw URL is the current entry
     * (or `about:blank` before the first load), and there is no document
     * height without a document.
     */
    ghost predicate Valid()
      reads this
    {
      Positioned() && (historyIndex >= 0 ==> rawUrl == history[historyIndex])
    }

    /** What holds between moving the index and loading the entry it points at. */
    ghost predicate Positioned()
      reads this
    {
      -1 <= historyIndex < |history| &&
      (historyIndex == -1 ==> rawUrl == BlankUrl) &&
      (nodes.None? ==> docHeight == 0)
    }

    constructor ()
      ensures Valid()
      ensures history == [] && historyIndex == -1 && rawUrl == BlankUrl && scroll == 0
      ensures width == 0 && height == 0 && docHeight == 0 && nodes == None && allowedOrigins == {}
    {
      history := [];
      historyIndex := -1;
      rawUrl := BlankUrl;
      scroll := 0;
      width := 0;
      height := 0;
      docHeight := 0;
      nodes := None;
      allowedOrigins := {};
    }

    /** `canGoBack()` */
    function CanGoBack(): (r: bool)
      reads this
    {
      historyIndex >= 1
    }

    /** `canGoForward()` */
    function CanGoForward(): (r: bool)
      reads this
    {
      historyIndex < |history| - 1
    }

    /**
     * `doLoad`: the current entry becomes the raw URL, the policy of the
     * response replaces the allowed origins, and unless the entry is a
     * `view-source:` URL the page's document is installed and the view
     * scrolls to the fragment's anchor or the top. Before any entry exists the
     * list lookup at index -1 throws.
     */
    method DoLoad(page: Page, originOf: string -> string) returns (r: Outcome<()>)
      requires Positioned()
      modifies this
      ensures Valid()
      ensures history == old(history) && historyIndex == old(historyIndex)
      ensures width == old(width) && height == old(height)
      ensures old(historyIndex) < 0 ==>
        (r == Fail(IndexOutOfBounds) && unchanged(this))
      ensures old(historyIndex) >= 0 ==>
        (r == Ok(()) && rawUrl == history[historyIndex] && allowedOrigins == CspOrigins(page.headers, originOf))
      ensures old(historyIndex) >= 0 && StartsWith(rawUrl, ViewSource) ==>
        scroll == old(scroll) && docHeight == old(docHeight) && nodes == old(nodes)
      ensures old(historyIndex) >= 0 && !StartsWith(rawUrl, ViewSource) ==>
        nodes == Some(page.document) && docHeight == page.height && scroll == ScrollAfterLoad(rawUrl, page.anchorY)
    {
      if historyIndex < 0 {
        return Fail(IndexOutOfBounds);
      }
      var url := history[historyIndex];
      rawUrl := url;
      allowedOrigins := ReadPolicy(page.headers, originOf);
      if !StartsWith(url, ViewSource) {
        nodes := Some(page.document);
        docHeight := page.height;
        scroll := ScrollAfterLoad(url, page.anchorY);
      }
      r := Ok(());
    }

    /** The allowed origins after `allowedOrigins.clear()` and the policy header's `default-src` list. */
    static method ReadPolicy(headers: map<string, string>, originOf: string -> string) returns (allowed: set<string>)
      ensures allowed == CspOrigins(headers, originOf)
    {
      allowed := {};
      if CspHeader in headers {
        var csp := SplitStr(headers[CspHeader], " ");
        if csp[0] == "default-src" {
          allowed := AddOrigins(csp, originOf);
        }
      }
    }

    /** `for (origin in csp.drop(1)) allowedOrigins.add(URL(origin).origin)` */
    static method AddOrigins(csp: seq<string>, originOf: string -> string) returns (allowed: set<string>)
      requires |csp| >= 1
      ensures allowed == Listed(csp, originOf)
    {
      allowed := {};
      for i := 1 to |csp|
        invariant allowed == set j | 1 <= j < i && j < |csp| :: originOf(csp[j])
      {
        allowed := allowed + {originOf(csp[i])};
      }
      assert allowed == Listed(csp, originOf);
    }

    /**
     * `load(url)`: a new URL is appended to the history and the index moves
     * up by one, then the entry at the index is loaded. That entry is the new
     * URL only when the index was at the end (`LoadAfterBackShowsForwardEntry`).
     */
    method Load(url: string, page: Page, originOf: string -> string) returns (r: Outcome<()>)
      requires Valid()
      modifies this
      ensures Valid()
      ensures History(history, historyIndex) == LoadHistoryAsWritten(History(old(history), old(historyIndex)), old(rawUrl), url)
      ensures url != old(rawUrl) ==> r == Ok(()) && rawUrl == history[historyIndex]
      ensures url != old(rawUrl) && old(historyIndex) == |old(history)| - 1 ==> rawUrl == url
      ensures url == old(rawUrl) && old(historyIndex) < 0 ==> r == Fail(IndexOutOfBounds) && unchanged(this)
      ensures url == old(rawUrl) && old(historyIndex) >= 0 ==> r == Ok(()) && rawUrl == old(rawUrl)
      ensures width == old(width) && height == old(height)
      ensures historyIndex >= 0 ==> allowedOrigins == CspOrigins(page.headers, originOf)
      ensures historyIndex >= 0 && StartsWith(rawUrl, ViewSource) ==>
        scroll == old(scroll) && docHeight == old(docHeight) && nodes == old(nodes)
      ensures historyIndex >= 0 && !StartsWith(rawUrl, ViewSource) ==>
        nodes == Some(page.document) && docHeight == page.height && scroll == ScrollAfterLoad(rawUrl, page.anchorY)
    {
      if url != rawUrl {
        history := history + [url];
        historyIndex := historyIndex + 1;
      }
      r := DoLoad(page, originOf);
    }

    /** `goBack()`: one entry back and load it, only when there is an entry before. */
    method GoBack(page: Page, originOf: string -> string)
      requires Valid()
      modifies this
      ensures Valid()
      ensures history == old(history)
      ensures old(CanGoBack()) ==> historyIndex == old(historyIndex) - 1 && rawUrl == history[historyIndex]
      ensures width == old(width) && height == old(height)
      ensures old(CanGoBack()) ==> allowedOrigins == CspOrigins(page.headers, originOf)
      ensures old(CanGoBack()) && StartsWith(rawUrl, ViewSource) ==>
        scroll == old(scroll) && docHeight == old(docHeight) && nodes == old(nodes)
      ensures old(CanGoBack()) && !StartsWith(rawUrl, ViewSource) ==>
        nodes == Some(page.document) && docHeight == page.height && scroll == ScrollAfterLoad(rawUrl, page.anchorY)
      ensures !old(CanGoBack()) ==> unchanged(this)
    {
      if historyIndex > 0 {
        historyIndex := historyIndex - 1;
        var r := DoLoad(page, originOf);
      }
    }

    /** `goForward()`: one entry forward and load it, only when there is an entry after. */
    method GoForward(page: Page, originOf: string -> string)
      requires Valid()
      modifies this
      ensures Valid()
      ensures history == old(history)
      ensures old(CanGoForward()) ==> historyIndex == old(historyIndex) + 1 && rawUrl == history[historyIndex]
      ensures width == old(width) && height == old(height)
      ensures old(CanGoForward()) ==> allowedOrigins == CspOrigins(page.headers, originOf)
      ensures old(CanGoForward()) && StartsWith(rawUrl, ViewSource) ==>
        scroll == old(scroll) && docHeight == old(docHeight) && nodes == old(nodes)
      ensures old(CanGoForward()) && !StartsWith(rawUrl, ViewSource) ==>
        nodes == Some(page.document) && docHeight == page.height && scroll == ScrollAfterLoad(rawUrl, page.anchorY)
      ensures !old(CanGoForward()) ==> unchanged(this)
    {
      if historyIndex < |history| - 1 {
        historyIndex := historyIndex + 1;
        var r := DoLoad(page, originOf);
      }
    }

    /** `scrollDown()` */
    method ScrollDown()
      modifies this
      ensures scroll == ScrolledDown(old(scroll), docHeight, height)
      ensures unchanged(this`history, this`historyIndex, this`rawUrl, this`docHeight, this`width, this`height, this`nodes, this`allowedOrigins)
    {
      if scroll >= docHeight - height + 2 * VStep {
        return;
      }
      scroll := scroll + ScrollStep;
    }

    /** `scrollUp()` */
    method ScrollUp()
      modifies this
      ensures scroll == ScrolledUp(old(scroll))
      ensures unchanged(this`history, this`historyIndex, this`rawUrl, this`docHeight, this`width, this`height, this`nodes, this`allowedOrigins)
    {
      if scroll <= 0 {
        return;
      }
      scroll := scroll - ScrollStep;
    }

    /**
     * `resize(width, height)`: the new window size, the offset clamped
     * against the current document, then the document laid out again at the
     * new width (`relaid` is the height that layout gives). When the page is
     * shorter than the window the clamp throws after the size was stored, and
     * neither the offset nor the layout changes.
     */
    method Resize(w: int, h: int, relaid: int) returns (r: Outcome<()>)
      requires Valid()
      modifies this
      ensures Valid()
      ensures width == w && height == h
      ensures var clamped := ResizedScrollAsWritten(old(scroll), old(docHeight), h);
        r.Fail? <==> clamped.Fail?
      ensures r.Fail? ==> r == Fail(IllegalArgument) && scroll == old(scroll) && docHeight == old(docHeight)
      ensures r.Ok? ==> 0 <= scroll && scroll == ResizedScrollAsWritten(old(scroll), old(docHeight), h).value
      ensures r.Ok? ==> docHeight == if nodes.Some? then relaid else 0
      ensures unchanged(this`history, this`historyIndex, this`rawUrl, this`nodes, this`allowedOrigins)
    {
      width := w;
      height := h;
      var clamped := ResizedScrollAsWritten(scroll, docHeight, h);
      if clamped.Fail? {
        return Fail(clamped.exc);
      }
      scroll := clamped.value;
      if nodes.Some? {
        docHeight := relaid;
      }
      r := Ok(());
    }

    /** The `title` getter. */
    function TabTitle(): (r: string)
      reads this
      ensures nodes.None? ==> r == rawUrl
    {
      Title(nodes, rawUrl)
    }
  }
}
