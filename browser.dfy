// The newer Browser (Browser.kt): the list of open tabs with the active one,
// and `URL.createRequest`, which builds a request with the browser's default
// headers and the host's cookie. The Swing panel, its event listeners, the
// resize executor and the `activeTab` setter's resize and repaint are not
// modelled.

module Browsers {
  import opened Common
  import opened Strings
  import opened LinkedMaps
  import opened Urls
  import opened Requests
  import opened HttpClients
  import opened Tabs

  // ---------------------------------------------------------- createRequest

  /**
   * Whether the host's cookie goes with a request: a `SameSite=Lax` cookie is
   * kept back from a non-GET request with a referrer on another host.
   */
  predicate CookieAllowed(c: Cookie, url: Url, methodName: string, referrer: Option<Url>)
  {
    if referrer.Some? && Get(c.parameters, "samesite") == Some("lax") && methodName != "GET" then
      url.host == referrer.value.host
    else true
  }

  /** The headers `createRequest` hands to `Request`: the three defaults, then `Cookie` when a cookie is sent. */
  function CallerHeaders(url: Url, methodName: string, referrer: Option<Url>, cookie: Option<Cookie>): LinkedMap<string, string>
  {
    if cookie.Some? && CookieAllowed(cookie.value, url, methodName, referrer) then
      Put(DefaultHeaders(url.host), "Cookie", cookie.value.value)
    else DefaultHeaders(url.host)
  }

  /** The request `createRequest` builds once the host's cookie has been looked up. */
  function CreatedRequest(url: Url, methodName: string, referrer: Option<Url>, body: Option<string>, cookie: Option<Cookie>): Request
  {
    NewRequest(url, methodName, CallerHeaders(url, methodName, referrer, cookie), body)
  }

  /** `URL.createRequest(method, referrer, body)` against the client's cookie jar. */
  method CreateRequest(client: HttpClient, url: Url, methodName: string, referrer: Option<Url>, body: Option<string>, now: int)
    returns (r: Request)
    modifies client
    ensures client.cache == old(client.cache)
    ensures r == CreatedRequest(url, methodName, referrer, body, LiveCookie(old(client.jar), url.host, now))
  {
    var cookie := client.GetCookie(url, now);
    var additional := DefaultHeaders(url.host);
    if cookie.Some? {
      var allowCookie := true;
      if referrer.Some? && Get(cookie.value.parameters, "samesite") == Some("lax") && methodName != "GET" {
        allowCookie := url.host == referrer.value.host;
      }
      if allowCookie {
        additional := Put(additional, "Cookie", cookie.value.value);
      }
    }
    r := NewRequest(url, methodName, additional, body);
  }

  /** The headers before `Request` merges them: valid, with the defaults, and `Cookie` exactly when a cookie is sent. */
  lemma CallerHeadersHold(url: Url, methodName: string, referrer: Option<Url>, cookie: Option<Cookie>, h: LinkedMap<string, string>)
    requires h == CallerHeaders(url, methodName, referrer, cookie)
    ensures Valid(h)
    ensures Get(h, "Host") == Some(url.host) && Get(h, "Connection") == Some("keep-alive")
    ensures Get(h, "User-Agent") == Some(UserAgent)
    ensures Get(h, "Cookie") == if cookie.Some? && CookieAllowed(cookie.value, url, methodName, referrer) then Some(cookie.value.value) else None
  {
    var d := DefaultHeaders(url.host);
    DefaultHeadersHold(url.host, d);
    if cookie.Some? && CookieAllowed(cookie.value, url, methodName, referrer) {
      assert h == Put(d, "Cookie", cookie.value.value);
      PutValid(d, "Cookie", cookie.value.value);
      PutOther(d, "Cookie", cookie.value.value, "Host");
      PutOther(d, "Cookie", cookie.value.value, "Connection");
      PutOther(d, "Cookie", cookie.value.value, "User-Agent");
    } else {
      assert "Cookie" !in Keys(d);
    }
  }

  /** Every created request carries Host, Connection and User-Agent. */
  lemma CreatedRequestDefaults(url: Url, methodName: string, referrer: Option<Url>, body: Option<string>, cookie: Option<Cookie>)
    ensures var h := CreatedRequest(url, methodName, referrer, body, cookie).headers;
      Get(h, "Host") == Some(url.host) && Get(h, "Connection") == Some("keep-alive")
      && Get(h, "User-Agent") == Some(UserAgent)
  {
    var caller := CallerHeaders(url, methodName, referrer, cookie);
    CallerHeadersHold(url, methodName, referrer, cookie, caller);
    var h := CreatedRequest(url, methodName, referrer, body, cookie).headers;
    assert h == PutAll(InitialHeaders(url.host, body), caller);
    MergedOverInitial(url.host, body, caller, h);
  }

  /** The `Cookie` header of a created request is the cookie's value when one is sent and absent otherwise. */
  lemma CreatedRequestCookie(url: Url, methodName: string, referrer: Option<Url>, body: Option<string>, cookie: Option<Cookie>)
    ensures Get(CreatedRequest(url, methodName, referrer, body, cookie).headers, "Cookie") ==
      if cookie.Some? && CookieAllowed(cookie.value, url, methodName, referrer) then Some(cookie.value.value) else None
  {
    var caller := CallerHeaders(url, methodName, referrer, cookie);
    CallerHeadersHold(url, methodName, referrer, cookie, caller);
    var h := CreatedRequest(url, methodName, referrer, body, cookie).headers;
    assert h == PutAll(InitialHeaders(url.host, body), caller);
    MergedOverInitial(url.host, body, caller, h);
  }

  /** `Request` merging the caller's map over its own defaults keeps the caller's four keys. */
  lemma MergedOverInitial(host: string, body: Option<string>, caller: LinkedMap<string, string>, h: LinkedMap<string, string>)
    requires Valid(caller) && h == PutAll(InitialHeaders(host, body), caller)
    requires "Host" in Keys(caller) && "Connection" in Keys(caller) && "User-Agent" in Keys(caller)
    ensures Get(h, "Host") == Get(caller, "Host") && Get(h, "Connection") == Get(caller, "Connection")
    ensures Get(h, "User-Agent") == Get(caller, "User-Agent") && Get(h, "Cookie") == Get(caller, "Cookie")
  {
    var tmp := InitialHeaders(host, body);
    DefaultsBeforeCaller(host, body, tmp);
    CookieNotDefault(body.Some?);
    MergedHeaders(tmp, caller, h);
  }

  lemma CookieNotDefault(withBody: bool)
    ensures "Cookie" !in DefaultKeys(withBody)
  {
    assert "Cookie"[2] != "Connection"[2];
    assert |"Cookie"| != |"Host"| && |"Cookie"| != |"User-Agent"| && |"Cookie"| != |"Content-Length"|;
  }

  /** Merging the caller's headers over `init`'s map: a caller key keeps the caller's value, a key in neither is absent. */
  lemma MergedHeaders(tmp: LinkedMap<string, string>, caller: LinkedMap<string, string>, h: LinkedMap<string, string>)
    requires Valid(caller) && h == PutAll(tmp, caller)
    requires "Cookie" !in Keys(tmp)
    requires "Host" in Keys(caller) && "Connection" in Keys(caller) && "User-Agent" in Keys(caller)
    ensures Get(h, "Host") == Get(caller, "Host") && Get(h, "Connection") == Get(caller, "Connection")
    ensures Get(h, "User-Agent") == Get(caller, "User-Agent") && Get(h, "Cookie") == Get(caller, "Cookie")
  {
    PutAllGet(tmp, caller, "Host");
    PutAllGet(tmp, caller, "Connection");
    PutAllGet(tmp, caller, "User-Agent");
    if "Cookie" in Keys(caller) {
      PutAllGet(tmp, caller, "Cookie");
    } else {
      PutAllOther(tmp, caller, "Cookie");
    }
  }

  /**
   * With a cookie for the host, the request goes without it exactly when a
   * referrer is given, the cookie is `SameSite=Lax`, the method is not GET
   * and the host differs from the referrer's.
   */
  lemma CookieWithheldIff(url: Url, methodName: string, referrer: Option<Url>, body: Option<string>, c: Cookie)
    ensures Get(CreatedRequest(url, methodName, referrer, body, Some(c)).headers, "Cookie").None? <==>
      (referrer.Some? && Get(c.parameters, "samesite") == Some("lax") && methodName != "GET" && url.host != referrer.value.host)
  {
    CreatedRequestCookie(url, methodName, referrer, body, Some(c));
  }

  /** A host without a live cookie never gets a `Cookie` header. */
  lemma NoCookieNoHeader(url: Url, methodName: string, referrer: Option<Url>, body: Option<string>)
    ensures Get(CreatedRequest(url, methodName, referrer, body, None).headers, "Cookie") == None
  {
    CreatedRequestCookie(url, methodName, referrer, body, None);
  }

  // ------------------------------------------------------------------- tabs

  /**
   * The index `removeTab` makes active, in the list after the removal, as
   * written: the old active position clamped to the new last position. A
   * result below 0 makes the lookup throw.
   */
  function ActiveAfterRemovalAsWritten(count: nat, active: int, index: int): int
    requires 0 <= index < count && -1 <= active < count
  {
    if active >= count - 1 then count - 2 else active
  }

  /**
   * The index the removal should make active: the active position moves down
   * by one when an earlier tab goes, then is clamped as before.
   */
  function ActiveAfterRemoval(count: nat, active: int, index: int): int
    requires 0 <= index < count && -1 <= active < count
  {
    var shifted := if index < active then active - 1 else active;
    if shifted >= count - 1 then count - 2 else shifted
  }

  /** Removing one element of a list without repeats leaves a list without repeats, of elements it had. */
  lemma RemovedAtKeeps<T>(s: seq<T>, index: int)
    requires 0 <= index < |s|
    requires forall i, j :: 0 <= i < j < |s| ==> s[i] != s[j]
    ensures forall t :: t in RemovedAt(s, index) ==> t in s
    ensures var r := RemovedAt(s, index); forall i, j :: 0 <= i < j < |r| ==> r[i] != r[j]
  {
    var r := RemovedAt(s, index);
    forall t | t in r ensures t in s {
      var k :| 0 <= k < |r| && r[k] == t;
      if k < index { assert s[k] == t; } else { assert s[k + 1] == t; }
    }
    forall i, j | 0 <= i < j < |r| ensures r[i] != r[j] {
      var i' := if i < index then i else i + 1;
      var j' := if j < index then j else j + 1;
      assert r[i] == s[i'] && r[j] == s[j'];
    }
  }

  /** With the corrected index, removing any tab but the active one keeps the active tab. */
  lemma RemovalKeepsActive<T>(s: seq<T>, active: int, index: int)
    requires 0 <= index < |s| && 0 <= active < |s| && index != active
    ensures var n := ActiveAfterRemoval(|s|, active, index);
      0 <= n < |s| - 1 && RemovedAt(s, index)[n] == s[active]
  {
  }

  /**
   * Removing the active tab makes the next one active, or the one before when
   * it was the last; removing the only tab leaves no index to look up.
   */
  lemma RemovalOfActive<T>(s: seq<T>, index: int)
    requires 0 <= index < |s|
    ensures var n := ActiveAfterRemoval(|s|, index, index);
      (|s| == 1 ==> n < 0) &&
      (|s| >= 2 ==> 0 <= n < |s| - 1 && RemovedAt(s, index)[n] == s[if index < |s| - 1 then index + 1 else index - 1])
  {
  }

  /**
   * As written, removing a tab before the active one hands the focus to the
   * tab after the active one: with three tabs, the middle one active, closing
   * the first makes the third active.
   */
  lemma RemovalAsWrittenMovesActive<T>(s: seq<T>)
    requires |s| == 3 && s[1] != s[2]
    ensures var n := ActiveAfterRemovalAsWritten(3, 1, 0);
      n == 1 && RemovedAt(s, 0)[n] == s[2] && RemovedAt(s, 0)[n] != s[1]
  {
  }

  /** The open tabs and the active one. */
  class Browser {
    var tabs: seq<Tab>
    var activeTab: Tab?

    /** Every tab, and the active one, is a valid tab, and no tab is listed twice. */
    ghost predicate Valid()
      reads this, tabs, activeTab
    {
      (forall t :: t in tabs ==> t.Valid()) &&
      (activeTab != null ==> activeTab.Valid()) &&
      (forall i, j :: 0 <= i < j < |tabs| ==> tabs[i] != tabs[j])
    }

    /** The panel before `init` opens its first tab. */
    constructor ()
      ensures Valid() && tabs == [] && activeTab == null
    {
      tabs := [];
      activeTab := null;
    }

    /**
     * `newTab(url)`: a fresh tab loads the URL, becomes active and is
     * appended. Loading `about:blank` into a fresh tab throws (there is no
     * history entry to load), so no tab is added.
     */
    method NewTab(url: string, page: Page, originOf: string -> string) returns (r: Outcome<()>)
      requires Valid()
      modifies this
      ensures Valid()
      ensures url != BlankUrl ==>
        r == Ok(()) && activeTab != null && fresh(activeTab) && tabs == old(tabs) + [activeTab]
        && activeTab.rawUrl == url && activeTab.history == [url] && activeTab.historyIndex == 0
      ensures url == BlankUrl ==> r == Fail(IndexOutOfBounds) && tabs == old(tabs) && activeTab == old(activeTab)
    {
      var tab := new Tab();
      r := tab.Load(url, page, originOf);
      if r.Fail? {
        return;
      }
      activeTab := tab;
      tabs := tabs + [tab];
    }

    /**
     * `removeTab(index)`: an index outside the list throws before anything
     * changes; otherwise the tab is removed and the tab now at the old active
     * position (clamped to the last one) becomes active, or the lookup throws
     * when there is none. The position is not shifted when an earlier tab
     * goes, so another tab becomes active (`RemovalAsWrittenMovesActive`).
     */
    method RemoveTab(index: int) returns (r: Outcome<()>)
      requires Valid()
      modifies this
      ensures Valid()
      ensures !(0 <= index < |old(tabs)|) ==> r == Fail(IndexOutOfBounds) && tabs == old(tabs) && activeTab == old(activeTab)
      ensures 0 <= index < |old(tabs)| ==>
        tabs == RemovedAt(old(tabs), index) &&
        var n := ActiveAfterRemovalAsWritten(|old(tabs)|, PositionOf(old(tabs), old(activeTab)), index);
        (n >= 0 ==> r == Ok(()) && activeTab == tabs[n]) &&
        (n < 0 ==> r == Fail(IndexOutOfBounds) && activeTab == old(activeTab))
    {
      if !(0 <= index < |tabs|) {
        return Fail(IndexOutOfBounds);
      }
      var newIndex := PositionOf(tabs, activeTab);
      RemovedAtKeeps(tabs, index);
      tabs := RemovedAt(tabs, index);
      if newIndex >= |tabs| {
        newIndex := |tabs| - 1;
      }
      if newIndex < 0 {
        return Fail(IndexOutOfBounds);
      }
      activeTab := tabs[newIndex];
      r := Ok(());
    }
  }
}
