// The newer HttpClient (HttpClient.kt): the response cache consulted and
// filled by `request`, the process-wide cookie jar keyed by host, and the
// `Set-Cookie` parser, a simplified form of section 5.2 of RFC 6265.
// Sending the request and reading the response (sockets, chunked and gzip
// bodies, redirects) are not modelled: the fetched response is a parameter.
// Instants are whole seconds; RFC 1123 date parsing is a parameter.

module HttpClients {
  import opened Common
  import opened Strings
  import opened LinkedMaps
  import opened Responses
  import opened Caching
  import opened Urls
  import opened Requests

  /** A cookie's expiry: `Instant.MAX` or an instant in seconds. */
  datatype Expiry = Never | At(instant: int)

  datatype Cookie = Cookie(value: string, parameters: LinkedMap<string, string>, expires: Expiry)

  /** `isExpired`: `expires.isBefore(now)`. */
  predicate IsExpired(c: Cookie, now: int)
  {
    c.expires.At? && c.expires.instant < now
  }

  // ---------------------------------------------------------- Cookie.parse

  /** One `key=value` parameter: the key lower-cased and trimmed, the value trimmed; a bare word is `"true"`. */
  function ParamEntry(param: string): (string, string)
  {
    if Contains(param, "=") then (Trim(Lower(SubstringBefore(param, "="))), Trim(SubstringAfter(param, "=", param)))
    else (Trim(Lower(param)), "true")
  }

  /** A parameter key is lower-case and trimmed. */
  lemma ParamKeyNormalised(param: string)
    ensures IsLower(ParamEntry(param).0) && ParamEntry(param).0 == Trim(ParamEntry(param).0)
  {
    var raw := if Contains(param, "=") then SubstringBefore(param, "=") else param;
    assert ParamEntry(param).0 == Trim(Lower(raw));
    TrimLowerIsLower(raw);
    TrimTwice(Lower(raw));
  }

  lemma TrimTwice(s: string)
    ensures Trim(Trim(s)) == Trim(s)
  {
    TrimOfTrimmed(Trim(s));
  }

  /** `read` applied to each piece, in order. */
  function Each(pieces: seq<string>, read: string -> (string, string)): (r: seq<(string, string)>)
    ensures |r| == |pieces|
  {
    seq(|pieces|, i requires 0 <= i < |pieces| => read(pieces[i]))
  }

  /** The entries of the parameters, in order. */
  function ParamEntries(pieces: seq<string>): seq<(string, string)>
  {
    Each(pieces, ParamEntry)
  }

  /** The parameter map: the pieces of `rest.split("; ")`, put in order. */
  function CookieParams(rest: string): (r: LinkedMap<string, string>)
    ensures Valid(r)
  {
    assert Valid<string, string>([]);
    PutAll([], ParamEntries(SplitStr(rest, "; ")))
  }

  /** `Instant.MIN` and `Instant.MAX` in epoch seconds. */
  const InstantMin: int := -31557014167219200
  const InstantMax: int := 31556889864403199

  /**
   * `Instant.plusSeconds(seconds)` on the instant `now`: adding zero
   * returns `now` itself; otherwise the sum is taken with `Math.addExact`,
   * which throws ArithmeticException when it leaves the Long range, and a
   * sum outside the Instant range throws DateTimeException.
   */
  function PlusSeconds(now: int, seconds: int): (r: Outcome<int>)
    ensures r.Ok? ==> r.value == now + seconds
    ensures InstantMin <= now <= InstantMax ==>
      (r.Ok? <==> InstantMin <= now + seconds <= InstantMax)
    ensures r.Fail? ==> seconds != 0 && (r.exc == DateTime || r.exc == Arithmetic)
  {
    if seconds == 0 then Ok(now)
    else if !(LongMin <= now + seconds <= LongMax) then Fail(Arithmetic)
    else if !(InstantMin <= now + seconds <= InstantMax) then Fail(DateTime)
    else Ok(now + seconds)
  }

  /**
   * The expiry: `max-age` (read with `toLong`) gives now plus that many
   * seconds, then `expires`, when present, replaces it. An out-of-range
   * `max-age` throws before `expires` is read.
   */
  function CookieExpiry(params: LinkedMap<string, string>, now: int, parseDate: string -> Option<int>): (r: Outcome<Expiry>)
    ensures r.Fail? ==> r.exc in {NumberFormat, DateTime, Arithmetic, DateTimeParse}
    ensures r.Fail? && r.exc == DateTimeParse ==> "expires" in Keys(params)
    ensures r.Fail? && r.exc != DateTimeParse ==> "max-age" in Keys(params)
  {
    var fromMaxAge :-
      if "max-age" in Keys(params) then
        var seconds :- ToLong(Get(params, "max-age").value);
        var t :- PlusSeconds(now, seconds);
        Ok(At(t))
      else Ok(Never);
    if "expires" in Keys(params) then
      match parseDate(Get(params, "expires").value)
      case Some(t) => Ok(At(t))
      case None => Fail(DateTimeParse)
    else Ok(fromMaxAge)
  }

  /** `Cookie.parse(cookie)` */
  function ParseCookie(cookie: string, now: int, parseDate: string -> Option<int>): (r: Outcome<Cookie>)
    ensures !Contains(cookie, ";") ==> r == Ok(Cookie(cookie, [], Never))
    ensures Contains(cookie, ";") && r.Ok? ==>
      r.value.value == SubstringBefore(cookie, ";") && !Contains(r.value.value, ";")
      && r.value.parameters == CookieParams(SubstringAfter(cookie, ";", cookie))
    ensures r.Ok? ==> Valid(r.value.parameters)
    ensures r.Fail? ==> Contains(cookie, ";") && r.exc in {NumberFormat, DateTime, Arithmetic, DateTimeParse}
  {
    if !Contains(cookie, ";") then Ok(Cookie(cookie, [], Never))
    else
      var params := CookieParams(SubstringAfter(cookie, ";", cookie));
      var expires :- CookieExpiry(params, now, parseDate);
      Ok(Cookie(SubstringBefore(cookie, ";"), params, expires))
  }

  /** The parser as written: the value before the first `;`, then a loop filling a fresh map. */
  method ParseCookieText(cookie: string, now: int, parseDate: string -> Option<int>) returns (r: Outcome<Cookie>)
    ensures r == ParseCookie(cookie, now, parseDate)
  {
    if !Contains(cookie, ";") {
      return Ok(Cookie(cookie, [], Never));
    }
    var value := SubstringBefore(cookie, ";");
    var params := FillParams(SplitStr(SubstringAfter(cookie, ";", cookie), "; "), ParamEntry);
    var expires := CookieExpiry(params, now, parseDate);
    if expires.Fail? {
      return Fail(expires.exc);
    }
    r := Ok(Cookie(value, params, expires.value));
  }

  /**
   * The loop over the pieces: each is read into an entry (by `read`, which
   * is `ParamEntry`) and put into the map in turn, a later key replacing an
   * earlier one's value.
   */
  method FillParams(pieces: seq<string>, read: string -> (string, string)) returns (params: LinkedMap<string, string>)
    ensures params == PutAll([], Each(pieces, read))
  {
    ghost var entries := Each(pieces, read);
    params := [];
    var i := 0;
    while i < |pieces|
      invariant 0 <= i <= |pieces|
      invariant params == PutAll([], entries[..i])
    {
      var (key, value) := read(pieces[i]);
      PutAllPrefix([], entries, i);
      params := Put(params, key, value);
      i := i + 1;
    }
    assert entries[..i] == entries;
  }

  /** Every parameter key is lower-case and trimmed. */
  lemma CookieKeysNormalised(cookie: string, now: int, parseDate: string -> Option<int>)
    ensures var r := ParseCookie(cookie, now, parseDate);
      r.Ok? ==> forall k :: k in Keys(r.value.parameters) ==> IsLower(k) && k == Trim(k)
  {
    var r := ParseCookie(cookie, now, parseDate);
    if r.Ok? && Contains(cookie, ";") {
      var pieces := SplitStr(SubstringAfter(cookie, ";", cookie), "; ");
      var entries := ParamEntries(pieces);
      assert r.value.parameters == PutAll([], entries);
      forall k | k in Keys(PutAll([], entries))
        ensures IsLower(k) && k == Trim(k)
      {
        EntryKeyNormalised(pieces, entries, k);
      }
    }
  }

  lemma EntryKeyNormalised(pieces: seq<string>, entries: LinkedMap<string, string>, k: string)
    requires entries == ParamEntries(pieces) && k in Keys(PutAll([], entries))
    ensures IsLower(k) && k == Trim(k)
  {
    PutAllKeysFrom([], entries, k);
    var i :| 0 <= i < |entries| && Keys(entries)[i] == k;
    assert k == ParamEntry(pieces[i]).0;
    ParamKeyNormalised(pieces[i]);
  }

  /**
   * The last parameter with a given key decides its value: the trimmed text
   * after its first `=`, or `"true"` for a parameter without `=`.
   */
  lemma CookieParamValue(cookie: string, now: int, parseDate: string -> Option<int>, j: int)
    requires Contains(cookie, ";")
    requires var pieces := SplitStr(SubstringAfter(cookie, ";", cookie), "; ");
      0 <= j < |pieces| && forall i :: j < i < |pieces| ==> ParamEntry(pieces[i]).0 != ParamEntry(pieces[j]).0
    ensures var pieces := SplitStr(SubstringAfter(cookie, ";", cookie), "; ");
      var r := ParseCookie(cookie, now, parseDate);
      r.Ok? ==> (Get(r.value.parameters, ParamEntry(pieces[j]).0) ==
        Some(if Contains(pieces[j], "=") then Trim(SubstringAfter(pieces[j], "=", pieces[j])) else "true"))
  {
    var pieces := SplitStr(SubstringAfter(cookie, ";", cookie), "; ");
    PutAllLast([], ParamEntries(pieces), j);
  }

  /**
   * An `expires` parameter decides the expiry whatever `max-age` says, once
   * `max-age` is a valid number whose instant exists.
   */
  lemma ExpiresOverridesMaxAge(params: LinkedMap<string, string>, now: int, parseDate: string -> Option<int>)
    requires "expires" in Keys(params) && parseDate(Get(params, "expires").value).Some?
    requires "max-age" in Keys(params) ==>
      ToLong(Get(params, "max-age").value).Ok? && PlusSeconds(now, ToLong(Get(params, "max-age").value).value).Ok?
    ensures CookieExpiry(params, now, parseDate) == Ok(At(parseDate(Get(params, "expires").value).value))
  {
  }

  /**
   * Without `expires`, a valid `max-age` expires the cookie that many
   * seconds from now; with neither it never expires. From an instant of
   * the clock, a `max-age` that passes `Instant.MAX` or `Instant.MIN`
   * throws DateTimeException, or ArithmeticException beyond the Long range.
   */
  lemma MaxAgeExpiry(params: LinkedMap<string, string>, now: int, parseDate: string -> Option<int>)
    requires "expires" !in Keys(params)
    ensures "max-age" !in Keys(params) ==> CookieExpiry(params, now, parseDate) == Ok(Never)
    ensures "max-age" in Keys(params) && ToLong(Get(params, "max-age").value).Ok? ==>
      var seconds := ToLong(Get(params, "max-age").value).value;
      (InstantMin <= now + seconds <= InstantMax ==> CookieExpiry(params, now, parseDate) == Ok(At(now + seconds))) &&
      (InstantMin <= now <= InstantMax && !(InstantMin <= now + seconds <= InstantMax) ==>
        CookieExpiry(params, now, parseDate) == Fail(if LongMin <= now + seconds <= LongMax then DateTime else Arithmetic))
  {
  }

  /** An out-of-range `max-age` throws even when an `expires` follows it. */
  lemma OutOfRangeMaxAgeThrows(params: LinkedMap<string, string>, now: int, parseDate: string -> Option<int>)
    requires InstantMin <= now <= InstantMax
    requires "max-age" in Keys(params) && ToLong(Get(params, "max-age").value).Ok?
    requires !(InstantMin <= now + ToLong(Get(params, "max-age").value).value <= InstantMax)
    ensures CookieExpiry(params, now, parseDate).Fail?
    ensures CookieExpiry(params, now, parseDate).exc in {DateTime, Arithmetic}
  {
  }

  /** `toString()`: the value, `;`, then the parameters as `key=value` joined by `;`. */
  function CookieString(c: Cookie): string
  {
    c.value + ";" + Join(ParamStrings(c.parameters), ";")
  }

  function ParamStrings(params: LinkedMap<string, string>): (r: seq<string>)
    ensures |r| == |params|
    ensures forall i :: 0 <= i < |params| ==> r[i] == params[i].0 + "=" + params[i].1
  {
    if params == [] then [] else [params[0].0 + "=" + params[0].1] + ParamStrings(params[1..])
  }

  /**
   * A cookie with one normalised parameter survives `toString` and `parse`:
   * the value and the parameter come back. (With two or more parameters it
   * does not, since `toString` joins them with `;` and `parse` splits on `"; "`.)
   */
  lemma CookieStringReadsBack(value: string, k: string, v: string, expires: Expiry, now: int, parseDate: string -> Option<int>)
    requires forall i :: 0 <= i < |value| ==> value[i] != ';'
    requires IsLower(k) && Trim(k) == k && Trim(v) == v && (forall i :: 0 <= i < |k| ==> k[i] != '=')
    requires !Contains(k + "=" + v, "; ")
    ensures var r := ParseCookie(CookieString(Cookie(value, [(k, v)], expires)), now, parseDate);
      r.Ok? ==> r.value.value == value && r.value.parameters == [(k, v)]
  {
    var rest := k + "=" + v;
    assert ParamStrings([(k, v)]) == [rest];
    var text := CookieString(Cookie(value, [(k, v)], expires));
    assert text == value + ";" + rest;
    FirstOccurrence(value, ";", rest, text);
    OneParamReadsBack(k, v, rest);
  }

  /** A single normalised `key=value` parameter is read back as one entry. */
  lemma OneParamReadsBack(k: string, v: string, rest: string)
    requires rest == k + "=" + v
    requires IsLower(k) && Trim(k) == k && Trim(v) == v && (forall i :: 0 <= i < |k| ==> k[i] != '=')
    requires !Contains(rest, "; ")
    ensures CookieParams(rest) == [(k, v)]
  {
    assert SplitStr(rest, "; ") == [rest];
    ParamEntryOf(k, v, rest);
    assert ParamEntries([rest]) == [(k, v)];
    assert PutAll([], [(k, v)]) == PutAll(Put([], k, v), []);
  }

  /** `key=value` with a normalised key and trimmed value is read as `(key, value)`. */
  lemma ParamEntryOf(k: string, v: string, rest: string)
    requires rest == k + "=" + v
    requires IsLower(k) && Trim(k) == k && Trim(v) == v && (forall i :: 0 <= i < |k| ==> k[i] != '=')
    ensures ParamEntry(rest) == (k, v)
  {
    FirstOccurrence(k, "=", v, rest);
    LowerOfLower(k);
  }

  lemma LowerOfLower(k: string)
    requires IsLower(k)
    ensures Lower(k) == k
  {
  }

  // ------------------------------------------------------------ the client

  /** The cookie `getCookie` hands out for a host: the jar's entry unless it has expired. */
  function LiveCookie(jar: map<string, Cookie>, host: string, now: int): (r: Option<Cookie>)
    ensures r.Some? <==> host in jar && !IsExpired(jar[host], now)
    ensures r.Some? ==> r.value == jar[host]
  {
    if host in jar && !IsExpired(jar[host], now) then Some(jar[host]) else None
  }


  class HttpClient {
    /** `cache`, keyed by the request URL. */
    var cache: ResponseCache<Url>
    /** `COOKIE_JAR`, keyed by host. */
    var jar: map<string, Cookie>

    ghost predicate Valid()
      reads this, cache
    {
      cache.Valid()
    }

    constructor ()
      ensures Valid() && fresh(cache) && cache.entries == [] && jar == map[]
    {
      cache := new ResponseCache();
      jar := map[];
    }

    /** `getCookie(url)`: an expired cookie is dropped from the jar and not returned. */
    method GetCookie(url: Url, now: int) returns (r: Option<Cookie>)
      modifies this
      ensures cache == old(cache)
      ensures r == LiveCookie(old(jar), url.host, now)
      ensures url.host !in old(jar) ==> r == None && jar == old(jar)
      ensures url.host in old(jar) && IsExpired(old(jar)[url.host], now) ==> r == None && jar == old(jar) - {url.host}
      ensures url.host in old(jar) && !IsExpired(old(jar)[url.host], now) ==> r == Some(old(jar)[url.host]) && jar == old(jar)
    {
      if url.host in jar {
        var cookie := jar[url.host];
        if IsExpired(cookie, now) {
          jar := jar - {url.host};
          return None;
        }
        return Some(cookie);
      }
      return None;
    }

    /** `setCookie(url, cookie)`: one cookie per host, the newest wins. */
    method SetCookie(url: Url, cookie: Cookie)
      modifies this
      ensures cache == old(cache)
      ensures jar == old(jar)[url.host := cookie]
    {
      jar := jar[url.host := cookie];
    }

    /**
     * `request(request)`, with `fetched` standing for what `doHttpRequest`
     * would return. Only http and https are accepted; a request without a
     * body is answered from an unexpired cache entry; otherwise the fetched
     * response is stored when cacheable and a `set-cookie` header replaces
     * the host's cookie.
     */
    method Request(request: Request, fetched: Response, now: int, parseDate: string -> Option<int>) returns (r: Outcome<Response>)
      requires Valid()
      modifies this, cache
      ensures Valid() && cache == old(cache)
      ensures !IsHttp(request.url.scheme) ==> r == Fail(IllegalArgument) && cache.entries == old(cache.entries) && jar == old(jar)
      ensures IsHttp(request.url.scheme) && request.body.None? && Lookup(old(cache.entries), request.url, now).Some? ==>
        r == Ok(Lookup(old(cache.entries), request.url, now).value) && cache.entries == old(cache.entries) && jar == old(jar)
      ensures IsHttp(request.url.scheme) && (request.body.Some? || Lookup(old(cache.entries), request.url, now).None?) ==>
        var s := Store(old(cache.entries), request.url, fetched, now);
        (s.Fail? ==> r == Fail(s.exc) && cache.entries == old(cache.entries) && jar == old(jar))
        && (s.Ok? ==> cache.entries == s.value)
        && (s.Ok? && "set-cookie" !in fetched.headers ==> r == Ok(fetched) && jar == old(jar))
        && (s.Ok? && "set-cookie" in fetched.headers ==>
              var c := ParseCookie(fetched.headers["set-cookie"], now, parseDate);
              (c.Ok? ==> r == Ok(fetched) && jar == old(jar)[request.url.host := c.value])
              && (c.Fail? ==> r == Fail(c.exc) && jar == old(jar)))
    {
      if !IsHttp(request.url.scheme) {
        return Fail(IllegalArgument);
      }
      if request.body.None? {
        var hit := cache.Find(request.url, now);
        if hit.Some? {
          return Ok(hit.value);
        }
      }
      var stored := cache.Insert(request.url, fetched, now);
      if stored.Fail? {
        return Fail(stored.exc);
      }
      if "set-cookie" in fetched.headers {
        var cookie := ParseCookieText(fetched.headers["set-cookie"], now, parseDate);
        if cookie.Fail? {
          return Fail(cookie.exc);
        }
        jar := jar[request.url.host := cookie.value];
      }
      r := Ok(fetched);
    }
  }
}
