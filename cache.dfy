// The response cache kept by the old Tab (Tab.kt, `getResponse`) and by the
// newer HttpClient (`request`): a LinkedHashMap from URL to a response and
// the instant until which it may be served. A response whose `cache-control`
// header mentions `max-age` is stored for that many seconds; above 740
// entries the earliest-inserted key is dropped. Instants are whole seconds
// passed in by the caller.

module Caching {
  import opened Common
  import opened Strings
  import opened LinkedMaps
  import opened Responses

  datatype Cached = Cached(validUntil: int, response: Response)

  /** The eviction threshold: the cache may hold this many entries. */
  const Capacity: nat := 740

  const MaxAgeKey: string := "max-age="

  // --------------------------------------------------------------- max-age

  /** The longest run of ASCII digits starting at `i`. */
  function DigitRun(s: string, i: nat): (r: string)
    requires i <= |s|
    ensures i + |r| <= |s| && AllDigits(r) && r == s[i..i + |r|]
    ensures i + |r| == |s| || !IsAsciiDigit(s[i + |r|])
    decreases |s| - i
  {
    if i < |s| && IsAsciiDigit(s[i]) then
      var rest := DigitRun(s, i + 1);
      assert s[i..i + 1 + |rest|] == [s[i]] + s[i + 1..i + 1 + |rest|];
      [s[i]] + rest
    else []
  }

  /** Where the pattern `max-age=(\d+)` first matches in `s` at or after `i`. */
  function FindMaxAge(s: string, i: nat): (r: Option<nat>)
    requires i <= |s|
    ensures r.Some? ==> i <= r.value && MaxAgeAt(s, r.value)
    decreases |s| - i
  {
    if MaxAgeAt(s, i) then Some(i)
    else if i == |s| then None
    else FindMaxAge(s, i + 1)
  }

  /** The match found is the leftmost one. */
  lemma {:induction false} FindMaxAgeFirst(s: string, i: nat)
    requires i <= |s|
    ensures var r := FindMaxAge(s, i);
      forall j :: i <= j && (r.None? || j < r.value) ==> !MaxAgeAt(s, j)
    decreases |s| - i
  {
    if !MaxAgeAt(s, i) && i < |s| {
      FindMaxAgeFirst(s, i + 1);
    }
  }

  /** `max-age=` followed by at least one digit starts at `j`. */
  predicate MaxAgeAt(s: string, j: int)
  {
    OccursAt(s, MaxAgeKey, j) && j + |MaxAgeKey| < |s| && IsAsciiDigit(s[j + |MaxAgeKey|])
  }

  /**
   * `maxAgePattern.find(cc)?.groupValues[1]?.toInt() ?: 0`: the digits of the
   * first match, 0 without a match; a number beyond `Int` throws. The digit
   * run is never empty and never signed, so `toInt` reduces to the range
   * test (`MaxAgeIsToInt`).
   */
  function MaxAge(cc: string): (r: Outcome<int>)
    ensures FindMaxAge(cc, 0).None? ==> r == Ok(0)
    ensures r.Ok? ==> r.value >= 0
  {
    match FindMaxAge(cc, 0)
    case None => Ok(0)
    case Some(j) =>
      var digits := DigitRun(cc, j + |MaxAgeKey|);
      if DigitsValue(digits) <= IntMax then Ok(DigitsValue(digits)) else Fail(NumberFormat)
  }

  /** The value of a match is exactly what `toInt()` makes of its digit group. */
  lemma MaxAgeIsToInt(cc: string)
    ensures FindMaxAge(cc, 0).Some? ==>
      MaxAge(cc) == ToInt(DigitRun(cc, FindMaxAge(cc, 0).value + |MaxAgeKey|))
  {
    if FindMaxAge(cc, 0).Some? {
      var j := FindMaxAge(cc, 0).value;
      var digits := DigitRun(cc, j + |MaxAgeKey|);
      assert |digits| >= 1;
      assert ParseInteger(digits) == Some(DigitsValue(digits) as int);
    }
  }

  /** A header written as `max-age=<n>` reads back as `n`. */
  lemma MaxAgeOfWritten(n: nat)
    requires n <= IntMax
    ensures MaxAge(MaxAgeKey + NatToString(n)) == Ok(n)
  {
    var s := MaxAgeKey + NatToString(n);
    assert OccursAt(s, MaxAgeKey, 0) by { assert s[..|MaxAgeKey|] == MaxAgeKey; }
    assert s[|MaxAgeKey|] == NatToString(n)[0];
    assert FindMaxAge(s, 0) == Some(0);
    DigitRunToEnd(s, |MaxAgeKey|);
    assert s[|MaxAgeKey|..] == NatToString(n);
  }

  lemma {:induction false} DigitRunToEnd(s: string, i: nat)
    requires i <= |s| && AllDigits(s[i..])
    ensures DigitRun(s, i) == s[i..]
    decreases |s| - i
  {
    if i < |s| {
      assert s[i..][0] == s[i];
      assert s[i + 1..] == s[i..][1..];
      DigitRunToEnd(s, i + 1);
    }
  }

  // ------------------------------------------------------------ operations

  /** `url in cache && cache[url]!!.validUntil > now`: the response that may be served. */
  function Lookup<K(==)>(cache: LinkedMap<K, Cached>, key: K, now: int): (r: Option<Response>)
    ensures r.Some? <==> key in Keys(cache) && Get(cache, key).value.validUntil > now
    ensures r.Some? ==> r.value == Get(cache, key).value.response
  {
    match Get(cache, key)
    case None => None
    case Some(c) => if c.validUntil > now then Some(c.response) else None
  }

  /** `if (cache.size > 740) cache.remove(cache.keys.first())` */
  function Evict<K>(cache: LinkedMap<K, Cached>): (r: LinkedMap<K, Cached>)
    ensures |cache| <= Capacity ==> r == cache
    ensures |cache| > Capacity ==> r == cache[1..]
  {
    if |cache| > Capacity then cache[1..] else cache
  }

  /** Whether `response.headers["cache-control"]?.contains("max-age") == true`. */
  predicate Cacheable(response: Response)
  {
    "cache-control" in response.headers && Contains(response.headers["cache-control"], "max-age")
  }

  /** `cache[url] = entry`, then the eviction. */
  function Admit<K(==)>(cache: LinkedMap<K, Cached>, key: K, entry: Cached): LinkedMap<K, Cached>
  {
    Evict(Put(cache, key, entry))
  }

  /** The store after a response came back: admitted with `now + maxAge` when cacheable. */
  function Store<K(==)>(cache: LinkedMap<K, Cached>, key: K, response: Response, now: int): (r: Outcome<LinkedMap<K, Cached>>)
    ensures !Cacheable(response) ==> r == Ok(cache)
    ensures r.Fail? ==> r.exc == NumberFormat
  {
    if !Cacheable(response) then Ok(cache)
    else StoreFor(cache, key, response, now, MaxAge(response.headers["cache-control"]))
  }

  /** The store of a cacheable response once its max-age has been read (or failed to read). */
  function StoreFor<K(==)>(cache: LinkedMap<K, Cached>, key: K, response: Response, now: int, maxAge: Outcome<int>): (r: Outcome<LinkedMap<K, Cached>>)
    ensures r.Fail? <==> maxAge.Fail?
    ensures r.Fail? ==> r.exc == maxAge.exc
  {
    if maxAge.Fail? then Fail(maxAge.exc)
    else Ok(Admit(cache, key, Cached(now + maxAge.value, response)))
  }

  predicate Bounded<K(==)>(cache: LinkedMap<K, Cached>)
  {
    Valid(cache) && |cache| <= Capacity
  }

  /**
   * Admitting keeps the cache within its bound and free of repeated keys, and
   * the new entry is the one stored for its key: eviction never drops it.
   */
  lemma AdmitKeepsBound<K>(cache: LinkedMap<K, Cached>, key: K, entry: Cached)
    requires Bounded(cache)
    ensures Bounded(Admit(cache, key, entry))
    ensures Get(Admit(cache, key, entry), key) == Some(entry)
  {
    var put := Put(cache, key, entry);
    PutValid(cache, key, entry);
    assert |Keys(put)| <= |Keys(cache)| + 1;
    if |put| > Capacity {
      EvictKeepsNewest(cache, key, entry);
    }
  }

  /** When the cache overflows, the key just added is not the earliest one. */
  lemma EvictKeepsNewest<K>(cache: LinkedMap<K, Cached>, key: K, entry: Cached)
    requires Bounded(cache) && |Put(cache, key, entry)| > Capacity
    ensures Valid(Put(cache, key, entry)[1..])
    ensures Get(Put(cache, key, entry)[1..], key) == Some(entry)
  {
    var put := Put(cache, key, entry);
    PutValid(cache, key, entry);
    var ks := Keys(put);
    assert key !in Keys(cache);
    assert ks == Keys(cache) + [key];
    assert ks[0] != ks[|ks| - 1];
    DropFirst(put);
    GetDropFirst(put, key);
  }

  lemma GetDropFirst<K, V>(m: LinkedMap<K, V>, k: K)
    requires |m| > 0 && m[0].0 != k
    ensures Get(m[1..], k) == Get(m, k)
  {
  }

  /** Storing keeps the cache bounded; a cacheable response is then stored until `now + maxAge`. */
  lemma StoreKeepsBound<K>(cache: LinkedMap<K, Cached>, key: K, response: Response, now: int)
    requires Bounded(cache)
    ensures var r := Store(cache, key, response, now);
      r.Ok? ==> Bounded(r.value)
    ensures var r := Store(cache, key, response, now);
      r.Ok? && Cacheable(response) ==>
        var m := MaxAge(response.headers["cache-control"]);
        m.Ok? && Get(r.value, key) == Some(Cached(now + m.value, response))
  {
    if Cacheable(response) {
      var m := MaxAge(response.headers["cache-control"]);
      assert Store(cache, key, response, now) == StoreFor(cache, key, response, now, m);
      StoreForKeepsBound(cache, key, response, now, m);
    }
  }

  /** With a readable max-age the store is the admission of the response until `now + maxAge`. */
  lemma StoreForAdmits<K>(cache: LinkedMap<K, Cached>, key: K, response: Response, now: int, m: Outcome<int>)
    requires m.Ok?
    ensures StoreFor(cache, key, response, now, m) == Ok(Admit(cache, key, Cached(now + m.value, response)))
  {
  }

  lemma StoreForKeepsBound<K>(cache: LinkedMap<K, Cached>, key: K, response: Response, now: int, m: Outcome<int>)
    requires Bounded(cache)
    ensures var r := StoreFor(cache, key, response, now, m);
      r.Ok? ==> Bounded(r.value) && Get(r.value, key) == Some(Cached(now + m.value, response))
  {
    if m.Ok? {
      var entry := Cached(now + m.value, response);
      var a := Admit(cache, key, entry);
      assert StoreFor(cache, key, response, now, m) == Ok(a);
      AdmitKeepsBound(cache, key, entry);
    }
  }

  /** A response stored with a positive max-age is served by a lookup at the same instant. */
  lemma StoredIsServed<K>(cache: LinkedMap<K, Cached>, key: K, response: Response, now: int)
    requires Bounded(cache) && Cacheable(response)
    requires MaxAge(response.headers["cache-control"]).Ok? && MaxAge(response.headers["cache-control"]).value > 0
    ensures Store(cache, key, response, now).Ok?
    ensures Lookup(Store(cache, key, response, now).value, key, now) == Some(response)
  {
    StoreKeepsBound(cache, key, response, now);
  }

  // ----------------------------------------------------------------- state

  /** The `cache` field and the two places the code touches it. */
  class ResponseCache<K(==)> {
    var entries: LinkedMap<K, Cached>

    ghost predicate Valid()
      reads this
    {
      Bounded(entries)
    }

    /** `LinkedHashMap(1000, 0.75f)`: empty. */
    constructor ()
      ensures Valid() && entries == []
    {
      entries := [];
    }

    /** The cache hit test: the stored response when it has not expired. */
    method Find(key: K, now: int) returns (r: Option<Response>)
      ensures r == Lookup(entries, key, now)
    {
      r := None;
      var i := 0;
      while i < |entries|
        invariant 0 <= i <= |entries|
        invariant Get(entries, key) == Get(entries[i..], key)
      {
        if entries[i].0 == key {
          if entries[i].1.validUntil > now {
            r := Some(entries[i].1.response);
          }
          return;
        }
        assert entries[i..][1..] == entries[i + 1..];
        i := i + 1;
      }
    }

    /** The insertion after a fetch: a cacheable response is stored until `now + maxAge`. */
    method Insert(key: K, response: Response, now: int) returns (r: Outcome<()>)
      requires Valid()
      modifies this
      ensures Valid()
      ensures var s := Store(old(entries), key, response, now);
        (s.Ok? ==> r.Ok? && entries == s.value) && (s.Fail? ==> r == Fail(s.exc) && entries == old(entries))
    {
      if !Cacheable(response) {
        return Ok(());
      }
      var m := MaxAge(response.headers["cache-control"]);
      assert Store(entries, key, response, now) == StoreFor(entries, key, response, now, m);
      if m.Fail? {
        return Fail(m.exc);
      }
      var entry := Cached(now + m.value, response);
      StoreForAdmits(entries, key, response, now, m);
      Add(key, entry);
      r := Ok(());
    }

    /** `cache[url] = entry`, then drop the earliest key above 740 entries. */
    method Add(key: K, entry: Cached)
      requires Valid()
      modifies this
      ensures Valid()
      ensures entries == Admit(old(entries), key, entry)
      ensures Get(entries, key) == Some(entry)
    {
      AdmitKeepsBound(entries, key, entry);
      entries := Put(entries, key, entry);
      if |entries| > Capacity {
        entries := entries[1..];
      }
    }
  }
}
