// Kotlin's default `mutableMapOf()` is a LinkedHashMap: it iterates in
// insertion order and `put` on a present key replaces the value in place.
// Attributes, request headers, cookie parameters and CSS rule sets are such
// maps, and their order is observable (serialisation, cascade order).

module LinkedMaps {
  import opened Common

  /** An insertion-ordered map: a sequence of key/value entries. */
  type LinkedMap<K, V> = seq<(K, V)>

  function Keys<K, V>(m: LinkedMap<K, V>): (r: seq<K>)
    ensures |r| == |m|
    ensures forall i :: 0 <= i < |m| ==> r[i] == m[i].0
  {
    if m == [] then [] else [m[0].0] + Keys(m[1..])
  }

  predicate Distinct<K(==)>(ks: seq<K>)
  {
    forall i, j :: 0 <= i < j < |ks| ==> ks[i] != ks[j]
  }

  /** Every key occurs once. */
  predicate Valid<K(==), V>(m: LinkedMap<K, V>)
  {
    Distinct(Keys(m))
  }

  /** `m[k]` */
  function Get<K(==), V>(m: LinkedMap<K, V>, k: K): (r: Option<V>)
    ensures r.Some? <==> k in Keys(m)
  {
    if m == [] then None
    else if m[0].0 == k then Some(m[0].1)
    else Get(m[1..], k)
  }

  /** In a valid map `Get` returns the value stored with the key. */
  lemma {:induction false} GetAt<K, V>(m: LinkedMap<K, V>, i: int)
    requires Valid(m) && 0 <= i < |m|
    ensures Get(m, m[i].0) == Some(m[i].1)
    decreases |m|
  {
    if i > 0 {
      assert Keys(m)[0] != Keys(m)[i];
      assert Keys(m[1..]) == Keys(m)[1..];
      assert m[1..][i - 1] == m[i];
      GetAt(m[1..], i - 1);
    }
  }

  /** `m[k] = v`: a present key keeps its position, a new key goes last. */
  function Put<K(==), V>(m: LinkedMap<K, V>, k: K, v: V): (r: LinkedMap<K, V>)
    ensures Keys(r) == if k in Keys(m) then Keys(m) else Keys(m) + [k]
    ensures Get(r, k) == Some(v)
  {
    if m == [] then [(k, v)]
    else if m[0].0 == k then [(k, v)] + m[1..]
    else
      var rest := Put(m[1..], k, v);
      var r := [m[0]] + rest;
      assert r[1..] == rest;
      assert Keys(m) == [m[0].0] + Keys(m[1..]);
      assert Keys(r) == [m[0].0] + Keys(rest);
      r
  }

  lemma PutValid<K, V>(m: LinkedMap<K, V>, k: K, v: V)
    ensures Valid(m) ==> Valid(Put(m, k, v))
  {
    var ks := Keys(m);
    if Valid(m) && k !in ks {
      assert Keys(Put(m, k, v)) == ks + [k];
    }
  }

  /** `put` leaves every other key's value alone. */
  lemma {:induction false} PutOther<K, V>(m: LinkedMap<K, V>, k: K, v: V, k': K)
    requires k' != k
    ensures Get(Put(m, k, v), k') == Get(m, k')
    decreases |m|
  {
    if m != [] && m[0].0 != k {
      var rest := Put(m[1..], k, v);
      assert Put(m, k, v)[1..] == rest;
      PutOther(m[1..], k, v, k');
    } else if m != [] {
      assert Put(m, k, v)[1..] == m[1..];
    }
  }

  /** Every entry after `put` is the new one or was there before. */
  lemma {:induction false} PutEntries<K, V>(m: LinkedMap<K, V>, k: K, v: V)
    ensures forall e :: e in Put(m, k, v) ==> e == (k, v) || e in m
    decreases |m|
  {
    if m != [] && m[0].0 != k {
      PutEntries(m[1..], k, v);
      assert Put(m, k, v) == [m[0]] + Put(m[1..], k, v);
    } else if m != [] {
      assert Put(m, k, v) == [(k, v)] + m[1..];
    }
  }

  /** `putAll(other)`: the entries of `other`, in its order, put one by one. */
  function PutAll<K(==), V>(m: LinkedMap<K, V>, other: LinkedMap<K, V>): (r: LinkedMap<K, V>)
    ensures Valid(m) ==> Valid(r)
    decreases |other|
  {
    if other == [] then m
    else
      PutValid(m, other[0].0, other[0].1);
      PutAll(Put(m, other[0].0, other[0].1), other[1..])
  }

  /** A key already present stays present. */
  lemma {:induction false} PutAllKeys<K, V>(m: LinkedMap<K, V>, other: LinkedMap<K, V>, k: K)
    requires k in Keys(m)
    ensures k in Keys(PutAll(m, other))
    decreases |other|
  {
    if other != [] {
      PutAllKeys(Put(m, other[0].0, other[0].1), other[1..], k);
    }
  }

  /** `putAll` keeps the keys already present in their order and only adds new ones after them. */
  lemma {:induction false} PutAllKeepsOrder<K, V>(m: LinkedMap<K, V>, other: LinkedMap<K, V>)
    ensures Keys(m) <= Keys(PutAll(m, other))
    decreases |other|
  {
    if other != [] {
      PutAllKeepsOrder(Put(m, other[0].0, other[0].1), other[1..]);
    }
  }

  /** `putAll` leaves keys that `other` does not mention alone. */
  lemma {:induction false} PutAllOther<K, V>(m: LinkedMap<K, V>, other: LinkedMap<K, V>, k: K)
    requires k !in Keys(other)
    ensures Get(PutAll(m, other), k) == Get(m, k)
    decreases |other|
  {
    if other != [] {
      assert Keys(other) == [other[0].0] + Keys(other[1..]);
      PutOther(m, other[0].0, other[0].1, k);
      PutAllOther(Put(m, other[0].0, other[0].1), other[1..], k);
    }
  }

  /** Later entries of a valid `other` win: `putAll` makes `other`'s values visible. */
  lemma {:induction false} PutAllGet<K, V>(m: LinkedMap<K, V>, other: LinkedMap<K, V>, k: K)
    requires Valid(other) && k in Keys(other)
    ensures Get(PutAll(m, other), k) == Get(other, k)
    decreases |other|
  {
    var ks := Keys(other);
    assert ks == [other[0].0] + Keys(other[1..]);
    assert Keys(other[1..]) == ks[1..];
    if other[0].0 == k {
      assert k !in ks[1..];
      PutAllOther(Put(m, k, other[0].1), other[1..], k);
    } else {
      PutAllGet(Put(m, other[0].0, other[0].1), other[1..], k);
    }
  }

  /** `putAll` of one more entry is one more `put`: the order `for (e in other) m[e.key] = e.value` follows. */
  lemma {:induction false} PutAllSnoc<K, V>(m: LinkedMap<K, V>, other: LinkedMap<K, V>, k: K, v: V)
    ensures PutAll(m, other + [(k, v)]) == Put(PutAll(m, other), k, v)
    decreases |other|
  {
    if other == [] {
      assert PutAll(Put(m, k, v), []) == Put(m, k, v);
      assert ([] + [(k, v)])[1..] == [];
    } else {
      assert (other + [(k, v)])[1..] == other[1..] + [(k, v)];
      PutAllSnoc(Put(m, other[0].0, other[0].1), other[1..], k, v);
    }
  }

  /** `putAll` of a prefix one entry longer is one more `put`. */
  lemma PutAllPrefix<K, V>(m: LinkedMap<K, V>, other: LinkedMap<K, V>, i: int)
    requires 0 <= i < |other|
    ensures PutAll(m, other[..i + 1]) == Put(PutAll(m, other[..i]), other[i].0, other[i].1)
  {
    assert other[..i + 1] == other[..i] + [other[i]];
    PutAllSnoc(m, other[..i], other[i].0, other[i].1);
  }

  /** After `putAll` every key was already present or comes from `other`. */
  lemma {:induction false} PutAllKeysFrom<K, V>(m: LinkedMap<K, V>, other: LinkedMap<K, V>, k: K)
    ensures k in Keys(PutAll(m, other)) ==> k in Keys(m) || k in Keys(other)
    decreases |other|
  {
    if other != [] {
      PutAllKeysFrom(Put(m, other[0].0, other[0].1), other[1..], k);
      assert Keys(other) == [other[0].0] + Keys(other[1..]);
    }
  }

  /** The last entry of `other` for a key decides its value after `putAll`. */
  lemma {:induction false} PutAllLast<K, V>(m: LinkedMap<K, V>, other: LinkedMap<K, V>, j: int)
    requires 0 <= j < |other|
    requires forall i :: j < i < |other| ==> other[i].0 != other[j].0
    ensures Get(PutAll(m, other), other[j].0) == Some(other[j].1)
    decreases |other|
  {
    var rest := other[1..];
    var first := Put(m, other[0].0, other[0].1);
    assert PutAll(m, other) == PutAll(first, rest);
    if j == 0 {
      PutAllLastFirst(m, other);
    } else {
      forall i | j - 1 < i < |rest|
        ensures rest[i].0 != rest[j - 1].0
      {
        assert rest[i] == other[i + 1];
      }
      PutAllLast(first, rest, j - 1);
      assert rest[j - 1] == other[j];
    }
  }

  /** The first entry of `other` survives `putAll` when no later entry has its key. */
  lemma PutAllLastFirst<K, V>(m: LinkedMap<K, V>, other: LinkedMap<K, V>)
    requires 0 < |other|
    requires forall i :: 0 < i < |other| ==> other[i].0 != other[0].0
    ensures Get(PutAll(m, other), other[0].0) == Some(other[0].1)
  {
    var rest := other[1..];
    var first := Put(m, other[0].0, other[0].1);
    assert PutAll(m, other) == PutAll(first, rest);
    assert other[0].0 !in Keys(rest) by {
      forall n | 0 <= n < |rest|
        ensures Keys(rest)[n] != other[0].0
      {
        assert rest[n] == other[n + 1];
      }
    }
    PutAllOther(first, rest, other[0].0);
  }

  /** Removing the first entry (`remove(keys.first())`) keeps the other keys, in order, each once. */
  lemma DropFirst<K, V>(m: LinkedMap<K, V>)
    requires |m| > 0
    ensures Keys(m[1..]) == Keys(m)[1..]
    ensures Valid(m) ==> Valid(m[1..])
  {
    assert Keys(m) == [m[0].0] + Keys(m[1..]);
  }

  /** The entries as an unordered map. */
  function ToMap<K(==), V>(m: LinkedMap<K, V>): (r: map<K, V>)
    ensures r.Keys == set k | k in Keys(m)
    ensures forall k :: k in r ==> Get(m, k) == Some(r[k])
    decreases |m|
  {
    if m == [] then map[]
    else
      var rest := ToMap(m[1..]);
      assert Keys(m) == [m[0].0] + Keys(m[1..]);
      rest[m[0].0 := m[0].1]
  }
}
