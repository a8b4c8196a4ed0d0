/** Insertion-ordered string-keyed maps, the model of Java's `LinkedHashMap`
    and of `org.json`'s `JSONObject` (which is backed by one): `get`/`opt`,
    `containsKey`/`has`, `put`, `remove`, and a one-level `putAll`-style overlay. */
module OrderedMap {
  import opened Wrappers

  datatype Entry<V> = Entry(key: string, value: V)

  type Map<V> = seq<Entry<V>>

  function KeySet<V>(o: Map<V>): set<string> {
    if |o| == 0 then {} else {o[0].key} + KeySet(o[1..])
  }

  lemma KeySetIndex<V>(o: Map<V>, k: string)
    ensures k in KeySet(o) <==> exists i :: 0 <= i < |o| && o[i].key == k
  {
    if |o| > 0 {
      KeySetIndex(o[1..], k);
      if k in KeySet(o[1..]) {
        var i :| 0 <= i < |o[1..]| && o[1..][i].key == k;
        assert o[i + 1].key == k;
      }
      if exists i :: 0 <= i < |o| && o[i].key == k {
        var i :| 0 <= i < |o| && o[i].key == k;
        if i > 0 {
          assert o[1..][i - 1].key == k;
        }
      }
    }
  }

  function Keys<V>(o: Map<V>): (r: seq<string>)
    ensures |r| == |o| && forall i :: 0 <= i < |o| ==> r[i] == o[i].key
  {
    if |o| == 0 then [] else [o[0].key] + Keys(o[1..])
  }

  /** Keys are unique, as in any `JSONObject`. */
  predicate UniqueKeys<V>(o: Map<V>) {
    forall i, j :: 0 <= i < j < |o| ==> o[i].key != o[j].key
  }

  /** `opt(key)`: the value stored under `key`, or nothing. */
  function Find<V>(o: Map<V>, k: string): (r: Option<V>)
    ensures r.None? <==> k !in KeySet(o)
    ensures r.Some? ==> exists i :: 0 <= i < |o| && o[i] == Entry(k, r.value)
  {
    if |o| == 0 then None
    else if o[0].key == k then Some(o[0].value)
    else
      var r := Find(o[1..], k);
      assert KeySet(o) == {o[0].key} + KeySet(o[1..]);
      if r.Some? then
        ghost var i :| 0 <= i < |o[1..]| && o[1..][i] == Entry(k, r.value);
        assert o[i + 1] == Entry(k, r.value);
        r
      else r
  }

  /** `has(key)`. */
  predicate Has<V>(o: Map<V>, k: string) {
    Find(o, k).Some?
  }

  /** `remove(key)`: the member under `key` is dropped, the others keep their order. */
  function Remove<V>(o: Map<V>, k: string): (r: Map<V>)
    ensures KeySet(r) == KeySet(o) - {k}
    ensures forall k' :: k' != k ==> Find(r, k') == Find(o, k')
    ensures |r| <= |o|
    ensures UniqueKeys(o) ==> UniqueKeys(r)
    ensures k !in KeySet(o) ==> r == o
  {
    if |o| == 0 then []
    else
      var rest := Remove(o[1..], k);
      if o[0].key == k then rest
      else
        var r := [o[0]] + rest;
        assert r[1..] == rest;
        KeySetIndex(o[1..], o[0].key);
        KeySetIndex(rest, o[0].key);
        r
  }

  /** Several `remove` calls in a row. */
  function RemoveKeys<V>(o: Map<V>, ks: seq<string>): (r: Map<V>)
    ensures KeySet(r) == KeySet(o) - set k | k in ks
    ensures forall k :: k !in ks ==> Find(r, k) == Find(o, k)
    ensures UniqueKeys(o) ==> UniqueKeys(r)
    decreases |ks|
  {
    if |ks| == 0 then o
    else
      var r := RemoveKeys(Remove(o, ks[0]), ks[1..]);
      assert (set k | k in ks) == {ks[0]} + (set k | k in ks[1..]);
      r
  }

  /** The keys of `o`, in order, begin the keys of `r`. */
  predicate KeepsOrder<V>(o: Map<V>, r: Map<V>) {
    |o| <= |r| && forall i :: 0 <= i < |o| ==> r[i].key == o[i].key
  }

  /** `put(key, value)`: overwrites in place when the key exists (keeping its
      position), appends otherwise. */
  function Put<V>(o: Map<V>, k: string, v: V): (r: Map<V>)
    ensures Find(r, k) == Some(v)
    ensures forall k' :: k' != k ==> Find(r, k') == Find(o, k')
    ensures KeySet(r) == KeySet(o) + {k}
    ensures KeepsOrder(o, r)
    ensures k in KeySet(o) ==> |r| == |o|
    ensures k !in KeySet(o) ==> |r| == |o| + 1 && r[|o|] == Entry(k, v)
  {
    if |o| == 0 then [Entry(k, v)]
    else if o[0].key == k then
      var r := [Entry(k, v)] + o[1..];
      assert r[1..] == o[1..];
      r
    else
      var rest := Put(o[1..], k, v);
      PutCons(o, k, v, rest);
      [o[0]] + rest
  }

  /** What `Put` promises, as one predicate. */
  ghost predicate PutSpec<V>(o: Map<V>, k: string, v: V, r: Map<V>) {
    && Find(r, k) == Some(v)
    && (forall k' :: k' != k ==> Find(r, k') == Find(o, k'))
    && KeySet(r) == KeySet(o) + {k}
    && KeepsOrder(o, r)
    && (k in KeySet(o) ==> |r| == |o|)
    && (k !in KeySet(o) ==> |r| == |o| + 1 && r[|o|] == Entry(k, v))
  }

  /** The step of `Put` past a first entry with another key. */
  lemma PutCons<V>(o: Map<V>, k: string, v: V, rest: Map<V>)
    requires |o| > 0 && o[0].key != k
    requires PutSpec(o[1..], k, v, rest)
    ensures PutSpec(o, k, v, [o[0]] + rest)
  {
    var r := [o[0]] + rest;
    FindCons(o[0], rest);
    FindCons(o[0], o[1..]);
    assert o == [o[0]] + o[1..];
    assert r[1..] == rest;
    assert KeySet(r) == {o[0].key} + KeySet(rest);
    assert KeySet(o) == {o[0].key} + KeySet(o[1..]);
  }

  /** `Find` on a map with a first entry `e`. */
  lemma FindCons<V>(e: Entry<V>, rest: Map<V>)
    ensures forall k :: Find([e] + rest, k) == if e.key == k then Some(e.value) else Find(rest, k)
  {
    assert ([e] + rest)[1..] == rest;
  }

  lemma UniqueCons<V>(m: Entry<V>, o: Map<V>)
    ensures UniqueKeys([m] + o) <==> UniqueKeys(o) && m.key !in KeySet(o)
  {
    var l := [m] + o;
    KeySetIndex(o, m.key);
    if UniqueKeys(o) && m.key !in KeySet(o) {
      forall i, j | 0 <= i < j < |l| ensures l[i].key != l[j].key {
        if i > 0 {
          assert l[i] == o[i - 1] && l[j] == o[j - 1];
        } else {
          assert l[j] == o[j - 1];
        }
      }
    }
    if UniqueKeys(l) {
      forall i, j | 0 <= i < j < |o| ensures o[i].key != o[j].key {
        assert l[i + 1] == o[i] && l[j + 1] == o[j];
      }
      forall i | 0 <= i < |o| ensures o[i].key != m.key {
        assert l[i + 1] == o[i] && l[0] == m;
      }
    }
  }

  lemma {:induction false} PutKeepsUnique<V>(o: Map<V>, k: string, v: V)
    requires UniqueKeys(o)
    ensures UniqueKeys(Put(o, k, v))
  {
    if |o| > 0 {
      assert o == [o[0]] + o[1..];
      UniqueCons(o[0], o[1..]);
      if o[0].key == k {
        UniqueCons(Entry(k, v), o[1..]);
      } else {
        PutKeepsUnique(o[1..], k, v);
        UniqueCons(o[0], Put(o[1..], k, v));
      }
    }
  }

  /** Each member of `top`, in order, put into `base`: a one-level overlay in
      which the members of `top` win. */
  function Overlay<V>(base: Map<V>, top: Map<V>): (r: Map<V>)
    ensures KeySet(r) == KeySet(base) + KeySet(top)
    ensures forall k :: k !in KeySet(top) ==> Find(r, k) == Find(base, k)
    ensures KeepsOrder(base, r)
    ensures UniqueKeys(base) ==> UniqueKeys(r)
    decreases |top|
  {
    if |top| == 0 then base
    else
      var next := Put(base, top[0].key, top[0].value);
      PutUniqueIf(base, top[0].key, top[0].value);
      var r := Overlay(next, top[1..]);
      r
  }

  lemma PutUniqueIf<V>(o: Map<V>, k: string, v: V)
    ensures UniqueKeys(o) ==> UniqueKeys(Put(o, k, v))
  {
    if UniqueKeys(o) {
      PutKeepsUnique(o, k, v);
    }
  }

  /** With unique keys in `top` (as in any Java `Map`), each key of `top`
      ends up with `top`'s value. */
  lemma {:induction false} OverlayTopWins<V>(base: Map<V>, top: Map<V>, k: string)
    requires UniqueKeys(top)
    requires k in KeySet(top)
    ensures Find(Overlay(base, top), k) == Find(top, k)
    decreases |top|
  {
    var next := Put(base, top[0].key, top[0].value);
    assert top == [top[0]] + top[1..];
    UniqueCons(top[0], top[1..]);
    assert Overlay(base, top) == Overlay(next, top[1..]);
    if top[0].key != k {
      OverlayTopWins(next, top[1..], k);
    }
  }


  /** The members of `o` whose keys are not in `ks`, in their order. */
  function Without<V>(o: Map<V>, ks: seq<string>): (r: Map<V>)
    ensures forall i :: 0 <= i < |r| ==> r[i] in o && r[i].key !in ks
    ensures forall i :: 0 <= i < |o| && o[i].key !in ks ==> o[i] in r
    ensures |r| <= |o|
  {
    if |o| == 0 then []
    else
      var rest := Without(o[1..], ks);
      assert forall i :: 1 <= i < |o| ==> o[i] == o[1..][i - 1];
      (if o[0].key in ks then [] else [o[0]]) + rest
  }

  /** One `remove` drops exactly the members under that key. */
  lemma {:induction false} RemoveIsWithout<V>(o: Map<V>, k: string)
    ensures Remove(o, k) == Without(o, [k])
  {
    if |o| > 0 {
      RemoveIsWithout(o[1..], k);
    }
  }

  lemma {:induction false} WithoutThenWithout<V>(o: Map<V>, k: string, ks: seq<string>)
    ensures Without(Without(o, [k]), ks) == Without(o, [k] + ks)
  {
    if |o| > 0 {
      WithoutThenWithout(o[1..], k, ks);
      var w := Without(o, [k]);
      assert o[0].key in [k] + ks <==> o[0].key == k || o[0].key in ks;
      if o[0].key != k {
        assert w == [o[0]] + Without(o[1..], [k]);
        assert w[0] == o[0] && w[1..] == Without(o[1..], [k]);
        assert Without(w, ks) == (if o[0].key in ks then [] else [o[0]]) + Without(Without(o[1..], [k]), ks);
        assert Without(o, [k] + ks) == (if o[0].key in ks then [] else [o[0]]) + Without(o[1..], [k] + ks);
      } else {
        assert w == Without(o[1..], [k]);
        assert Without(o, [k] + ks) == Without(o[1..], [k] + ks);
      }
    }
  }

  /** Removing keys one after another is filtering them out in one pass, so
      the remaining members keep their relative order. */
  lemma {:induction false} RemoveKeysIsWithout<V>(o: Map<V>, ks: seq<string>)
    ensures RemoveKeys(o, ks) == Without(o, ks)
    decreases |ks|
  {
    if |ks| > 0 {
      RemoveKeysIsWithout(Remove(o, ks[0]), ks[1..]);
      RemoveIsWithout(o, ks[0]);
      WithoutThenWithout(o, ks[0], ks[1..]);
      assert [ks[0]] + ks[1..] == ks;
    } else {
      WithoutNothing(o);
    }
  }

  lemma {:induction false} WithoutNothing<V>(o: Map<V>)
    ensures Without(o, []) == o
  {
    if |o| > 0 {
      WithoutNothing(o[1..]);
      assert o == [o[0]] + o[1..];
    }
  }
}
