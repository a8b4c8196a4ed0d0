/** `MergeUtil.mergeDict`: merges two insertion-ordered maps, turning every
    key collision into a list of both values. */
module MergeUtil {
  import opened Wrappers
  import opened OrderedMap

  /** A map value as `mergeValue` tells values apart: `null`, a `List`, or any
      other value (kept as an uninterpreted `A`). */
  datatype Value<A> = Null | List(items: seq<Value<A>>) | Other(a: A)

  /** `mergeValue(existing, incoming)`. `existing + incoming` on a list appends
      `incoming` as a single element (the `plus(element)` overload, since
      `incoming` is typed `Any?`), even when `incoming` is itself a list. */
  function MergeValue<A>(existing: Value<A>, incoming: Value<A>): (r: Value<A>)
    ensures r.List? && |r.items| > 0
    ensures existing.List? ==>
      |r.items| == |existing.items| + 1 && r.items[..|existing.items|] == existing.items && r.items[|existing.items|] == incoming
    ensures !existing.List? ==> r.items == [incoming, existing]
  {
    if existing.List? then List(existing.items + [incoming])
    else List([incoming, existing])
  }

  /** What `out[k]` becomes when `b` brings `v` for `k`: `v` itself when `out[k]`
      is `null` (a missing key reads as `null` too), else the merged value. */
  function Combine<A>(existing: Option<Value<A>>, v: Value<A>): Value<A> {
    if existing.None? || existing.value.Null? then v else MergeValue(existing.value, v)
  }

  /** The loop over `b`, one member at a time, into `out`. */
  function MergeInto<A>(out: Map<Value<A>>, b: Map<Value<A>>): (r: Map<Value<A>>)
    ensures KeySet(r) == KeySet(out) + KeySet(b)
    ensures KeepsOrder(out, r)
    decreases |b|
  {
    if |b| == 0 then out
    else
      var k := b[0].key;
      var next := Put(out, k, Combine(Find(out, k), b[0].value));
      assert KeySet(b) == {k} + KeySet(b[1..]);
      MergeInto(next, b[1..])
  }

  /** `mergeDict(a, b)`. */
  function MergeDict<A>(a: Map<Value<A>>, b: Map<Value<A>>): (r: Map<Value<A>>)
    ensures |a| == 0 ==> r == b
    ensures |a| > 0 && |b| == 0 ==> r == a
    ensures KeySet(r) == KeySet(a) + KeySet(b)
    ensures |a| > 0 ==> KeepsOrder(a, r)
  {
    if |a| == 0 then b
    else if |b| == 0 then a
    else MergeInto(a, b)
  }

  /** After the loop, each key holds what its own member of `b` (keys are unique
      in a Java map) made of the value found in `out`; keys not in `b` are untouched. */
  lemma {:induction false} MergeIntoFind<A>(out: Map<Value<A>>, b: Map<Value<A>>, k: string)
    requires UniqueKeys(b)
    ensures Find(MergeInto(out, b), k) ==
      match Find(b, k)
      case None => Find(out, k)
      case Some(v) => Some(Combine(Find(out, k), v))
    decreases |b|
  {
    if |b| > 0 {
      var next := Put(out, b[0].key, Combine(Find(out, b[0].key), b[0].value));
      assert b == [b[0]] + b[1..];
      UniqueCons(b[0], b[1..]);
      MergeIntoFind(next, b[1..], k);
      FindCons(b[0], b[1..]);
      if b[0].key == k {
        assert Find(b[1..], k).None?;
      }
    }
  }

  /** A key of `a` that `b` lacks keeps its value. */
  lemma KeptFromA<A>(a: Map<Value<A>>, b: Map<Value<A>>, k: string)
    requires UniqueKeys(b) && k !in KeySet(b)
    ensures Find(MergeDict(a, b), k) == Find(a, k)
  {
    if |a| > 0 && |b| > 0 {
      MergeIntoFind(a, b, k);
    } else if |a| == 0 {
      assert Find(a, k).None?;
    }
  }

  /** A key missing from `a`, or `null` there, takes `b`'s value. */
  lemma TakenFromB<A>(a: Map<Value<A>>, b: Map<Value<A>>, k: string, v: Value<A>)
    requires UniqueKeys(b) && Find(b, k) == Some(v)
    requires Find(a, k).None? || Find(a, k) == Some(Null)
    ensures Find(MergeDict(a, b), k) == Some(v)
  {
    if |a| > 0 {
      MergeIntoFind(a, b, k);
    }
  }

  /** A key with a non-null value in both maps ends up with both values in one list. */
  lemma Collision<A>(a: Map<Value<A>>, b: Map<Value<A>>, k: string, existing: Value<A>, incoming: Value<A>)
    requires UniqueKeys(b) && Find(b, k) == Some(incoming)
    requires Find(a, k) == Some(existing) && !existing.Null?
    ensures existing.List? ==> Find(MergeDict(a, b), k) == Some(List(existing.items + [incoming]))
    ensures !existing.List? ==> Find(MergeDict(a, b), k) == Some(List([incoming, existing]))
  {
    MergeIntoFind(a, b, k);
  }
}
