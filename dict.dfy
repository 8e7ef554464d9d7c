/**
 * Insertion-ordered dictionaries with the semantics of a Python `dict`:
 * assigning to a key that is already present keeps its position and
 * replaces its value, assigning to a new key appends it at the end.
 * A dictionary is the sequence of its entries in insertion order; the
 * same sequence type also holds the entries a loop assigns, in order.
 */
module Dict {
  import opened Wrappers

  datatype Entry<K, V> = Entry(key: K, val: V)

  type Dict<K, V> = seq<Entry<K, V>>

  /** The keys in insertion order (Python's `list(d)`). */
  function Keys<K, V>(d: Dict<K, V>): (ks: seq<K>)
    ensures |ks| == |d|
    decreases |d|
  {
    if d == [] then [] else Keys(d[..|d| - 1]) + [d[|d| - 1].key]
  }

  predicate Distinct<K(==)>(ks: seq<K>) {
    forall i, j :: 0 <= i < j < |ks| ==> ks[i] != ks[j]
  }

  /**
   * The value bound to `k`: that of the last entry with key `k`, which is
   * what a dict holds after the entries have been assigned in order.
   */
  function Lookup<K(==), V>(d: Dict<K, V>, k: K): (r: Option<V>)
    ensures r.Some? <==> k in Keys(d)
    decreases |d|
  {
    if d == [] then None
    else if d[|d| - 1].key == k then Some(d[|d| - 1].val)
    else Lookup(d[..|d| - 1], k)
  }

  /** Python's `d[k] = v`. */
  function Put<K(==, !new), V>(d: Dict<K, V>, k: K, v: V): Dict<K, V>
    decreases |d|
  {
    if d == [] then [Entry(k, v)]
    else
      var prefix, last := d[..|d| - 1], d[|d| - 1];
      if last.key == k then prefix + [Entry(k, v)]
      else if k in Keys(prefix) then Put(prefix, k, v) + [last]
      else d + [Entry(k, v)]
  }

  /**
   * After `d[k] = v`, `k` is bound to `v` and every other key keeps its
   * value; a present key keeps its place, a new key goes last, and keys
   * stay distinct.
   */
  lemma {:induction false} PutSpec<K(!new), V>(d: Dict<K, V>, k: K, v: V)
    ensures Keys(Put(d, k, v)) == if k in Keys(d) then Keys(d) else Keys(d) + [k]
    ensures Lookup(Put(d, k, v), k) == Some(v)
    ensures forall j :: j != k ==> Lookup(Put(d, k, v), j) == Lookup(d, j)
    ensures Distinct(Keys(d)) ==> Distinct(Keys(Put(d, k, v)))
    decreases |d|
  {
    if d != [] {
      var prefix, last := d[..|d| - 1], d[|d| - 1];
      if last.key == k {
        assert (prefix + [Entry(k, v)])[..|d| - 1] == prefix;
      } else if k in Keys(prefix) {
        PutSpec(prefix, k, v);
        var r := Put(prefix, k, v) + [last];
        assert r[..|r| - 1] == Put(prefix, k, v);
      } else {
        assert (d + [Entry(k, v)])[..|d|] == d;
      }
    }
  }

  /** The dict after assigning the entries `es` into `d` in order (Python's `d.update(es)`). */
  function PutAll<K(==, !new), V>(d: Dict<K, V>, es: seq<Entry<K, V>>): Dict<K, V>
    decreases |es|
  {
    if es == [] then d
    else Put(PutAll(d, es[..|es| - 1]), es[|es| - 1].key, es[|es| - 1].val)
  }

  /** A later assignment wins: a key of `es` takes its last value there, any other key keeps its value in `d`. */
  lemma {:induction false} PutAllGet<K(!new), V>(d: Dict<K, V>, es: seq<Entry<K, V>>, k: K)
    ensures Lookup(PutAll(d, es), k) == if Lookup(es, k).Some? then Lookup(es, k) else Lookup(d, k)
    decreases |es|
  {
    if es != [] {
      PutAllGet(d, es[..|es| - 1], k);
      PutSpec(PutAll(d, es[..|es| - 1]), es[|es| - 1].key, es[|es| - 1].val);
    }
  }

  /** Assignments never reorder or drop keys: the old keys stay a prefix, and keys stay distinct. */
  lemma {:induction false} PutAllKeys<K(!new), V>(d: Dict<K, V>, es: seq<Entry<K, V>>)
    ensures Keys(d) <= Keys(PutAll(d, es))
    ensures Distinct(Keys(d)) ==> Distinct(Keys(PutAll(d, es)))
    decreases |es|
  {
    if es != [] {
      PutAllKeys(d, es[..|es| - 1]);
      PutSpec(PutAll(d, es[..|es| - 1]), es[|es| - 1].key, es[|es| - 1].val);
    }
  }

  /** Whether `o` is an entry for key `k`. */
  predicate Binds<K(==), V>(o: Option<Entry<K, V>>, k: K) {
    o.Some? && o.value.key == k
  }

  /**
   * The entries a loop assigns when it visits `xs` in order and assigns
   * `pick(x)` for every `x` that `pick` keeps.
   */
  function Select<T, K, V>(xs: seq<T>, pick: T -> Option<Entry<K, V>>): seq<Entry<K, V>>
    decreases |xs|
  {
    if xs == [] then []
    else
      Select(xs[..|xs| - 1], pick) +
      match pick(xs[|xs| - 1])
      case Some(e) => [e]
      case None => []
  }

  /** Element `i` of `xs` assigns `k := v`, and no later element assigns `k` again. */
  predicate PicksLast<T, K(==), V(==)>(xs: seq<T>, pick: T -> Option<Entry<K, V>>, k: K, v: V, i: int) {
    0 <= i < |xs| && pick(xs[i]) == Some(Entry(k, v)) &&
    forall j :: i < j < |xs| ==> !Binds(pick(xs[j]), k)
  }

  /**
   * Key `k` is bound to `v` after the loop exactly when some visited element
   * picks `k` with `v` and no later element picks `k` again.
   */
  lemma {:induction false} SelectGet<T, K, V>(xs: seq<T>, pick: T -> Option<Entry<K, V>>, k: K, v: V)
    ensures Lookup(Select(xs, pick), k) == Some(v) <==> exists i :: PicksLast(xs, pick, k, v, i)
    decreases |xs|
  {
    if xs != [] {
      var p, x := xs[..|xs| - 1], xs[|xs| - 1];
      var s := Select(p, pick);
      SelectGet(p, pick, k, v);
      if Binds(pick(x), k) {
        var e := pick(x).value;
        assert Select(xs, pick) == s + [e];
        assert Lookup(s + [e], k) == Some(e.val);
        if e.val == v {
          assert PicksLast(xs, pick, k, v, |xs| - 1);
        } else {
          forall i | 0 <= i < |xs|
            ensures !PicksLast(xs, pick, k, v, i)
          {
            if i < |xs| - 1 {
              assert Binds(pick(xs[|xs| - 1]), k);
            }
          }
        }
      } else {
        assert Lookup(Select(xs, pick), k) == Lookup(s, k) by {
          if pick(x).Some? {
            var e := pick(x).value;
            assert Select(xs, pick) == s + [e];
            assert (s + [e])[..|s|] == s;
          } else {
            assert Select(xs, pick) == s;
          }
        }
        assert !PicksLast(xs, pick, k, v, |xs| - 1);
        forall i | 0 <= i < |p|
          ensures PicksLast(xs, pick, k, v, i) <==> PicksLast(p, pick, k, v, i)
        {
          assert forall j :: 0 <= j < |p| ==> xs[j] == p[j];
        }
        if Lookup(s, k) == Some(v) {
          var i :| PicksLast(p, pick, k, v, i);
          assert PicksLast(xs, pick, k, v, i);
        }
      }
    }
  }

  /** Key `k` is unbound after the loop exactly when no visited element picks it. */
  lemma {:induction false} SelectMissing<T, K, V>(xs: seq<T>, pick: T -> Option<Entry<K, V>>, k: K)
    ensures Lookup(Select(xs, pick), k).None? <==> forall i :: 0 <= i < |xs| ==> !Binds(pick(xs[i]), k)
    decreases |xs|
  {
    if xs != [] {
      var p, x := xs[..|xs| - 1], xs[|xs| - 1];
      var s := Select(p, pick);
      SelectMissing(p, pick, k);
      assert forall i :: 0 <= i < |p| ==> xs[i] == p[i];
      match pick(x)
      case Some(e) =>
        assert Select(xs, pick) == s + [e];
        assert (s + [e])[..|s|] == s;
      case None =>
        assert Select(xs, pick) == s;
    }
  }

  /** One more visited element: the selected entries grow by that element's entry, if `pick` keeps it. */
  lemma SelectStep<T, K, V>(xs: seq<T>, pick: T -> Option<Entry<K, V>>, i: nat)
    requires i < |xs|
    ensures Select(xs[..i + 1], pick) ==
      Select(xs[..i], pick) + if pick(xs[i]).Some? then [pick(xs[i]).value] else []
  {
    assert xs[..i + 1][..i] == xs[..i];
  }

  /** Assigning one more entry after a run of assignments. */
  lemma PutAllSnoc<K(!new), V>(d: Dict<K, V>, es: seq<Entry<K, V>>, e: Entry<K, V>)
    ensures PutAll(d, es + [e]) == Put(PutAll(d, es), e.key, e.val)
  {
    assert (es + [e])[..|es|] == es;
  }

  /** One more visited element: the dict takes that element's assignment, if `pick` keeps it. */
  lemma PutAllSelectStep<T, K(!new), V>(d: Dict<K, V>, xs: seq<T>, pick: T -> Option<Entry<K, V>>, i: nat)
    requires i < |xs|
    ensures pick(xs[i]).Some? ==>
              PutAll(d, Select(xs[..i + 1], pick)) ==
              Put(PutAll(d, Select(xs[..i], pick)), pick(xs[i]).value.key, pick(xs[i]).value.val)
    ensures pick(xs[i]).None? ==> PutAll(d, Select(xs[..i + 1], pick)) == PutAll(d, Select(xs[..i], pick))
  {
    SelectStep(xs, pick, i);
    if pick(xs[i]).Some? {
      PutAllSnoc(d, Select(xs[..i], pick), pick(xs[i]).value);
    } else {
      assert Select(xs[..i], pick) + [] == Select(xs[..i], pick);
    }
  }
}
