/**
 * PHP arrays with keys: ordered sequences of key/value entries, with the
 * key-preserving union operator `+` and `array_filter`.
 */
module PhpArrays {
  import opened Wrappers

  type PhpArray<K, V> = seq<(K, V)>

  /** The PHP values a callback may return; `array_filter` keeps truthy ones. */
  datatype PhpValue = Null | Bool(b: bool) {
    predicate Truthy() {
      Bool? && b
    }
  }

  function KeySet<K(==, !new), V(==, !new)>(a: PhpArray<K, V>): set<K> {
    set e | e in a :: e.0
  }

  /** No key occurs twice, as in every real PHP array. */
  predicate DistinctKeys<K(==, !new), V(==, !new)>(a: PhpArray<K, V>) {
    forall i, j :: 0 <= i < j < |a| ==> a[i].0 != a[j].0
  }

  /** `sub` is `a` with some entries left out, the rest in their order. */
  predicate IsSubsequence<K(==), V(==)>(sub: PhpArray<K, V>, a: PhpArray<K, V>)
    decreases |a|
  {
    sub == [] ||
    (a != [] && (IsSubsequence(sub, a[1..]) || (sub[0] == a[0] && IsSubsequence(sub[1..], a[1..]))))
  }

  /** `$a[$k]` when `isset`, found from the front. */
  function Lookup<K(==, !new), V(==, !new)>(a: PhpArray<K, V>, k: K): (r: Option<V>)
    ensures r.Some? <==> k in KeySet(a)
    ensures r.Some? ==> (k, r.value) in a
  {
    if a == [] then None
    else if a[0].0 == k then Some(a[0].1)
    else
      assert forall e :: e in a <==> e == a[0] || e in a[1..];
      Lookup(a[1..], k)
  }

  lemma {:induction false} LookupAppend<K(!new), V(!new)>(x: PhpArray<K, V>, y: PhpArray<K, V>, k: K)
    ensures Lookup(x + y, k) == if k in KeySet(x) then Lookup(x, k) else Lookup(y, k)
  {
    if x == [] {
      assert x + y == y;
    } else {
      assert (x + y)[0] == x[0];
      assert (x + y)[1..] == x[1..] + y;
      assert forall e :: e in x <==> e == x[0] || e in x[1..];
      LookupAppend(x[1..], y, k);
    }
  }

  /** With distinct keys, every entry is what a lookup of its key finds. */
  lemma {:induction false} LookupOfEntry<K(!new), V(!new)>(a: PhpArray<K, V>, k: K, v: V)
    requires DistinctKeys(a) && (k, v) in a
    ensures Lookup(a, k) == Some(v)
  {
    if a[0] != (k, v) {
      assert a[0].0 != k by {
        var i :| 0 <= i < |a| && a[i] == (k, v);
        assert i > 0;
      }
      assert (k, v) in a[1..];
      LookupOfEntry(a[1..], k, v);
    }
  }

  /** The entries of `a` whose key is not in `ks`, in order. */
  function WithoutKeys<K(==, !new), V(==, !new)>(a: PhpArray<K, V>, ks: set<K>): (r: PhpArray<K, V>)
    ensures IsSubsequence(r, a)
    ensures forall e :: e in r <==> e in a && e.0 !in ks
    ensures KeySet(r) == KeySet(a) - ks
    ensures forall k :: k !in ks ==> Lookup(r, k) == Lookup(a, k)
    ensures DistinctKeys(a) ==> DistinctKeys(r)
  {
    if a == [] then []
    else
      var rest := WithoutKeys(a[1..], ks);
      assert forall e :: e in a <==> e == a[0] || e in a[1..];
      if a[0].0 in ks then rest
      else
        var r := [a[0]] + rest;
        assert forall k :: Lookup(r, k) == if k == a[0].0 then Some(a[0].1) else Lookup(rest, k) by {
          forall k ensures Lookup(r, k) == if k == a[0].0 then Some(a[0].1) else Lookup(rest, k) {
            LookupAppend([a[0]], rest, k);
          }
        }
        assert DistinctKeys(a) ==> DistinctKeys(r) by {
          if DistinctKeys(a) {
            forall j | 0 < j < |r| ensures r[0].0 != r[j].0 {
              assert r[j] in rest;
              var i :| 0 <= i < |a| && a[i] == r[j] && i > 0;
            }
          }
        }
        r
  }

  /**
   * PHP's `$left + $right`: all of `left` in its order and with its values, then
   * the entries of `right` whose key `left` does not have, in `right`'s order.
   */
  function Union<K(==, !new), V(==, !new)>(left: PhpArray<K, V>, right: PhpArray<K, V>): (r: PhpArray<K, V>)
    ensures |left| <= |r| && r[..|left|] == left
    ensures IsSubsequence(r[|left|..], right)
    ensures forall e :: e in r[|left|..] <==> e in right && e.0 !in KeySet(left)
    ensures KeySet(r) == KeySet(left) + KeySet(right)
    ensures forall k :: Lookup(r, k) == if k in KeySet(left) then Lookup(left, k) else Lookup(right, k)
    ensures DistinctKeys(left) && DistinctKeys(right) ==> DistinctKeys(r)
  {
    var rest := WithoutKeys(right, KeySet(left));
    var r := left + rest;
    assert forall k :: Lookup(r, k) == if k in KeySet(left) then Lookup(left, k) else Lookup(rest, k) by {
      forall k ensures Lookup(r, k) == if k in KeySet(left) then Lookup(left, k) else Lookup(rest, k) {
        LookupAppend(left, rest, k);
      }
    }
    assert DistinctKeys(left) && DistinctKeys(right) ==> DistinctKeys(r) by {
      if DistinctKeys(left) && DistinctKeys(right) {
        forall i, j | 0 <= i < j < |r| ensures r[i].0 != r[j].0 {
          if j >= |left| {
            assert r[j] in rest;
            if i < |left| {
              assert r[i] in left;
            }
          }
        }
      }
    }
    r
  }

  /** `array_filter($a, $callback)`: the entries whose value the callback maps to a truthy value, keys kept. */
  function Filter<K(==, !new), V(==, !new)>(a: PhpArray<K, V>, callback: V -> PhpValue): (r: PhpArray<K, V>)
    ensures |r| <= |a|
    ensures IsSubsequence(r, a)
    ensures forall e :: e in r <==> e in a && callback(e.1).Truthy()
    ensures DistinctKeys(a) ==> DistinctKeys(r)
  {
    if a == [] then []
    else
      var rest := Filter(a[1..], callback);
      assert forall e :: e in a <==> e == a[0] || e in a[1..];
      if !callback(a[0].1).Truthy() then rest
      else
        var r := [a[0]] + rest;
        assert DistinctKeys(a) ==> DistinctKeys(r) by {
          if DistinctKeys(a) {
            forall j | 0 < j < |r| ensures r[0].0 != r[j].0 {
              assert r[j] in rest;
              var i :| 0 <= i < |a| && a[i] == r[j] && i > 0;
            }
          }
        }
        r
  }

  /** A filtered array of distinct keys is a sub-array: what it has, it has with the original value. */
  lemma FilterIsSubArray<K(!new), V(!new)>(a: PhpArray<K, V>, callback: V -> PhpValue, k: K)
    requires DistinctKeys(a)
    requires k in KeySet(Filter(a, callback))
    ensures Lookup(Filter(a, callback), k) == Lookup(a, k)
    ensures callback(Lookup(a, k).value).Truthy()
  {
    var r := Filter(a, callback);
    var v := Lookup(r, k).value;
    LookupOfEntry(r, k, v);
    LookupOfEntry(a, k, v);
  }

  /** A callback that is never truthy filters everything out. */
  lemma FilterNothingKept<K(!new), V(!new)>(a: PhpArray<K, V>, callback: V -> PhpValue)
    requires forall v :: !callback(v).Truthy()
    ensures Filter(a, callback) == []
  {
  }
}
