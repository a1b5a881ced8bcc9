/** Plain JavaScript objects used as ordered string-keyed maps: keys keep their first-insertion
    position, assigning an existing key overwrites its value in place, and `delete` removes it. */
module Dict {
  import opened Wrappers

  type Dict<K(==), V> = seq<(K, V)>

  /** `Object.keys(d)` */
  function Keys<K(==), V>(d: Dict<K, V>): (ks: seq<K>)
    ensures |ks| == |d|
    ensures forall i :: 0 <= i < |d| ==> ks[i] == d[i].0
  {
    seq(|d|, i requires 0 <= i < |d| => d[i].0)
  }

  /** No key occurs twice, as in every JavaScript object. */
  predicate DistinctKeys<K(==), V>(d: Dict<K, V>) {
    forall i, j :: 0 <= i < j < |d| ==> d[i].0 != d[j].0
  }

  /** `d[k]`, `None` standing for `undefined` */
  function Get<K(==), V>(d: Dict<K, V>, k: K): (r: Option<V>)
    ensures r.Some? <==> k in Keys(d)
  {
    if |d| == 0 then None
    else if d[0].0 == k then Some(d[0].1)
    else Get(d[1..], k)
  }

  /** With distinct keys, each pair is what its key reads. */
  lemma {:induction false} GetDistinct<K, V>(d: Dict<K, V>, i: nat)
    requires DistinctKeys(d) && i < |d|
    ensures Get(d, d[i].0) == Some(d[i].1)
    decreases |d|
  {
    if i != 0 {
      GetDistinct(d[1..], i - 1);
    }
  }

  /** `d[k] = v`: overwrite in place when present, otherwise append at the end. */
  function Put<K(==), V>(d: Dict<K, V>, k: K, v: V): Dict<K, V>
  {
    if |d| == 0 then [(k, v)]
    else if d[0].0 == k then [(k, v)] + d[1..]
    else [d[0]] + Put(d[1..], k, v)
  }

  /** The key order changes only by the appended key. */
  lemma {:induction false} PutKeys<K, V>(d: Dict<K, V>, k: K, v: V)
    ensures k in Keys(d) ==> Keys(Put(d, k, v)) == Keys(d)
    ensures k !in Keys(d) ==> Keys(Put(d, k, v)) == Keys(d) + [k]
    decreases |d|
  {
    if |d| != 0 && d[0].0 != k {
      var rest := Put(d[1..], k, v);
      PutKeys(d[1..], k, v);
      assert Keys([d[0]] + rest) == [d[0].0] + Keys(rest);
      assert Keys(d) == [d[0].0] + Keys(d[1..]);
    }
  }

  /** After `d[k] = v`, `k` reads `v` and every other key reads what it read before. */
  lemma {:induction false} PutGet<K, V>(d: Dict<K, V>, k: K, v: V, k': K)
    ensures Get(Put(d, k, v), k') == if k' == k then Some(v) else Get(d, k')
    decreases |d|
  {
    if |d| != 0 && d[0].0 != k {
      PutGet(d[1..], k, v, k');
      assert Put(d, k, v)[1..] == Put(d[1..], k, v);
    }
  }

  /** Assignment keeps the keys distinct. */
  lemma PutDistinct<K, V>(d: Dict<K, V>, k: K, v: V)
    requires DistinctKeys(d)
    ensures DistinctKeys(Put(d, k, v))
  {
    var r := Put(d, k, v);
    var ks := Keys(r);
    PutKeys(d, k, v);
    assert forall i :: 0 <= i < |r| ==> r[i].0 == ks[i];
  }

  /** `delete d[k]`: the pairs with other keys, in their order. */
  function Remove<K(==), V>(d: Dict<K, V>, k: K): (r: Dict<K, V>)
    ensures forall i :: 0 <= i < |r| ==> r[i] in d && r[i].0 != k
    ensures forall i :: 0 <= i < |d| && d[i].0 != k ==> d[i] in r
  {
    if |d| == 0 then []
    else
      var rest := Remove(d[1..], k);
      if d[0].0 == k then rest else [d[0]] + rest
  }

  /** After `delete d[k]`, `k` reads `undefined` and every other key reads what it read before. */
  lemma {:induction false} RemoveGet<K, V>(d: Dict<K, V>, k: K, k': K)
    ensures Get(Remove(d, k), k') == if k' == k then None else Get(d, k')
    decreases |d|
  {
    if |d| != 0 {
      RemoveGet(d[1..], k, k');
    }
  }

  /** Removal keeps the keys distinct. */
  lemma {:induction false} RemoveDistinct<K, V>(d: Dict<K, V>, k: K)
    requires DistinctKeys(d)
    ensures DistinctKeys(Remove(d, k))
    decreases |d|
  {
    if |d| != 0 {
      RemoveDistinct(d[1..], k);
      var rest := Remove(d[1..], k);
      if d[0].0 != k {
        forall i | 0 <= i < |rest|
          ensures rest[i].0 != d[0].0
        {
          assert rest[i] in d[1..];
        }
      }
    }
  }

  /** The keys of `ks` that do not occur in `other`, in their order. */
  function KeysNotIn<K(==)>(ks: seq<K>, other: seq<K>): (r: seq<K>)
    ensures forall i :: 0 <= i < |r| ==> r[i] in ks && r[i] !in other
    ensures forall i :: 0 <= i < |ks| && ks[i] !in other ==> ks[i] in r
    ensures |r| <= |ks|
  {
    if |ks| == 0 then []
    else (if ks[0] in other then [] else [ks[0]]) + KeysNotIn(ks[1..], other)
  }

  /** Filtering out `a` and then `b` is filtering out both. */
  lemma {:induction false} KeysNotInTwice<K>(ks: seq<K>, a: seq<K>, b: seq<K>)
    ensures KeysNotIn(KeysNotIn(ks, a), b) == KeysNotIn(ks, a + b)
    decreases |ks|
  {
    if |ks| != 0 {
      KeysNotInTwice(ks[1..], a, b);
      var head := if ks[0] in a then [] else [ks[0]];
      var rest := KeysNotIn(ks[1..], a);
      assert KeysNotIn(ks, a) == head + rest;
      if ks[0] !in a {
        assert (head + rest)[1..] == rest;
      } else {
        assert head + rest == rest;
      }
    }
  }

  /** Filtering against two lists that agree on the filtered keys gives the same keys. */
  lemma {:induction false} KeysNotInAgree<K>(ks: seq<K>, a: seq<K>, b: seq<K>)
    requires forall k :: k in ks ==> (k in a <==> k in b)
    ensures KeysNotIn(ks, a) == KeysNotIn(ks, b)
    decreases |ks|
  {
    if |ks| != 0 {
      assert ks[0] in ks;
      KeysNotInAgree(ks[1..], a, b);
    }
  }

  /** A key that is not filtered anyway may be added to the filter. */
  lemma {:induction false} KeysNotInExtra<K>(ks: seq<K>, other: seq<K>, k: K)
    requires k !in ks
    ensures KeysNotIn(ks, other + [k]) == KeysNotIn(ks, other)
    decreases |ks|
  {
    if |ks| != 0 {
      assert ks[0] in ks;
      KeysNotInExtra(ks[1..], other, k);
    }
  }

  /** Deleting a key leaves every other key in its place in the order. */
  lemma {:induction false} RemoveKeys<K, V>(d: Dict<K, V>, k: K)
    ensures Keys(Remove(d, k)) == KeysNotIn(Keys(d), [k])
    decreases |d|
  {
    if |d| != 0 {
      RemoveKeys(d[1..], k);
      var rest := Remove(d[1..], k);
      assert Keys(d)[1..] == Keys(d[1..]);
      if d[0].0 != k {
        assert Keys([d[0]] + rest) == [d[0].0] + Keys(rest);
      }
    }
  }

  /** `d[k1] = v1; d[k2] = v2; …`, in order. */
  function PutAll<K(==), V>(d: Dict<K, V>, ps: seq<(K, V)>): Dict<K, V>
    decreases |ps|
  {
    if |ps| == 0 then d else PutAll(Put(d, ps[0].0, ps[0].1), ps[1..])
  }

  /** Distinct keys stay distinct without the first pair, and the first key is not among the rest. */
  lemma DistinctTail<K, V>(ps: seq<(K, V)>)
    requires DistinctKeys(ps) && |ps| != 0
    ensures DistinctKeys(ps[1..]) && ps[0].0 !in Keys(ps[1..])
  {
    var rest := ps[1..];
    forall i, j | 0 <= i < j < |rest|
      ensures rest[i].0 != rest[j].0
    {
      assert rest[i] == ps[i + 1] && rest[j] == ps[j + 1];
    }
    forall i | 0 <= i < |rest|
      ensures Keys(rest)[i] != ps[0].0
    {
      assert rest[i] == ps[i + 1];
    }
  }

  /** The first assigned key is new or not; the rest are filtered the same way. */
  lemma KeysNotInStep<K, V>(d: Dict<K, V>, ps: seq<(K, V)>)
    requires |ps| != 0
    ensures ps[0].0 in Keys(d) ==> KeysNotIn(Keys(ps), Keys(d)) == KeysNotIn(Keys(ps[1..]), Keys(d))
    ensures ps[0].0 !in Keys(d) ==> KeysNotIn(Keys(ps), Keys(d)) == [ps[0].0] + KeysNotIn(Keys(ps[1..]), Keys(d))
  {
    var ks := Keys(ps);
    assert ks[0] == ps[0].0 && ks[1..] == Keys(ps[1..]);
    assert [] + KeysNotIn(ks[1..], Keys(d)) == KeysNotIn(ks[1..], Keys(d));
  }

  lemma AppendAssociative<T>(a: seq<T>, b: seq<T>, c: seq<T>)
    ensures (a + b) + c == a + (b + c)
  {
  }

  /** A run of assignments to distinct keys keeps the old keys in place and appends the new ones
      in assignment order. */
  lemma {:induction false} PutAllKeys<K, V>(d: Dict<K, V>, ps: seq<(K, V)>)
    requires DistinctKeys(ps)
    ensures Keys(PutAll(d, ps)) == Keys(d) + KeysNotIn(Keys(ps), Keys(d))
    decreases |ps|
  {
    if |ps| != 0 {
      var k := ps[0].0;
      var rest := ps[1..];
      var d1 := Put(d, k, ps[0].1);
      var tail := KeysNotIn(Keys(rest), Keys(d));
      assert Keys(PutAll(d, ps)) == Keys(d1) + KeysNotIn(Keys(rest), Keys(d1)) by {
        DistinctTail(ps);
        PutAllKeys(d1, rest);
        assert PutAll(d, ps) == PutAll(d1, rest);
      }
      if k in Keys(d) {
        assert Keys(d1) == Keys(d) by {
          PutKeys(d, k, ps[0].1);
        }
        assert KeysNotIn(Keys(ps), Keys(d)) == tail by {
          KeysNotInStep(d, ps);
        }
      } else {
        assert Keys(d1) == Keys(d) + [k] by {
          PutKeys(d, k, ps[0].1);
        }
        assert KeysNotIn(Keys(rest), Keys(d1)) == tail by {
          DistinctTail(ps);
          KeysNotInExtra(Keys(rest), Keys(d), k);
        }
        assert KeysNotIn(Keys(ps), Keys(d)) == [k] + tail by {
          KeysNotInStep(d, ps);
        }
        AppendAssociative(Keys(d), [k], tail);
      }
    }
  }
}
