/** Python's insertion-ordered dictionaries (`dict` and `OrderedDict`) as sequences of items. */
module OrderedDict {
  import opened Results

  type Dict<K(==), V> = seq<(K, V)>

  function Keys<K, V>(d: Dict<K, V>): (ks: seq<K>)
    ensures |ks| == |d| && forall i | 0 <= i < |d| :: ks[i] == d[i].0
  {
    seq(|d|, i requires 0 <= i < |d| => d[i].0)
  }

  predicate Has<K(==), V>(d: Dict<K, V>, k: K) {
    exists i | 0 <= i < |d| :: d[i].0 == k
  }

  predicate Unique<K(==), V>(d: Dict<K, V>) {
    forall i, j | 0 <= i < j < |d| :: d[i].0 != d[j].0
  }

  /** `d.get(k)`. */
  function Get<K(==), V>(d: Dict<K, V>, k: K): (r: Option<V>)
    ensures r.Some? <==> Has(d, k)
    ensures r.Some? ==> exists i | 0 <= i < |d| :: d[i] == (k, r.value)
  {
    if d == [] then None
    else if d[0].0 == k then Some(d[0].1)
    else
      var r := Get(d[1..], k);
      assert r.Some? ==> exists i | 1 <= i < |d| :: d[i] == (k, r.value) by {
        if r.Some? {
          var i :| 0 <= i < |d[1..]| && d[1..][i] == (k, r.value);
          assert d[i + 1] == (k, r.value);
        }
      }
      assert Has(d, k) ==> Has(d[1..], k) by {
        if Has(d, k) {
          var i :| 0 <= i < |d| && d[i].0 == k;
          assert d[1..][i - 1].0 == k;
        }
      }
      r
  }

  /** `d[k] = v`: an existing key keeps its place, a new one goes to the end. */
  function Put<K(==), V>(d: Dict<K, V>, k: K, v: V): (r: Dict<K, V>) {
    if d == [] then [(k, v)]
    else if d[0].0 == k then [(k, v)] + d[1..]
    else [d[0]] + Put(d[1..], k, v)
  }

  /** `d.pop(k, None)`. */
  function Remove<K(==), V>(d: Dict<K, V>, k: K): (r: Dict<K, V>)
    ensures |r| <= |d|
  {
    if d == [] then []
    else if d[0].0 == k then d[1..]
    else [d[0]] + Remove(d[1..], k)
  }

  /** `d.move_to_end(k)`. */
  function MoveToEnd<K(==), V>(d: Dict<K, V>, k: K): (r: Dict<K, V>)
    requires Has(d, k)
  {
    Remove(d, k) + [(k, Get(d, k).value)]
  }

  // ----- laws -----

  /** A dictionary with pairwise different keys holds exactly the items `Get` finds. */
  lemma {:induction false} GetAt<K, V>(d: Dict<K, V>, i: nat)
    requires Unique(d) && i < |d|
    ensures Get(d, d[i].0) == Some(d[i].1)
  {
    assert Has(d, d[i].0);
    var v := Get(d, d[i].0).value;
    var j :| 0 <= j < |d| && d[j] == (d[i].0, v);
    assert i == j;
  }

  /** A key that is there keeps its place and gets the value; every other item stays; a new key comes last. */
  lemma {:induction false} PutExactly<K, V>(d: Dict<K, V>, k: K, v: V)
    requires Unique(d)
    ensures var r := Put(d, k, v);
            && |r| == |d| + (if Has(d, k) then 0 else 1)
            && (forall i | 0 <= i < |d| :: r[i] == (d[i].0, if d[i].0 == k then v else d[i].1))
            && (|r| > |d| ==> r[|d|] == (k, v))
  {
    if d != [] && d[0].0 != k {
      PutExactly(d[1..], k, v);
      assert forall i | 0 < i < |d| :: d[i] == d[1..][i - 1];
      assert Has(d, k) <==> Has(d[1..], k) by {
        if Has(d[1..], k) {
          var i :| 0 <= i < |d[1..]| && d[1..][i].0 == k;
          assert d[i + 1].0 == k;
        }
      }
    }
  }

  lemma {:induction false} PutAbsent<K, V>(d: Dict<K, V>, k: K, v: V)
    requires !Has(d, k)
    ensures Put(d, k, v) == d + [(k, v)]
  {
    if d != [] {
      assert d[0].0 != k;
      forall i | 0 <= i < |d[1..]| ensures d[1..][i].0 != k { assert d[i + 1].0 != k; }
      PutAbsent(d[1..], k, v);
    }
  }

  lemma {:induction false} PutLookup<K, V>(d: Dict<K, V>, k: K, v: V, k': K)
    ensures Get(Put(d, k, v), k') == if k' == k then Some(v) else Get(d, k')
  {
    if d != [] {
      PutLookup(d[1..], k, v, k');
      assert Put(d, k, v)[1..] == if d[0].0 == k then d[1..] else Put(d[1..], k, v);
    }
  }

  lemma {:induction false} PutUnique<K, V>(d: Dict<K, V>, k: K, v: V)
    requires Unique(d)
    ensures Unique(Put(d, k, v))
  {
    if d != [] && d[0].0 != k {
      PutUnique(d[1..], k, v);
      var r := Put(d[1..], k, v);
      assert !Has(d[1..], d[0].0);
      forall i | 0 <= i < |r| ensures r[i].0 != d[0].0 {
        PutLookup(d[1..], k, v, r[i].0);
        assert Has(r, r[i].0);
      }
    }
  }

  /** Removing a key: where it sat, and what is left. */
  lemma {:induction false} RemoveAt<K, V>(d: Dict<K, V>, i: nat)
    requires Unique(d) && i < |d|
    ensures Remove(d, d[i].0) == d[..i] + d[i + 1..]
  {
    if i > 0 {
      assert d[0].0 != d[i].0;
      assert d[1..][i - 1] == d[i];
      RemoveAt(d[1..], i - 1);
      assert d[1..][..i - 1] == d[1..i] && d[1..][i..] == d[i + 1..];
      assert [d[0]] + (d[1..i] + d[i + 1..]) == d[..i] + d[i + 1..];
    }
  }

  lemma {:induction false} RemoveAbsent<K, V>(d: Dict<K, V>, k: K)
    requires !Has(d, k)
    ensures Remove(d, k) == d
  {
    if d != [] {
      assert d[0].0 != k;
      forall i | 0 <= i < |d[1..]| ensures d[1..][i].0 != k { assert d[i + 1].0 != k; }
      RemoveAbsent(d[1..], k);
    }
  }

  lemma {:induction false} RemoveLookup<K, V>(d: Dict<K, V>, k: K, k': K)
    requires Unique(d)
    ensures Get(Remove(d, k), k') == if k' == k then None else Get(d, k')
  {
    if d != [] {
      if d[0].0 == k {
        assert !Has(d[1..], k);
      } else {
        RemoveLookup(d[1..], k, k');
        assert Remove(d, k)[1..] == Remove(d[1..], k);
      }
    }
  }

  lemma SkipUnique<K, V>(d: Dict<K, V>, i: nat)
    requires Unique(d) && i < |d|
    ensures var r := d[..i] + d[i + 1..];
            Unique(r) && forall e | e in r :: e in d && e.0 != d[i].0
  {
  }

  lemma {:induction false} RemoveUnique<K, V>(d: Dict<K, V>, k: K)
    requires Unique(d)
    ensures Unique(Remove(d, k)) && !Has(Remove(d, k), k)
    ensures forall e | e in Remove(d, k) :: e in d
    ensures |Remove(d, k)| == if Has(d, k) then |d| - 1 else |d|
  {
    if Has(d, k) {
      var i :| 0 <= i < |d| && d[i].0 == k;
      RemoveAt(d, i);
      SkipUnique(d, i);
      assert forall j | 0 <= j < |Remove(d, k)| :: Remove(d, k)[j] in Remove(d, k);
    } else {
      RemoveAbsent(d, k);
    }
  }

  /** `d[k] = v; d.move_to_end(k)`: whatever was under the key is gone and the new item is last. */
  lemma PutLast<K, V>(d: Dict<K, V>, k: K, v: V)
    requires Unique(d)
    ensures Has(Put(d, k, v), k)
    ensures MoveToEnd(Put(d, k, v), k) == Remove(d, k) + [(k, v)]
    ensures Unique(MoveToEnd(Put(d, k, v), k))
  {
    PutLookup(d, k, v, k);
    RemovePut(d, k, v);
    RemoveUnique(d, k);
    AppendUnique(Remove(d, k), k, v);
  }

  lemma {:induction false} RemovePut<K, V>(d: Dict<K, V>, k: K, v: V)
    requires Unique(d)
    ensures Remove(Put(d, k, v), k) == Remove(d, k)
  {
    if d != [] {
      if d[0].0 == k {
        assert Put(d, k, v)[1..] == d[1..];
      } else {
        RemovePut(d[1..], k, v);
        assert Put(d, k, v)[1..] == Put(d[1..], k, v);
      }
    }
  }

  lemma AppendUnique<K, V>(d: Dict<K, V>, k: K, v: V)
    requires Unique(d) && !Has(d, k)
    ensures Unique(d + [(k, v)])
  {
  }

  /** The items that are left after `while len(d) > n: d.popitem(last=False)`. */
  function KeepLast<K, V>(d: Dict<K, V>, n: nat): (r: Dict<K, V>)
    ensures |r| <= n
  {
    if |d| > n then d[|d| - n..] else d
  }
}
