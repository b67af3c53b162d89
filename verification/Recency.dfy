/** An insertion-ordered dictionary as a recency list: which keys are newer than a given one. */
module Recency {
  import opened OrderedDict

  ghost function Names<V>(d: Dict<string, V>): (names: set<string>)
    ensures forall k :: k in names <==> Has(d, k)
  {
    set i | 0 <= i < |d| :: d[i].0
  }

  lemma SubsetSize(s: set<string>, t: set<string>)
    requires s <= t
    ensures |s| <= |t|
  {
    assert t == s + (t - s);
  }

  /** `k` sits at position `i`, and exactly the keys in `above` come behind it. */
  ghost predicate SitsBelow<V>(d: Dict<string, V>, i: nat, k: string, above: set<string>) {
    i < |d| && d[i].0 == k && Names(d[i + 1..]) == above
  }

  ghost predicate Below<V>(d: Dict<string, V>, k: string, above: set<string>) {
    exists i: nat :: SitsBelow(d, i, k, above)
  }

  lemma BelowHas<V>(d: Dict<string, V>, k: string, above: set<string>)
    requires Below(d, k, above)
    ensures Has(d, k)
  {
  }

  lemma NamesCons<V>(d: Dict<string, V>)
    requires d != []
    ensures Names(d) == Names(d[1..]) + {d[0].0}
    ensures Unique(d) ==> Unique(d[1..]) && d[0].0 !in Names(d[1..])
  {
    forall k | k in Names(d) ensures k in Names(d[1..]) + {d[0].0} {
      var i :| 0 <= i < |d| && d[i].0 == k;
      if i > 0 { assert d[1..][i - 1].0 == k; }
    }
  }

  lemma {:induction false} NamesSize<V>(d: Dict<string, V>)
    requires Unique(d)
    ensures |Names(d)| == |d|
  {
    if d != [] {
      NamesCons(d);
      NamesSize(d[1..]);
    }
  }

  /** A duplicate-free list has a key at the place its number of newer keys says. */
  lemma Position<V>(d: Dict<string, V>, i: nat, k: string, above: set<string>)
    requires Unique(d) && SitsBelow(d, i, k, above)
    ensures |above| == |d| - i - 1
  {
    NamesSize(d[i + 1..]);
  }

  lemma NamesAppend<V>(d: Dict<string, V>, k: string, v: V)
    ensures Names(d + [(k, v)]) == Names(d) + {k}
  {
    var r := d + [(k, v)];
    assert forall i | 0 <= i < |d| :: r[i] == d[i];
    assert r[|d|].0 == k;
  }

  lemma NamesSkip<V>(d: Dict<string, V>, i: nat)
    requires Unique(d) && i < |d|
    ensures Names(d[..i] + d[i + 1..]) == Names(d) - {d[i].0}
  {
    var r := d[..i] + d[i + 1..];
    forall k | k in Names(d) - {d[i].0} ensures k in Names(r) {
      var j :| 0 <= j < |d| && d[j].0 == k;
      assert r[if j < i then j else j - 1] == d[j];
    }
  }

  /** The key that is used goes to the end, and nothing is newer. */
  lemma UseSelf<V>(d: Dict<string, V>, k: string, v: V)
    ensures Below(d + [(k, v)], k, {})
  {
    assert SitsBelow(d + [(k, v)], |d|, k, {});
  }

  /** Another key that is used becomes one of the newer ones. */
  lemma UseOther<V>(d: Dict<string, V>, k: string, above: set<string>, other: string, v: V)
    requires Unique(d) && Below(d, k, above) && other != k
    ensures Below(Remove(d, other) + [(other, v)], k, above + {other})
  {
    DropOther(d, k, above, other);
    var r := Remove(d, other);
    var i: nat :| SitsBelow(r, i, k, above - {other});
    NamesAppend(r[i + 1..], other, v);
    assert (r + [(other, v)])[i + 1..] == r[i + 1..] + [(other, v)];
    assert above - {other} + {other} == above + {other};
    assert SitsBelow(r + [(other, v)], i, k, above + {other});
  }

  /** Another key that is removed is no longer among them. */
  lemma DropOther<V>(d: Dict<string, V>, k: string, above: set<string>, other: string)
    requires Unique(d) && Below(d, k, above) && other != k
    ensures Below(Remove(d, other), k, above - {other})
  {
    var i: nat :| SitsBelow(d, i, k, above);
    if Has(d, other) {
      var j: nat :| j < |d| && d[j].0 == other;
      RemoveAt(d, j);
      if j < i {
        DropOlder(d, i, j, k, above);
      } else {
        DropNewer(d, i, j, k, above);
      }
    } else {
      RemoveAbsent(d, other);
      assert other !in above by { NewerIsThere(d, i, k, above, other); }
      assert above - {other} == above;
    }
  }

  lemma NewerIsThere<V>(d: Dict<string, V>, i: nat, k: string, above: set<string>, other: string)
    requires SitsBelow(d, i, k, above)
    ensures other in above ==> Has(d, other)
  {
    if other in above {
      var j :| 0 <= j < |d[i + 1..]| && d[i + 1..][j].0 == other;
      assert d[i + 1 + j].0 == other;
    }
  }

  lemma DropOlder<V>(d: Dict<string, V>, i: nat, j: nat, k: string, above: set<string>)
    requires Unique(d) && SitsBelow(d, i, k, above) && j < i
    ensures Below(d[..j] + d[j + 1..], k, above - {d[j].0})
  {
    var r := d[..j] + d[j + 1..];
    assert r[i..] == d[i + 1..];
    assert d[j].0 !in above;
    assert above - {d[j].0} == above;
    assert SitsBelow(r, i - 1, k, above);
  }

  lemma DropNewer<V>(d: Dict<string, V>, i: nat, j: nat, k: string, above: set<string>)
    requires Unique(d) && SitsBelow(d, i, k, above) && i < j < |d|
    ensures Below(d[..j] + d[j + 1..], k, above - {d[j].0})
  {
    var r, newer := d[..j] + d[j + 1..], d[i + 1..];
    NamesSkip(newer, j - i - 1);
    assert r[i + 1..] == newer[..j - i - 1] + newer[j - i..];
    assert SitsBelow(r, i, k, above - {d[j].0});
  }

  /** Trimming a list that is one too long at most: the key stays exactly if fewer than `max` others are newer. */
  lemma Trim<V>(d: Dict<string, V>, k: string, above: set<string>, max: nat)
    requires Unique(d) && |d| <= max + 1 && Below(d, k, above)
    ensures if |above| < max then Below(KeepLast(d, max), k, above) else !Has(KeepLast(d, max), k)
  {
    var i: nat :| SitsBelow(d, i, k, above);
    Position(d, i, k, above);
    var r := KeepLast(d, max);
    if |d| > max {
      if |above| < max {
        assert r[i..] == d[i + 1..];
        assert SitsBelow(r, i - 1, k, above);
      } else {
        assert i == 0;
      }
    }
  }

  /** Everything but the key itself may be newer, so a list within its limit has fewer than `max` newer keys. */
  lemma FewAbove<V>(d: Dict<string, V>, k: string, above: set<string>)
    requires Unique(d) && Below(d, k, above)
    ensures |above| < |d|
  {
    var i: nat :| SitsBelow(d, i, k, above);
    Position(d, i, k, above);
  }
}
