/** Python dicts as the class-schedule checker uses them: an item list in
    insertion order with distinct keys. Assigning to an existing key keeps
    its place; `d[k] += x` on a `defaultdict(int)` starts from 0. */
module PyDict {
  import opened Wrappers

  ghost predicate DistinctKeys<K(!new), V>(d: seq<(K, V)>)
  {
    |d| == 0 || (d[0].0 !in Keys(d[1..]) && DistinctKeys(d[1..]))
  }

  ghost function Keys<K(!new), V>(d: seq<(K, V)>): set<K>
  {
    if |d| == 0 then {} else {d[0].0} + Keys(d[1..])
  }

  /** `d.get(k)`: the value of the first item with key `k`. */
  function Get<K(==,!new), V>(d: seq<(K, V)>, k: K): (r: Option<V>)
    ensures r.Some? <==> k in Keys(d)
  {
    if |d| == 0 then None
    else if d[0].0 == k then Some(d[0].1)
    else Get(d[1..], k)
  }

  /** With distinct keys, every item is what `get` finds for its key. */
  lemma GetItem<K(!new), V>(d: seq<(K, V)>, i: int)
    requires DistinctKeys(d) && 0 <= i < |d|
    ensures Get(d, d[i].0) == Some(d[i].1)
  {
    if i > 0 {
      assert d[1..][i - 1] == d[i];
      KeysIndex(d[1..], d[i].0);
      GetItem(d[1..], i - 1);
    }
  }

  /** `d[k] = v`: an existing item is replaced where it stands, a new key is
      appended. */
  function Put<K(==,!new), V>(d: seq<(K, V)>, k: K, v: V): (r: seq<(K, V)>)
    ensures (forall i :: 0 <= i < |d| ==> d[i].0 != k) ==> r == d + [(k, v)]
  {
    if |d| == 0 then [(k, v)]
    else if d[0].0 == k then [(k, v)] + d[1..]
    else
      var rest := Put(d[1..], k, v);
      assert (forall i :: 0 <= i < |d| ==> d[i].0 != k) ==> rest == d[1..] + [(k, v)] by {
        if forall i :: 0 <= i < |d| ==> d[i].0 != k {
          forall i | 0 <= i < |d[1..]| ensures d[1..][i].0 != k {
            assert d[1..][i] == d[i + 1];
          }
        }
      }
      assert [d[0]] + (d[1..] + [(k, v)]) == d + [(k, v)];
      [d[0]] + rest
  }

  /** After `d[k] = v`, `k` maps to `v`, every other key to what it did. */
  lemma {:induction false} PutGet<K(!new), V>(d: seq<(K, V)>, k: K, v: V)
    ensures Get(Put(d, k, v), k) == Some(v)
    ensures forall k' :: k' != k ==> Get(Put(d, k, v), k') == Get(d, k')
  {
    if |d| > 0 && d[0].0 != k {
      PutGet(d[1..], k, v);
      assert Put(d, k, v)[1..] == Put(d[1..], k, v);
    }
  }

  lemma {:induction false} PutKeys<K(!new), V>(d: seq<(K, V)>, k: K, v: V)
    ensures Keys(Put(d, k, v)) == Keys(d) + {k}
    ensures DistinctKeys(d) ==> DistinctKeys(Put(d, k, v))
  {
    if |d| > 0 {
      if d[0].0 == k {
        assert Put(d, k, v)[1..] == d[1..];
      } else {
        PutKeys(d[1..], k, v);
        assert Put(d, k, v)[1..] == Put(d[1..], k, v);
      }
    }
  }

  /** `d.get(k, 0)`. */
  function GetOr0<K(==,!new)>(d: seq<(K, int)>, k: K): int
  {
    match Get(d, k)
    case Some(v) => v
    case None => 0
  }

  /** `d[k] += x` on a `defaultdict(int)`. */
  function AddTo<K(==,!new)>(d: seq<(K, int)>, k: K, x: int): (r: seq<(K, int)>)
  {
    Put(d, k, GetOr0(d, k) + x)
  }

  /** `d[k] += x` raises `d.get(k, 0)` by `x` and changes no other key. */
  lemma AddToGet<K(!new)>(d: seq<(K, int)>, k: K, x: int)
    ensures GetOr0(AddTo(d, k, x), k) == GetOr0(d, k) + x
    ensures forall k' :: k' != k ==> GetOr0(AddTo(d, k, x), k') == GetOr0(d, k')
    ensures Keys(AddTo(d, k, x)) == Keys(d) + {k}
    ensures DistinctKeys(d) ==> DistinctKeys(AddTo(d, k, x))
  {
    PutGet(d, k, GetOr0(d, k) + x);
    PutKeys(d, k, GetOr0(d, k) + x);
  }

  /** The sum of `value * weight(key)` over the items. */
  function WSum<K(!new)>(d: seq<(K, int)>, w: K -> int): int
  {
    if |d| == 0 then 0 else d[0].1 * w(d[0].0) + WSum(d[1..], w)
  }

  lemma {:induction false} WSumPut<K(!new)>(d: seq<(K, int)>, k: K, v: int, w: K -> int)
    requires DistinctKeys(d)
    ensures WSum(Put(d, k, v), w) == WSum(d, w) - GetOr0(d, k) * w(k) + v * w(k)
  {
    if |d| > 0 {
      if d[0].0 == k {
        assert Put(d, k, v)[1..] == d[1..];
      } else {
        WSumPut(d[1..], k, v, w);
        assert Put(d, k, v)[1..] == Put(d[1..], k, v);
      }
    }
  }

  /** Adding to one key raises the weighted sum by that amount at its weight. */
  lemma WSumAddTo<K(!new)>(d: seq<(K, int)>, k: K, x: int, w: K -> int)
    requires DistinctKeys(d)
    ensures WSum(AddTo(d, k, x), w) == WSum(d, w) + x * w(k)
  {
    var g, wk := GetOr0(d, k), w(k);
    var v := g + x;
    assert AddTo(d, k, x) == Put(d, k, v);
    WSumPut(d, k, v, w);
    Distribute(g, x, wk);
    assert v * wk == g * wk + x * wk;
  }

  lemma Distribute(a: int, b: int, c: int)
    ensures (a + b) * c == a * c + b * c
  {
  }

  lemma {:induction false} KeysIndex<K(!new), V>(d: seq<(K, V)>, k: K)
    ensures k in Keys(d) <==> exists i :: 0 <= i < |d| && d[i].0 == k
  {
    if |d| > 0 {
      KeysIndex(d[1..], k);
      if k in Keys(d[1..]) {
        var i :| 0 <= i < |d[1..]| && d[1..][i].0 == k;
        assert d[i + 1].0 == k;
      }
      if exists i :: 0 <= i < |d| && d[i].0 == k {
        var i :| 0 <= i < |d| && d[i].0 == k;
        if i > 0 {
          assert d[1..][i - 1].0 == k;
        }
      }
    }
  }

  /** A dict whose `get(k, 0)` is 0 everywhere has weighted sum 0. */
  lemma {:induction false} WSumZero<K(!new)>(d: seq<(K, int)>, w: K -> int)
    requires DistinctKeys(d)
    requires forall k :: GetOr0(d, k) == 0
    ensures WSum(d, w) == 0
  {
    if |d| > 0 {
      GetItem(d, 0);
      assert GetOr0(d, d[0].0) == 0;
      forall k ensures GetOr0(d[1..], k) == 0 {
        assert GetOr0(d, k) == 0;
        if k != d[0].0 {
          assert Get(d, k) == Get(d[1..], k);
        } else {
          assert Get(d[1..], k).None?;
        }
      }
      WSumZero(d[1..], w);
    }
  }

  /** Two dicts with the same `get(k, 0)` for every key have the same
      weighted sum, whatever the order of their items and whichever keys
      they hold with value 0. */
  lemma {:induction false} WSumAgree<K(!new)>(a: seq<(K, int)>, b: seq<(K, int)>, w: K -> int)
    requires DistinctKeys(a) && DistinctKeys(b)
    requires forall k :: GetOr0(a, k) == GetOr0(b, k)
    ensures WSum(a, w) == WSum(b, w)
    decreases |a|
  {
    if |a| == 0 {
      WSumZero(b, w);
    } else {
      var k := a[0].0;
      GetItem(a, 0);
      var b2 := Put(b, k, 0);
      WSumPut(b, k, 0, w);
      PutGet(b, k, 0);
      PutKeys(b, k, 0);
      forall k' ensures GetOr0(a[1..], k') == GetOr0(b2, k') {
        assert GetOr0(a, k') == GetOr0(b, k');
        if k' != k {
          assert Get(a, k') == Get(a[1..], k');
        } else {
          assert Get(a[1..], k).None?;
        }
      }
      WSumAgree(a[1..], b2, w);
    }
  }

  /** Every item holds a positive value. */
  predicate PositiveValues<K>(d: seq<(K, int)>)
  {
    forall i :: 0 <= i < |d| ==> d[i].1 > 0
  }

  /** `d[k] += x` with `x > 0` keeps every value positive. */
  lemma {:induction false} AddToPositive<K(!new)>(d: seq<(K, int)>, k: K, x: int)
    requires PositiveValues(d) && x > 0
    ensures PositiveValues(AddTo(d, k, x))
  {
    var v := GetOr0(d, k) + x;
    assert v > 0 by {
      if Get(d, k).Some? {
        KeysIndex(d, k);
        GetFirst(d, k);
      }
    }
    PutPositive(d, k, v);
  }

  lemma {:induction false} PutPositive<K(!new)>(d: seq<(K, int)>, k: K, v: int)
    requires PositiveValues(d) && v > 0
    ensures PositiveValues(Put(d, k, v))
  {
    if |d| > 0 && d[0].0 != k {
      PutPositive(d[1..], k, v);
      assert Put(d, k, v) == [d[0]] + Put(d[1..], k, v);
    }
  }

  /** What `get` finds is the value of some item. */
  lemma {:induction false} GetFirst<K(!new), V>(d: seq<(K, V)>, k: K)
    requires Get(d, k).Some?
    ensures exists i :: 0 <= i < |d| && d[i] == (k, Get(d, k).value)
  {
    if d[0].0 != k {
      GetFirst(d[1..], k);
      var i :| 0 <= i < |d[1..]| && d[1..][i] == (k, Get(d, k).value);
      assert d[i + 1] == d[1..][i];
    }
  }

  /** The weighted sum depends on the weighting only through its values. */
  lemma {:induction false} WSumExt<K(!new)>(d: seq<(K, int)>, w1: K -> int, w2: K -> int)
    requires forall k :: w1(k) == w2(k)
    ensures WSum(d, w1) == WSum(d, w2)
  {
    if |d| > 0 {
      WSumExt(d[1..], w1, w2);
    }
  }
}
