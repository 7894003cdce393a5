/** Half-open hour intervals `[start, end)` as the class-schedule checker
    handles them, and the stable sort Python's `list.sort` performs on
    them. */
module Intervals {
  type Interval = (int, int)

  function Duration(iv: Interval): int
  {
    iv.1 - iv.0
  }

  /** `start < end`: the interval lasts at least one hour. */
  predicate Positive(iv: Interval)
  {
    iv.0 < iv.1
  }

  function Max(a: int, b: int): int
  {
    if a >= b then a else b
  }

  function Min(a: int, b: int): int
  {
    if a <= b then a else b
  }

  /** `max(s1, s2) < min(e1, e2)`: the two intervals share an hour. */
  predicate Intersect(a: Interval, b: Interval)
  {
    Max(a.0, b.0) < Min(a.1, b.1)
  }

  /** The summed durations of a list of intervals. */
  function SumDur(s: seq<Interval>): int
  {
    if |s| == 0 then 0 else Duration(s[0]) + SumDur(s[1..])
  }

  lemma {:induction false} SumDurSnoc(s: seq<Interval>, x: Interval)
    ensures SumDur(s + [x]) == SumDur(s) + Duration(x)
  {
    if |s| > 0 {
      assert (s + [x])[1..] == s[1..] + [x];
      SumDurSnoc(s[1..], x);
    }
  }

  /** The two sort orders the checker uses: by start alone
      (`key=lambda x: x[0]`), and by `(start, -duration, end)`, which puts
      the longest interval first among those with the same start. */
  datatype Order = ByStart | ByStartLongestFirst

  /** `a` sorts strictly before `b`. */
  predicate Before(o: Order, a: Interval, b: Interval)
  {
    a.0 < b.0 || (o == ByStartLongestFirst && a.0 == b.0 && a.1 > b.1)
  }

  /** No element sorts strictly before the one in front of it. */
  predicate Sorted(o: Order, s: seq<Interval>)
  {
    forall k :: 0 < k < |s| ==> !Before(o, s[k], s[k - 1])
  }

  /** Neither sorts strictly before the other: the same start for
      `ByStart`, the same interval for `ByStartLongestFirst`. */
  predicate Tied(o: Order, a: Interval, b: Interval)
  {
    !Before(o, a, b) && !Before(o, b, a)
  }

  /** `[y]` when `y` is tied with `x`, else nothing. */
  function TieOf(o: Order, y: Interval, x: Interval): seq<Interval>
  {
    if Tied(o, y, x) then [y] else []
  }

  /** The elements of `s` tied with `x`, in their order in `s`. */
  function Ties(o: Order, s: seq<Interval>, x: Interval): seq<Interval>
  {
    if |s| == 0 then []
    else TieOf(o, s[0], x) + Ties(o, s[1..], x)
  }

  lemma TiesCons(o: Order, a: Interval, t: seq<Interval>, x: Interval)
    ensures Ties(o, [a] + t, x) == TieOf(o, a, x) + Ties(o, t, x)
  {
    assert ([a] + t)[0] == a && ([a] + t)[1..] == t;
  }

  /** In a sorted list no element sorts strictly before an earlier one. */
  lemma {:induction false} SortedPairs(o: Order, s: seq<Interval>, i: int, j: int)
    requires Sorted(o, s) && 0 <= i <= j < |s|
    ensures !Before(o, s[j], s[i])
    decreases j - i
  {
    if i < j {
      SortedPairs(o, s, i, j - 1);
      assert !Before(o, s[j], s[j - 1]);
    }
  }

  /** Every element of a sorted list sorts strictly after `y` once its
      first element does, so none of them is tied with an `x` tied with `y`. */
  lemma {:induction false} NoTiesAfter(o: Order, y: Interval, s: seq<Interval>, x: Interval)
    requires Sorted(o, s) && |s| > 0 && Before(o, y, s[0]) && Tied(o, y, x)
    ensures Ties(o, s, x) == []
    decreases |s|
  {
    assert !Tied(o, s[0], x);
    if |s| > 1 {
      SortedPairs(o, s, 0, 1);
      SortedTail(o, s);
      NoTiesAfter(o, y, s[1..], x);
    }
  }

  /** Inserts `x` after every element that does not sort strictly after
      it, which keeps equal elements in their arrival order. */
  function Insert(o: Order, x: Interval, s: seq<Interval>): (r: seq<Interval>)
    ensures |r| == |s| + 1 && multiset(r) == multiset(s) + multiset{x}
    ensures r[0] == x || (|s| > 0 && r[0] == s[0])
    ensures Sorted(o, s) ==> Sorted(o, r)
  {
    if |s| == 0 || Before(o, x, s[0]) then [x] + s
    else
      var rest := Insert(o, x, s[1..]);
      assert s == [s[0]] + s[1..];
      assert Sorted(o, s) ==> Sorted(o, [s[0]] + rest) by {
        if Sorted(o, s) {
          SortedTail(o, s);
          var r := [s[0]] + rest;
          forall k | 0 < k < |r| ensures !Before(o, r[k], r[k - 1]) {
            if k > 1 {
              assert r[k] == rest[k - 1] && r[k - 1] == rest[k - 2];
            }
          }
        }
      }
      [s[0]] + rest
  }

  /** Inserting `y` into a sorted list puts it after every element it is
      tied with. */
  lemma {:induction false} InsertTies(o: Order, y: Interval, s: seq<Interval>, x: Interval)
    requires Sorted(o, s)
    ensures Ties(o, Insert(o, y, s), x) == Ties(o, s, x) + TieOf(o, y, x)
    decreases |s|
  {
    if |s| == 0 {
      TiesCons(o, y, [], x);
    } else if Before(o, y, s[0]) {
      TiesCons(o, y, s, x);
      if Tied(o, y, x) {
        NoTiesAfter(o, y, s, x);
      }
    } else {
      SortedTail(o, s);
      InsertTies(o, y, s[1..], x);
      InsertStep(o, y, s);
      TiesCons(o, s[0], Insert(o, y, s[1..]), x);
      TiesHead(o, s, x);
      Regroup(TieOf(o, s[0], x), Ties(o, s[1..], x), TieOf(o, y, x));
    }
  }

  lemma TiesHead(o: Order, s: seq<Interval>, x: Interval)
    requires |s| > 0
    ensures Ties(o, s, x) == TieOf(o, s[0], x) + Ties(o, s[1..], x)
  {
  }

  lemma InsertStep(o: Order, y: Interval, s: seq<Interval>)
    requires |s| > 0 && !Before(o, y, s[0])
    ensures Insert(o, y, s) == [s[0]] + Insert(o, y, s[1..])
  {
  }

  lemma SortedTail(o: Order, s: seq<Interval>)
    requires Sorted(o, s) && |s| > 0
    ensures Sorted(o, s[1..])
  {
    forall k | 0 < k < |s[1..]| ensures !Before(o, s[1..][k], s[1..][k - 1]) {
      assert s[1..][k] == s[k + 1] && s[1..][k - 1] == s[k];
    }
  }

  lemma Regroup(a: seq<Interval>, b: seq<Interval>, c: seq<Interval>)
    ensures a + (b + c) == (a + b) + c
  {
  }

  lemma {:induction false} InsertSum(o: Order, x: Interval, s: seq<Interval>)
    ensures SumDur(Insert(o, x, s)) == Duration(x) + SumDur(s)
  {
    if |s| > 0 && !Before(o, x, s[0]) {
      InsertSum(o, x, s[1..]);
    }
  }

  /** Stable insertion sort: the elements of `s` inserted one after the
      other, in order, into the already sorted `acc`. */
  function SortInto(o: Order, s: seq<Interval>, acc: seq<Interval>): (r: seq<Interval>)
    ensures multiset(r) == multiset(s) + multiset(acc)
    ensures Sorted(o, acc) ==> Sorted(o, r)
  {
    if |s| == 0 then acc
    else
      assert s == [s[0]] + s[1..];
      SortInto(o, s[1..], Insert(o, s[0], acc))
  }

  /** Inserting the elements of `s` one by one after those of a sorted
      `acc` keeps every group of tied elements in its arrival order. */
  lemma {:induction false} SortIntoTies(o: Order, s: seq<Interval>, acc: seq<Interval>, x: Interval)
    requires Sorted(o, acc)
    ensures Ties(o, SortInto(o, s, acc), x) == Ties(o, acc, x) + Ties(o, s, x)
    decreases |s|
  {
    if |s| > 0 {
      var next := Insert(o, s[0], acc);
      InsertTies(o, s[0], acc, x);
      SortIntoTies(o, s[1..], next, x);
      SortIntoStep(o, s, acc);
      TiesHead(o, s, x);
      Regroup(Ties(o, acc, x), TieOf(o, s[0], x), Ties(o, s[1..], x));
    }
  }

  lemma SortIntoStep(o: Order, s: seq<Interval>, acc: seq<Interval>)
    requires |s| > 0
    ensures SortInto(o, s, acc) == SortInto(o, s[1..], Insert(o, s[0], acc))
  {
  }

  /** `sorted(s)`: a sorted permutation of `s` that is stable, as Python's
      sort is: elements tied under the order keep their relative order. */
  function Sort(o: Order, s: seq<Interval>): (r: seq<Interval>)
    ensures multiset(r) == multiset(s) && Sorted(o, r)
    ensures forall x :: Ties(o, r, x) == Ties(o, s, x)
  {
    var r := SortInto(o, s, []);
    assert forall x :: Ties(o, r, x) == Ties(o, s, x) by {
      forall x ensures Ties(o, r, x) == Ties(o, s, x) {
        SortIntoTies(o, s, [], x);
        assert [] + Ties(o, s, x) == Ties(o, s, x);
      }
    }
    r
  }

  lemma {:induction false} SortIntoSum(o: Order, s: seq<Interval>, acc: seq<Interval>)
    ensures SumDur(SortInto(o, s, acc)) == SumDur(s) + SumDur(acc)
  {
    if |s| > 0 {
      InsertSum(o, s[0], acc);
      SortIntoSum(o, s[1..], Insert(o, s[0], acc));
    }
  }

  /** Sorting keeps the summed durations. */
  lemma SortSum(o: Order, s: seq<Interval>)
    ensures SumDur(Sort(o, s)) == SumDur(s)
  {
    SortIntoSum(o, s, []);
  }

  /** In a sorted list the starts never decrease, between any two places. */
  lemma {:induction false} SortedStarts(o: Order, s: seq<Interval>, i: int, j: int)
    requires Sorted(o, s) && 0 <= i <= j < |s|
    ensures s[i].0 <= s[j].0
    decreases j - i
  {
    if i < j {
      SortedStarts(o, s, i, j - 1);
      assert !Before(o, s[j], s[j - 1]);
    }
  }
}
