/** The scoring of the class-schedule checker (validators/unicode25.py):
    `calculate_score`, a greedy walk per student and day over the
    classes the student can attend, and `calculate_theoretical_max`. */
module Unicode25Score {
  import opened PyDict
  import opened Intervals
  import opened Unicode25Parse
  import opened Unicode25Rules

  /** The subjects each student is enrolled in; the student ids play no
      part in the score. */
  type Enrollments = seq<set<int>>

  /** `available_classes`: the day's classes of an enrolled subject with
      positive duration, as intervals, in the order of the schedule. */
  function Available(cs: seq<Class>, enrolled: set<int>): seq<Interval>
  {
    if |cs| == 0 then []
    else (if cs[0].subject in enrolled && cs[0].start < cs[0].end then [Span(cs[0])] else []) + Available(cs[1..], enrolled)
  }

  /** The classes the walk attends, given the end of the last one: a class
      that starts before it is skipped, any other is attended. */
  function Pick(iv: seq<Interval>, lastEnd: int): seq<Interval>
  {
    if |iv| == 0 then []
    else if iv[0].0 < lastEnd then Pick(iv[1..], lastEnd)
    else [iv[0]] + Pick(iv[1..], iv[0].1)
  }

  /** `student_day_hours`: the classes sorted by start and then longest
      first (the tuple sort on `(start, -duration, end)`), walked from
      `last_class_end_time = 0`. */
  function DayScore(cs: seq<Class>, enrolled: set<int>): int
  {
    SumDur(Pick(Sort(ByStartLongestFirst, Available(cs, enrolled)), 0))
  }

  function StudentScore(s: Schedule, enrolled: set<int>): int
  {
    if |s| == 0 then 0 else DayScore(s[0].1, enrolled) + StudentScore(s[1..], enrolled)
  }

  /** `calculate_score`. */
  function Score(students: Enrollments, s: Schedule): int
  {
    if |students| == 0 then 0 else StudentScore(s, students[0]) + Score(students[1..], s)
  }

  /** The inner loops of `calculate_score` for one student and day, over
      the sorted available classes: a class starting before the last end is
      skipped; otherwise the first class of the group that starts then is
      attended and the rest of the group is passed over. */
  method DayHoursLoop(iv: seq<Interval>) returns (hours: int)
    ensures AllPositive(iv) ==> hours == SumDur(Pick(iv, 0))
  {
    hours := 0;
    var last := 0;
    var i := 0;
    while i < |iv|
      invariant 0 <= i <= |iv|
      invariant AllPositive(iv) ==> hours + SumDur(Pick(iv[i..], last)) == SumDur(Pick(iv, 0))
    {
      var t := iv[i].0;
      if t < last {
        assert iv[i..][1..] == iv[i + 1..];
        i := i + 1;
      } else {
        var g := i;
        var chosen := iv[g];
        assert iv[g..][1..] == iv[g + 1..];
        i := i + 1;
        while i < |iv| && iv[i].0 == t
          invariant g < i <= |iv|
          invariant AllPositive(iv) ==> Pick(iv[i..], chosen.1) == Pick(iv[g + 1..], chosen.1)
        {
          assert iv[i..][1..] == iv[i + 1..];
          assert AllPositive(iv) ==> Positive(iv[g]);
          i := i + 1;
        }
        hours := hours + Duration(chosen);
        last := chosen.1;
      }
    }
    assert iv[i..] == [];
  }

  /* ---------------------------------------------------------------
     The attended classes
     --------------------------------------------------------------- */

  /** The walk attends classes of the list only, each starting no earlier
      than the one before it ends. */
  lemma {:induction false} PickChain(iv: seq<Interval>, lastEnd: int)
    ensures forall x :: x in Pick(iv, lastEnd) ==> x in iv
    ensures forall k :: 0 < k < |Pick(iv, lastEnd)| ==> Pick(iv, lastEnd)[k - 1].1 <= Pick(iv, lastEnd)[k].0
  {
    if |iv| > 0 {
      assert forall x :: x in iv[1..] ==> x in iv;
      if iv[0].0 < lastEnd {
        PickChain(iv[1..], lastEnd);
      } else {
        PickChain(iv[1..], iv[0].1);
        PickFrom(iv[1..], iv[0].1);
        var rest := Pick(iv[1..], iv[0].1);
        assert Pick(iv, lastEnd) == [iv[0]] + rest;
        assert |rest| > 0 ==> rest[0] in rest;
      }
    }
  }

  /** No attended class starts before the last end. */
  lemma {:induction false} PickFrom(iv: seq<Interval>, lastEnd: int)
    ensures forall k :: 0 <= k < |Pick(iv, lastEnd)| ==> Pick(iv, lastEnd)[k].0 >= lastEnd || k > 0
  {
    if |iv| > 0 && iv[0].0 < lastEnd {
      PickFrom(iv[1..], lastEnd);
    }
  }

  /** With classes of positive duration no attended class starts before
      the last end. */
  lemma {:induction false} PickAfter(iv: seq<Interval>, lastEnd: int)
    requires AllPositive(iv)
    ensures forall x :: x in Pick(iv, lastEnd) ==> x.0 >= lastEnd
  {
    if |iv| > 0 {
      var rest := iv[1..];
      assert AllPositive(rest) by {
        assert forall k :: 0 <= k < |rest| ==> rest[k] == iv[k + 1];
      }
      if iv[0].0 < lastEnd {
        PickAfter(rest, lastEnd);
      } else {
        PickAfter(rest, iv[0].1);
        assert Positive(iv[0]);
      }
    }
  }

  /** With classes of positive duration, no two attended classes share an
      hour. */
  lemma PickDisjoint(iv: seq<Interval>, lastEnd: int)
    requires AllPositive(iv)
    ensures PairwiseDisjoint(Pick(iv, lastEnd))
  {
    var chosen := Pick(iv, lastEnd);
    PickChain(iv, lastEnd);
    forall k | 0 <= k < |chosen| ensures Positive(chosen[k]) {
      assert chosen[k] in iv;
    }
    forall a, b | 0 <= a < b < |chosen| ensures !Intersect(chosen[a], chosen[b]) {
      EndsBeforeLater(chosen, a, b);
    }
  }

  /** In a sorted list nothing sorts before an earlier element. */
  lemma {:induction false} SortedPairs(o: Order, s: seq<Interval>, i: int, j: int)
    requires Sorted(o, s) && 0 <= i < j < |s|
    ensures !Before(o, s[j], s[i])
    decreases j - i
  {
    if i + 1 < j {
      SortedPairs(o, s, i, j - 1);
      assert !Before(o, s[j], s[j - 1]);
    }
  }

  /** Among classes with the same start the walk attends the longest: no
      class of the list starts with an attended class and ends later. */
  lemma {:induction false} PickLongest(iv: seq<Interval>, lastEnd: int, x: Interval, y: Interval)
    requires Sorted(ByStartLongestFirst, iv) && AllPositive(iv)
    requires x in Pick(iv, lastEnd) && y in iv && y.0 == x.0
    ensures y.1 <= x.1
  {
    var rest := iv[1..];
    assert Sorted(ByStartLongestFirst, rest) && AllPositive(rest) by {
      assert forall k :: 0 <= k < |rest| ==> rest[k] == iv[k + 1];
    }
    assert y == iv[0] || y in rest;
    PickChain(iv, lastEnd);
    PickAfter(iv, lastEnd);
    if iv[0].0 < lastEnd {
      PickAfter(rest, lastEnd);
      PickLongest(rest, lastEnd, x, y);
    } else if x == iv[0] {
      if y != iv[0] {
        var j :| 0 <= j < |rest| && rest[j] == y;
        SortedPairs(ByStartLongestFirst, iv, 0, j + 1);
      }
    } else {
      assert Positive(iv[0]);
      assert x in Pick(rest, iv[0].1);
      PickAfter(rest, iv[0].1);
      PickLongest(rest, iv[0].1, x, y);
    }
  }

  /** Every class a student attends is one of the day's classes of an
      enrolled subject with positive duration. */
  lemma AttendedEnrolled(cs: seq<Class>, enrolled: set<int>, x: Interval)
    requires x in Pick(Sort(ByStartLongestFirst, Available(cs, enrolled)), 0)
    ensures exists c :: c in cs && c.subject in enrolled && c.start < c.end && Span(c) == x
  {
    var sorted := Sort(ByStartLongestFirst, Available(cs, enrolled));
    PickChain(sorted, 0);
    assert x in multiset(sorted);
    AvailableFrom(cs, enrolled, x);
  }

  lemma {:induction false} AvailableFrom(cs: seq<Class>, enrolled: set<int>, x: Interval)
    requires x in Available(cs, enrolled)
    ensures exists c :: c in cs && c.subject in enrolled && c.start < c.end && Span(c) == x
  {
    var head := if cs[0].subject in enrolled && cs[0].start < cs[0].end then [Span(cs[0])] else [];
    assert Available(cs, enrolled) == head + Available(cs[1..], enrolled);
    if x !in head {
      AvailableFrom(cs[1..], enrolled, x);
      var c :| c in cs[1..] && c.subject in enrolled && c.start < c.end && Span(c) == x;
      assert c in cs;
    }
  }

  /* ---------------------------------------------------------------
     The bound
     --------------------------------------------------------------- */

  /** With nonnegative durations the walk attends at most the hours on
      offer. */
  lemma {:induction false} PickSum(iv: seq<Interval>, lastEnd: int)
    requires AllPositive(iv)
    ensures 0 <= SumDur(Pick(iv, lastEnd)) <= SumDur(iv)
  {
    if |iv| > 0 {
      var rest := iv[1..];
      assert AllPositive(rest) by {
        assert forall k :: 0 <= k < |rest| ==> rest[k] == iv[k + 1];
      }
      assert Positive(iv[0]);
      if iv[0].0 < lastEnd {
        PickSum(rest, lastEnd);
      } else {
        PickSum(rest, iv[0].1);
        assert ([iv[0]] + Pick(rest, iv[0].1))[1..] == Pick(rest, iv[0].1);
      }
    }
  }

  /** `1` when the pair's subject is one the student takes. */
  function Takes(enrolled: set<int>): Pair -> int
  {
    (k: Pair) => if k.1 in enrolled then 1 else 0
  }

  /** The hours of the day's classes of positive duration, each weighted by
      its pair. */
  function DayWeight(cs: seq<Class>, w: Pair -> int): int
  {
    if |cs| == 0 then 0 else ClassHours(cs[0], (cs[0].prof, cs[0].subject)) * w((cs[0].prof, cs[0].subject)) + DayWeight(cs[1..], w)
  }

  function ScheduleWeight(s: Schedule, w: Pair -> int): int
  {
    if |s| == 0 then 0 else DayWeight(s[0].1, w) + ScheduleWeight(s[1..], w)
  }

  lemma {:induction false} AvailableWeight(cs: seq<Class>, enrolled: set<int>)
    ensures SumDur(Available(cs, enrolled)) == DayWeight(cs, Takes(enrolled))
  {
    if |cs| > 0 {
      var head := if cs[0].subject in enrolled && cs[0].start < cs[0].end then [Span(cs[0])] else [];
      AvailableWeight(cs[1..], enrolled);
      SumDurConcat(head, Available(cs[1..], enrolled));
    }
  }

  /** The classes on offer all have positive duration. */
  lemma AvailablePositive(cs: seq<Class>, enrolled: set<int>)
    ensures AllPositive(Available(cs, enrolled))
  {
    var avail := Available(cs, enrolled);
    forall k | 0 <= k < |avail| ensures Positive(avail[k]) {
      AvailableFrom(cs, enrolled, avail[k]);
    }
  }

  lemma {:induction false} SumDurConcat(a: seq<Interval>, b: seq<Interval>)
    ensures SumDur(a + b) == SumDur(a) + SumDur(b)
  {
    if |a| > 0 {
      assert (a + b)[0] == a[0];
      assert (a + b)[1..] == a[1..] + b;
      SumDurConcat(a[1..], b);
    } else {
      assert a + b == b;
    }
  }

  /** A student attends at most the hours of the classes of the subjects
      they take. */
  lemma {:induction false} StudentBound(s: Schedule, enrolled: set<int>)
    ensures StudentScore(s, enrolled) <= ScheduleWeight(s, Takes(enrolled))
  {
    if |s| > 0 {
      var avail := Available(s[0].1, enrolled);
      AvailableWeight(s[0].1, enrolled);
      AvailablePositive(s[0].1, enrolled);
      SortSum(ByStartLongestFirst, avail);
      SortPositive(ByStartLongestFirst, avail);
      PickSum(Sort(ByStartLongestFirst, avail), 0);
      StudentBound(s[1..], enrolled);
    }
  }

  /** `students_per_materia.get(m, 0)`: the students enrolled in `m`. */
  function Enrolled(students: Enrollments, m: int): int
  {
    if |students| == 0 then 0 else (if m in students[0] then 1 else 0) + Enrolled(students[1..], m)
  }

  /** A pair weighted by the students who take its subject. */
  function Weights(students: Enrollments): Pair -> int
  {
    (k: Pair) => Enrolled(students, k.1)
  }

  /** The weights are linear in the weighting. */
  lemma {:induction false} WeightLinear(s: Schedule, students: Enrollments)
    requires |students| > 0
    ensures ScheduleWeight(s, Takes(students[0])) + ScheduleWeight(s, Weights(students[1..]))
         == ScheduleWeight(s, Weights(students))
  {
    if |s| > 0 {
      WeightLinear(s[1..], students);
      DayLinear(s[0].1, students);
    }
  }

  lemma {:induction false} DayLinear(cs: seq<Class>, students: Enrollments)
    requires |students| > 0
    ensures DayWeight(cs, Takes(students[0])) + DayWeight(cs, Weights(students[1..]))
         == DayWeight(cs, Weights(students))
  {
    if |cs| > 0 {
      DayLinear(cs[1..], students);
      var k := (cs[0].prof, cs[0].subject);
      Distribute(Takes(students[0])(k), Enrolled(students[1..], k.1), ClassHours(cs[0], k));
    }
  }

  /** The score is at most the hours of every class weighted by the
      students who take its subject. */
  lemma {:induction false} ScoreWeight(students: Enrollments, s: Schedule)
    ensures Score(students, s) <= ScheduleWeight(s, Weights(students))
  {
    if |students| == 0 {
      ZeroWeight(s, Weights(students));
    } else {
      StudentBound(s, students[0]);
      ScoreWeight(students[1..], s);
      WeightLinear(s, students);
    }
  }

  lemma {:induction false} ZeroWeight(s: Schedule, w: Pair -> int)
    requires forall k :: w(k) == 0
    ensures ScheduleWeight(s, w) == 0
  {
    if |s| > 0 {
      ZeroWeight(s[1..], w);
      DayZero(s[0].1, w);
    }
  }

  lemma {:induction false} DayZero(cs: seq<Class>, w: Pair -> int)
    requires forall k :: w(k) == 0
    ensures DayWeight(cs, w) == 0
  {
    if |cs| > 0 {
      DayZero(cs[1..], w);
    }
  }

  /** The weighted hours of `prof_hours_taught` are the weighted hours of
      the schedule's classes. */
  lemma {:induction false} TaughtDayWeight(cs: seq<Class>, acc: seq<(Pair, int)>, w: Pair -> int)
    requires DistinctKeys(acc) && PositiveValues(acc)
    ensures WSum(TaughtDay(cs, acc), w) == WSum(acc, w) + DayWeight(cs, w)
  {
    if |cs| > 0 {
      var c := cs[0];
      CreditHours(acc, c);
      if c.start < c.end {
        WSumAddTo(acc, (c.prof, c.subject), c.end - c.start, w);
      }
      TaughtDayWeight(cs[1..], Credit(acc, c), w);
    }
  }

  lemma {:induction false} TaughtFromWeight(s: Schedule, acc: seq<(Pair, int)>, w: Pair -> int)
    requires DistinctKeys(acc) && PositiveValues(acc)
    ensures WSum(TaughtFrom(s, acc), w) == WSum(acc, w) + ScheduleWeight(s, w)
  {
    if |s| > 0 {
      TaughtDayWeight(s[0].1, acc, w);
      TaughtDayHours(s[0].1, acc);
      TaughtFromWeight(s[1..], TaughtDay(s[0].1, acc), w);
    }
  }

  /* ---------------------------------------------------------------
     `calculate_theoretical_max`
     --------------------------------------------------------------- */

  /** `total_hours_per_materia`: the required hours summed per subject. */
  function SubjectTotals(required: seq<(Pair, int)>, acc: seq<(int, int)>): seq<(int, int)>
  {
    if |required| == 0 then acc
    else SubjectTotals(required[1..], AddTo(acc, required[0].0.1, required[0].1))
  }

  /** `calculate_theoretical_max`. */
  function TheoreticalMax(required: seq<(Pair, int)>, students: Enrollments): int
  {
    WSum(SubjectTotals(required, []), m => Enrolled(students, m))
  }

  lemma {:induction false} SubjectTotalsSum(required: seq<(Pair, int)>, acc: seq<(int, int)>, v: int -> int)
    requires DistinctKeys(acc)
    ensures WSum(SubjectTotals(required, acc), v) == WSum(acc, v) + WSum(required, (k: Pair) => v(k.1))
  {
    if |required| > 0 {
      var (k, hours) := required[0];
      WSumAddTo(acc, k.1, hours, v);
      AddToGet(acc, k.1, hours);
      SubjectTotalsSum(required[1..], AddTo(acc, k.1, hours), v);
    }
  }

  /** The theoretical maximum is every required pair's hours weighted by
      the students who take its subject. */
  lemma MaxByPairs(required: seq<(Pair, int)>, students: Enrollments)
    ensures TheoreticalMax(required, students) == WSum(required, Weights(students))
  {
    var v := m => Enrolled(students, m);
    SubjectTotalsSum(required, [], v);
    WSumExt(required, (k: Pair) => v(k.1), Weights(students));
  }

  /** On a schedule `validate_schedule` accepts, the score never exceeds
      the theoretical maximum. */
  lemma ScoreBound(numDays: int, required: seq<(Pair, int)>, students: Enrollments, s: Schedule)
    requires DistinctKeys(required)
    requires ValidateSchedule(numDays, required, s) == {}
    ensures Score(students, s) <= TheoreticalMax(required, students)
  {
    var w := Weights(students);
    var taught := Taught(s);
    ValidIff(numDays, required, s);
    TaughtHours(s);
    ScoreWeight(students, s);
    TaughtFromWeight(s, [], w);
    WSumAgree(taught, required, w);
    MaxByPairs(required, students);
  }
}
