/** The rule checks of the class-schedule checker (validators/unicode25.py):
    `_validate_prof_hours` (durations, professor overlaps, at most three
    hours in a row, hours taught) and `validate_schedule` (day coverage,
    the 8-20 window, one class of a subject at a time, required hours).
    The caller prints `set(errors)`, so the errors are a set here. */
module Unicode25Rules {
  import opened Wrappers
  import opened PyDict
  import opened Intervals
  import opened Unicode25Parse

  /** A (professor, subject) pair. */
  type Pair = (int, int)

  datatype RuleError =
    | BadDuration(day: int, prof: int, start: int, end: int)
    | Overlap(day: int, prof: int, first: Interval, second: Interval)
    | LongStretch(day: int, prof: int, end: int)
    | MissingDay(day: int)
    | ExtraDay(day: int)
    | OutsideHours(day: int, prof: int, subject: int, start: int, end: int)
    | SubjectClash(day: int, subject: int, later: Interval, earlier: Interval)
    | HoursMismatch(prof: int, subject: int, required: int, taught: int)
    | Unassigned(prof: int, subject: int, taught: int)

  function Span(c: Class): Interval
  {
    (c.start, c.end)
  }

  /* ---------------------------------------------------------------
     `_validate_prof_hours`
     --------------------------------------------------------------- */

  /** `prof_hours_taught` over one day's classes: a class of positive
      duration adds it to its pair; the others are skipped. */
  function TaughtDay(cs: seq<Class>, acc: seq<(Pair, int)>): seq<(Pair, int)>
  {
    if |cs| == 0 then acc else TaughtDay(cs[1..], Credit(acc, cs[0]))
  }

  /** One class's contribution to `prof_hours_taught`. */
  function Credit(acc: seq<(Pair, int)>, c: Class): seq<(Pair, int)>
  {
    if c.start < c.end then AddTo(acc, (c.prof, c.subject), c.end - c.start) else acc
  }

  function TaughtFrom(s: Schedule, acc: seq<(Pair, int)>): seq<(Pair, int)>
  {
    if |s| == 0 then acc else TaughtFrom(s[1..], TaughtDay(s[0].1, acc))
  }

  /** `prof_hours_taught` for the whole schedule. */
  function Taught(s: Schedule): seq<(Pair, int)>
  {
    TaughtFrom(s, [])
  }

  /** The `Error Duracion` reports of one day. */
  function DayBadDurations(day: int, cs: seq<Class>): set<RuleError>
  {
    set c | c in cs && c.start >= c.end :: BadDuration(day, c.prof, c.start, c.end)
  }

  /** `prof_daily_schedule[prof][day]`: the professor's classes of positive
      duration that day, in the order of the schedule. */
  function ProfDay(cs: seq<Class>, p: int): seq<Interval>
  {
    if |cs| == 0 then []
    else (if cs[0].prof == p && cs[0].start < cs[0].end then [Span(cs[0])] else []) + ProfDay(cs[1..], p)
  }

  /** The professors with a class of positive duration that day. */
  function ProfsOn(cs: seq<Class>): set<int>
  {
    set c | c in cs && c.start < c.end :: c.prof
  }

  /** The overlap reports over a professor's sorted classes of one day:
      a class that ends after the next one starts. */
  function Overlaps(day: int, p: int, iv: seq<Interval>): set<RuleError>
  {
    set k | 0 < k < |iv| && iv[k - 1].1 > iv[k].0 :: Overlap(day, p, iv[k - 1], iv[k])
  }

  /** `current_stretch` after each class of the sorted list: the class's
      duration, plus the running total when it starts exactly where the
      previous class ended. */
  function Runs(iv: seq<Interval>, lastEnd: int, current: int): (r: seq<int>)
    ensures |r| == |iv|
  {
    if |iv| == 0 then []
    else
      var cur := if iv[0].0 == lastEnd then current + Duration(iv[0]) else Duration(iv[0]);
      [cur] + Runs(iv[1..], iv[0].1, cur)
  }

  /** The `3h+` reports: one for every class at which the stretch, started
      from `last_end = -1`, exceeds three hours. */
  function Stretches(day: int, p: int, iv: seq<Interval>): set<RuleError>
  {
    set k | 0 <= k < |iv| && Runs(iv, -1, 0)[k] > 3 :: LongStretch(day, p, iv[k].1)
  }

  /** Rule 3 for one professor on one day, over the classes sorted by start
      (stably, as `list.sort` does). */
  function ProfDayErrors(day: int, p: int, cs: seq<Class>): set<RuleError>
  {
    var iv := Sort(ByStart, ProfDay(cs, p));
    Overlaps(day, p, iv) + Stretches(day, p, iv)
  }

  function DayProfErrors(day: int, cs: seq<Class>): set<RuleError>
  {
    set p, e | p in ProfsOn(cs) && e in ProfDayErrors(day, p, cs) :: e
  }

  /** The errors of `_validate_prof_hours`; it is valid exactly when there
      are none. */
  function ProfErrors(s: Schedule): set<RuleError>
  {
    if |s| == 0 then {}
    else DayBadDurations(s[0].0, s[0].1) + DayProfErrors(s[0].0, s[0].1) + ProfErrors(s[1..])
  }

  /* ---------------------------------------------------------------
     `validate_schedule`
     --------------------------------------------------------------- */

  function Days(s: Schedule): set<int>
  {
    set a | 0 <= a < |s| :: s[a].0
  }

  /** `set(range(lo, hi))`. */
  function Range(lo: int, hi: int): (r: set<int>)
    ensures forall d :: d in r <==> lo <= d < hi
    decreases hi - lo
  {
    if lo >= hi then {} else {lo} + Range(lo + 1, hi)
  }

  /** Rule 4: with day 0 present the days are counted from 0, otherwise
      from 1 (which also covers an empty schedule). */
  function ExpectedDays(numDays: int, found: set<int>): set<int>
  {
    if 0 in found then Range(0, numDays) else Range(1, numDays + 1)
  }

  function CoverageErrors(numDays: int, found: set<int>): set<RuleError>
  {
    var expected := ExpectedDays(numDays, found);
    (set d | d in expected - found :: MissingDay(d)) + (set d | d in found - expected :: ExtraDay(d))
  }

  /** `materia_slots[materia]`: the intervals of the earlier classes of
      the day that have positive duration and that subject. */
  function SlotsOf(earlier: seq<Class>, subject: int): seq<Interval>
  {
    if |earlier| == 0 then []
    else
      var c := earlier[|earlier| - 1];
      SlotsOf(earlier[..|earlier| - 1], subject) + (if c.subject == subject && c.start < c.end then [Span(c)] else [])
  }

  /** Rule 2 for one class: every earlier slot of its subject it shares an
      hour with. */
  function ClashesWith(day: int, c: Class, slots: seq<Interval>): set<RuleError>
  {
    set iv | iv in slots && Intersect(Span(c), iv) :: SubjectClash(day, c.subject, Span(c), iv)
  }

  /** Rules 5 and 2 over one day's classes, in order, after the classes
      `earlier`. */
  function DayRules(day: int, cs: seq<Class>, earlier: seq<Class>): set<RuleError>
  {
    if |cs| == 0 then {}
    else
      var c := cs[0];
      var window := if c.start >= 8 && c.end <= 20 then {} else {OutsideHours(day, c.prof, c.subject, c.start, c.end)};
      var clashes := if c.start < c.end then ClashesWith(day, c, SlotsOf(earlier, c.subject)) else {};
      window + clashes + DayRules(day, cs[1..], earlier + [c])
  }

  /** Rules 5 and 2 over every day that is not an extra day. */
  function ScheduleRules(s: Schedule, expected: set<int>): set<RuleError>
  {
    if |s| == 0 then {}
    else (if s[0].0 in expected then DayRules(s[0].0, s[0].1, []) else {}) + ScheduleRules(s[1..], expected)
  }

  /** Rule 1: every required pair is taught exactly its hours. */
  function HoursErrors(required: seq<(Pair, int)>, taught: seq<(Pair, int)>): set<RuleError>
  {
    if |required| == 0 then {}
    else
      var (k, hours) := required[0];
      var t := GetOr0(taught, k);
      (if t != hours then {HoursMismatch(k.0, k.1, hours, t)} else {}) + HoursErrors(required[1..], taught)
  }

  /** Pairs taught for some hours that the input does not list. */
  function UnassignedErrors(required: seq<(Pair, int)>, taught: seq<(Pair, int)>): set<RuleError>
  {
    if |taught| == 0 then {}
    else
      var (k, t) := taught[0];
      (if Get(required, k).None? && t > 0 then {Unassigned(k.0, k.1, t)} else {}) + UnassignedErrors(required, taught[1..])
  }

  /** `validate_schedule(num_days, prof_hours_required, schedule)`. */
  function ValidateSchedule(numDays: int, required: seq<(Pair, int)>, s: Schedule): set<RuleError>
  {
    var found := Days(s);
    var taught := Taught(s);
    CoverageErrors(numDays, found)
    + ProfErrors(s)
    + ScheduleRules(s, ExpectedDays(numDays, found))
    + HoursErrors(required, taught)
    + UnassignedErrors(required, taught)
  }

  /* ---------------------------------------------------------------
     Rule 3: overlaps
     --------------------------------------------------------------- */

  predicate AllPositive(iv: seq<Interval>)
  {
    forall k :: 0 <= k < |iv| ==> Positive(iv[k])
  }

  /** A professor's classes of one day all have positive duration. */
  lemma {:induction false} ProfDayPositive(cs: seq<Class>, p: int)
    ensures AllPositive(ProfDay(cs, p))
  {
    if |cs| > 0 {
      ProfDayPositive(cs[1..], p);
    }
  }

  /** Sorting keeps every interval positive. */
  lemma SortPositive(o: Order, iv: seq<Interval>)
    requires AllPositive(iv)
    ensures AllPositive(Sort(o, iv))
  {
    var r := Sort(o, iv);
    forall k | 0 <= k < |r| ensures Positive(r[k]) {
      assert r[k] in multiset(iv);
      var j :| 0 <= j < |iv| && iv[j] == r[k];
    }
  }

  /** When no class ends after the next one starts, every class ends by the
      time any later one starts. */
  lemma {:induction false} EndsBeforeLater(iv: seq<Interval>, a: int, b: int)
    requires AllPositive(iv)
    requires forall k :: 0 < k < |iv| ==> iv[k - 1].1 <= iv[k].0
    requires 0 <= a < b < |iv|
    ensures iv[a].1 <= iv[b].0
    decreases b - a
  {
    if a + 1 < b {
      EndsBeforeLater(iv, a, b - 1);
      assert Positive(iv[b - 1]);
    }
  }

  /** No two intervals of the list share an hour. */
  predicate PairwiseDisjoint(iv: seq<Interval>)
  {
    forall a, b :: 0 <= a < b < |iv| ==> !Intersect(iv[a], iv[b])
  }

  lemma OverlapsHave(day: int, p: int, iv: seq<Interval>)
    ensures forall k :: 0 < k < |iv| && iv[k - 1].1 > iv[k].0 ==> Overlap(day, p, iv[k - 1], iv[k]) in Overlaps(day, p, iv)
  {
  }

  /** Over sorted classes of positive duration, there is no overlap report
      exactly when no two of the classes share an hour. */
  lemma NoOverlapIffDisjoint(day: int, p: int, iv: seq<Interval>)
    requires Sorted(ByStart, iv) && AllPositive(iv)
    ensures Overlaps(day, p, iv) == {} <==> PairwiseDisjoint(iv)
  {
    OverlapsHave(day, p, iv);
    if forall k :: 0 < k < |iv| ==> iv[k - 1].1 <= iv[k].0 {
      forall a, b | 0 <= a < b < |iv| ensures !Intersect(iv[a], iv[b]) {
        EndsBeforeLater(iv, a, b);
      }
    } else {
      var k :| 0 < k < |iv| && iv[k - 1].1 > iv[k].0;
      AdjacentIntersect(iv[k - 1], iv[k]);
    }
  }

  /** A class that ends after the next one (by start) begins shares an hour
      with it. */
  lemma AdjacentIntersect(a: Interval, b: Interval)
    requires !Before(ByStart, b, a) && Positive(b) && a.1 > b.0
    ensures Intersect(a, b)
  {
  }

  /* ---------------------------------------------------------------
     Rule 3: at most three hours in a row
     --------------------------------------------------------------- */

  /** Every class from `i + 1` to `j` starts where the one before it ended. */
  predicate Chained(iv: seq<Interval>, i: int, j: int)
    requires 0 <= i <= j < |iv|
  {
    forall k :: i < k <= j ==> iv[k].0 == iv[k - 1].1
  }

  /** `current_stretch` at a class: its duration, on top of the value at
      the class before when it starts where that one ended. */
  lemma {:induction false} RunsStep(iv: seq<Interval>, lastEnd: int, current: int, k: int)
    requires 0 < k < |iv|
    ensures Runs(iv, lastEnd, current)[k]
         == (if iv[k].0 == iv[k - 1].1 then Runs(iv, lastEnd, current)[k - 1] else 0) + Duration(iv[k])
  {
    var cur := if iv[0].0 == lastEnd then current + Duration(iv[0]) else Duration(iv[0]);
    var rest := Runs(iv[1..], iv[0].1, cur);
    assert Runs(iv, lastEnd, current) == [cur] + rest;
    if k > 1 {
      RunsStep(iv[1..], iv[0].1, cur, k - 1);
    }
  }

  /** Where the stretch that reaches class `j` began: the chain from there
      to `j` sums to the value `current_stretch` holds at `j`. */
  function StretchStart(iv: seq<Interval>, j: int): (i: int)
    requires 0 <= j < |iv|
    ensures 0 <= i <= j && Chained(iv, i, j)
    ensures SumDur(iv[i..j + 1]) == Runs(iv, -1, 0)[j]
  {
    if j == 0 then
      assert iv[0..1] == [iv[0]];
      0
    else
      RunsStep(iv, -1, 0, j);
      if iv[j].0 == iv[j - 1].1 then
        var i := StretchStart(iv, j - 1);
        assert iv[i..j + 1] == iv[i..j] + [iv[j]];
        SumDurSnoc(iv[i..j], iv[j]);
        i
      else
        assert iv[j..j + 1] == [iv[j]];
        j
  }

  /** With positive durations `current_stretch` is at least the duration of
      the class it is at. */
  lemma {:induction false} RunsAtLeast(iv: seq<Interval>, j: int)
    requires AllPositive(iv) && 0 <= j < |iv|
    ensures Runs(iv, -1, 0)[j] >= Duration(iv[j])
  {
    if j > 0 {
      RunsAtLeast(iv, j - 1);
      RunsStep(iv, -1, 0, j);
    }
  }

  /** With positive durations every chain that ends at `j` sums to at most
      `current_stretch` at `j`. */
  lemma {:induction false} ChainBound(iv: seq<Interval>, i: int, j: int)
    requires AllPositive(iv)
    requires 0 <= i <= j < |iv| && Chained(iv, i, j)
    ensures SumDur(iv[i..j + 1]) <= Runs(iv, -1, 0)[j]
    decreases j - i
  {
    if i == j {
      assert iv[j..j + 1] == [iv[j]];
      RunsAtLeast(iv, j);
    } else {
      assert Chained(iv, i, j - 1);
      ChainBound(iv, i, j - 1);
      RunsStep(iv, -1, 0, j);
      assert iv[i..j + 1] == iv[i..j] + [iv[j]];
      SumDurSnoc(iv[i..j], iv[j]);
    }
  }

  /** No run of back-to-back classes lasts more than three hours. */
  predicate ShortRuns(iv: seq<Interval>)
  {
    forall i, j :: 0 <= i <= j < |iv| && Chained(iv, i, j) ==> SumDur(iv[i..j + 1]) <= 3
  }

  lemma StretchesHave(day: int, p: int, iv: seq<Interval>)
    ensures forall j :: 0 <= j < |iv| && Runs(iv, -1, 0)[j] > 3 ==> LongStretch(day, p, iv[j].1) in Stretches(day, p, iv)
  {
  }

  /** There is no `3h+` report exactly when every run of back-to-back
      classes lasts at most three hours. */
  lemma NoStretchIffShortRuns(day: int, p: int, iv: seq<Interval>)
    requires AllPositive(iv)
    ensures Stretches(day, p, iv) == {} <==> ShortRuns(iv)
  {
    StretchesHave(day, p, iv);
    if forall j :: 0 <= j < |iv| ==> Runs(iv, -1, 0)[j] <= 3 {
      forall i, j | 0 <= i <= j < |iv| && Chained(iv, i, j) ensures SumDur(iv[i..j + 1]) <= 3 {
        ChainBound(iv, i, j);
      }
    } else {
      var j :| 0 <= j < |iv| && Runs(iv, -1, 0)[j] > 3;
      var i := StretchStart(iv, j);
      assert SumDur(iv[i..j + 1]) > 3;
    }
  }

  /** Rule 3 for one professor and day: no report exactly when the sorted
      classes are pairwise disjoint and no run of back-to-back classes
      exceeds three hours. */
  lemma ProfDayRule3(day: int, p: int, cs: seq<Class>)
    ensures ProfDayErrors(day, p, cs) == {}
        <==> PairwiseDisjoint(Sort(ByStart, ProfDay(cs, p))) && ShortRuns(Sort(ByStart, ProfDay(cs, p)))
  {
    var iv := Sort(ByStart, ProfDay(cs, p));
    ProfDayPositive(cs, p);
    SortPositive(ByStart, ProfDay(cs, p));
    NoOverlapIffDisjoint(day, p, iv);
    NoStretchIffShortRuns(day, p, iv);
  }

  /* ---------------------------------------------------------------
     Rule 4: day coverage
     --------------------------------------------------------------- */

  /** There is no missing or extra day exactly when the days present are
      0 to D-1 (with D at least 1) or 1 to D. */
  lemma CoverageIff(numDays: int, found: set<int>)
    ensures CoverageErrors(numDays, found) == {} <==> found == ExpectedDays(numDays, found)
    ensures CoverageErrors(numDays, found) == {}
        <==> (0 < numDays && found == Range(0, numDays)) || found == Range(1, numDays + 1)
  {
    var expected := ExpectedDays(numDays, found);
    if found != expected {
      if d :| d in expected && d !in found {
        assert MissingDay(d) in CoverageErrors(numDays, found);
      } else {
        var d :| d in found && d !in expected;
        assert ExtraDay(d) in CoverageErrors(numDays, found);
      }
    }
    if 0 in found {
      assert 0 !in Range(1, numDays + 1);
    } else {
      assert 0 < numDays ==> 0 in Range(0, numDays);
    }
  }

  /* ---------------------------------------------------------------
     Rules 5 and 2 over one day
     --------------------------------------------------------------- */

  /** Every report of rules 5 and 2 for a day is one of those two kinds
      and names that day. */
  lemma {:induction false} DayRulesShape(day: int, cs: seq<Class>, earlier: seq<Class>)
    ensures forall e :: e in DayRules(day, cs, earlier) ==> (e.OutsideHours? || e.SubjectClash?) && e.day == day
  {
    if |cs| > 0 {
      DayRulesShape(day, cs[1..], earlier + [cs[0]]);
    }
  }

  /** Rule 5: a class of the day is reported exactly when it does not lie
      within 8 to 20, and only the day's classes are reported. */
  lemma {:induction false} WindowIff(day: int, cs: seq<Class>, earlier: seq<Class>, c: Class)
    ensures OutsideHours(day, c.prof, c.subject, c.start, c.end) in DayRules(day, cs, earlier)
        <==> c in cs && !(c.start >= 8 && c.end <= 20)
  {
    if |cs| > 0 {
      WindowIff(day, cs[1..], earlier + [cs[0]], c);
      assert c in cs <==> c == cs[0] || c in cs[1..];
    }
  }

  /** Two classes of one day that rule 2 forbids: both of positive
      duration, same subject, sharing an hour. */
  predicate Clash(a: Class, b: Class)
  {
    a.start < a.end && b.start < b.end && a.subject == b.subject && Intersect(Span(b), Span(a))
  }

  predicate ClashFree(cs: seq<Class>)
  {
    forall i, j :: 0 <= i < j < |cs| ==> !Clash(cs[i], cs[j])
  }

  function ClashReports(errors: set<RuleError>): set<RuleError>
  {
    set e | e in errors && e.SubjectClash?
  }

  lemma ClashesWithSplit(day: int, c: Class, a: seq<Interval>, b: seq<Interval>)
    ensures ClashesWith(day, c, a + b) == ClashesWith(day, c, a) + ClashesWith(day, c, b)
  {
  }

  /** A class of positive duration clashes with no earlier slot of its
      subject exactly when it clashes with no earlier class. */
  lemma {:induction false} SlotsClash(day: int, c: Class, earlier: seq<Class>)
    requires c.start < c.end
    ensures ClashesWith(day, c, SlotsOf(earlier, c.subject)) == {}
        <==> forall i :: 0 <= i < |earlier| ==> !Clash(earlier[i], c)
  {
    if |earlier| > 0 {
      var init, x := earlier[..|earlier| - 1], earlier[|earlier| - 1];
      var own := if x.subject == c.subject && x.start < x.end then [Span(x)] else [];
      SlotsClash(day, c, init);
      ClashesWithSplit(day, c, SlotsOf(init, c.subject), own);
      assert Clash(x, c) ==> SubjectClash(day, c.subject, Span(c), Span(x)) in ClashesWith(day, c, own);
      assert forall i :: 0 <= i < |init| ==> earlier[i] == init[i];
    }
  }

  /** Rule 2 over one day: no clash is reported exactly when no two of its
      classes clash. */
  lemma {:induction false} DayClashes(day: int, cs: seq<Class>, earlier: seq<Class>)
    requires ClashFree(earlier)
    ensures ClashReports(DayRules(day, cs, earlier)) == {} <==> ClashFree(earlier + cs)
    decreases |cs|
  {
    if |cs| == 0 {
      assert earlier + cs == earlier;
    } else {
      var c := cs[0];
      var next := earlier + [c];
      assert earlier + cs == next + cs[1..];
      var clashes := if c.start < c.end then ClashesWith(day, c, SlotsOf(earlier, c.subject)) else {};
      assert ClashReports(DayRules(day, cs, earlier)) == clashes + ClashReports(DayRules(day, cs[1..], next));
      if c.start < c.end {
        SlotsClash(day, c, earlier);
      }
      if clashes == {} {
        assert ClashFree(next) by {
          assert forall i :: 0 <= i < |earlier| ==> next[i] == earlier[i];
        }
        DayClashes(day, cs[1..], next);
      } else {
        var i :| 0 <= i < |earlier| && Clash(earlier[i], c);
        assert (earlier + cs)[i] == earlier[i] && (earlier + cs)[|earlier|] == c;
      }
    }
  }

  /** Rule 2 from the start of a day. */
  lemma NoClashIff(day: int, cs: seq<Class>)
    ensures ClashReports(DayRules(day, cs, [])) == {} <==> ClashFree(cs)
  {
    DayClashes(day, cs, []);
    assert [] + cs == cs;
  }

  /* ---------------------------------------------------------------
     Rules 5 and 2 over the schedule
     --------------------------------------------------------------- */

  /** Extra days are skipped: every report of rules 5 and 2 names an
      expected day, and every expected day present is checked. */
  lemma {:induction false} ScheduleRulesDays(s: Schedule, expected: set<int>)
    ensures forall e :: e in ScheduleRules(s, expected) ==> (e.OutsideHours? || e.SubjectClash?) && e.day in expected
    ensures forall a :: 0 <= a < |s| && s[a].0 in expected ==> DayRules(s[a].0, s[a].1, []) <= ScheduleRules(s, expected)
  {
    if |s| > 0 {
      DayRulesShape(s[0].0, s[0].1, []);
      ScheduleRulesDays(s[1..], expected);
      assert forall a :: 0 < a < |s| ==> s[a] == s[1..][a - 1];
    }
  }

  /* ---------------------------------------------------------------
     Rule 1: hours
     --------------------------------------------------------------- */

  /** The hours a pair teaches in the schedule: the summed durations of its
      classes of positive duration. */
  function DayHours(cs: seq<Class>, k: Pair): int
  {
    if |cs| == 0 then 0 else ClassHours(cs[0], k) + DayHours(cs[1..], k)
  }

  function ClassHours(c: Class, k: Pair): int
  {
    if (c.prof, c.subject) == k && c.start < c.end then c.end - c.start else 0
  }

  function HoursOf(s: Schedule, k: Pair): int
  {
    if |s| == 0 then 0 else DayHours(s[0].1, k) + HoursOf(s[1..], k)
  }

  lemma CreditHours(acc: seq<(Pair, int)>, c: Class)
    requires DistinctKeys(acc) && PositiveValues(acc)
    ensures DistinctKeys(Credit(acc, c)) && PositiveValues(Credit(acc, c))
    ensures forall k :: GetOr0(Credit(acc, c), k) == GetOr0(acc, k) + ClassHours(c, k)
  {
    if c.start < c.end {
      AddToGet(acc, (c.prof, c.subject), c.end - c.start);
      AddToPositive(acc, (c.prof, c.subject), c.end - c.start);
    }
  }

  lemma {:induction false} TaughtDayHours(cs: seq<Class>, acc: seq<(Pair, int)>)
    requires DistinctKeys(acc) && PositiveValues(acc)
    ensures DistinctKeys(TaughtDay(cs, acc)) && PositiveValues(TaughtDay(cs, acc))
    ensures forall k :: GetOr0(TaughtDay(cs, acc), k) == GetOr0(acc, k) + DayHours(cs, k)
  {
    if |cs| > 0 {
      CreditHours(acc, cs[0]);
      TaughtDayHours(cs[1..], Credit(acc, cs[0]));
    }
  }

  lemma {:induction false} TaughtFromHours(s: Schedule, acc: seq<(Pair, int)>)
    requires DistinctKeys(acc) && PositiveValues(acc)
    ensures DistinctKeys(TaughtFrom(s, acc)) && PositiveValues(TaughtFrom(s, acc))
    ensures forall k :: GetOr0(TaughtFrom(s, acc), k) == GetOr0(acc, k) + HoursOf(s, k)
  {
    if |s| > 0 {
      TaughtDayHours(s[0].1, acc);
      TaughtFromHours(s[1..], TaughtDay(s[0].1, acc));
    }
  }

  /** `prof_hours_taught` is a dict of positive hours, and for every pair
      it holds the summed durations of the pair's classes of positive
      duration; classes with start >= end add nothing. */
  lemma TaughtHours(s: Schedule)
    ensures DistinctKeys(Taught(s)) && PositiveValues(Taught(s))
    ensures forall k :: GetOr0(Taught(s), k) == HoursOf(s, k)
  {
    TaughtFromHours(s, []);
  }

  lemma {:induction false} HoursErrorsIff(required: seq<(Pair, int)>, taught: seq<(Pair, int)>)
    ensures HoursErrors(required, taught) == {}
        <==> forall i :: 0 <= i < |required| ==> GetOr0(taught, required[i].0) == required[i].1
  {
    if |required| > 0 {
      HoursErrorsIff(required[1..], taught);
      assert forall i :: 0 < i < |required| ==> required[i] == required[1..][i - 1];
    }
  }

  lemma {:induction false} UnassignedIff(required: seq<(Pair, int)>, taught: seq<(Pair, int)>)
    ensures UnassignedErrors(required, taught) == {}
        <==> forall i :: 0 <= i < |taught| && taught[i].1 > 0 ==> taught[i].0 in Keys(required)
  {
    if |taught| > 0 {
      UnassignedIff(required, taught[1..]);
      assert forall i :: 0 < i < |taught| ==> taught[i] == taught[1..][i - 1];
    }
  }

  /** Rule 1 and the unassigned-hours check report nothing exactly when
      every pair is taught the hours the input requires of it, and no
      hours otherwise. */
  lemma HoursAgree(required: seq<(Pair, int)>, taught: seq<(Pair, int)>)
    requires DistinctKeys(required) && DistinctKeys(taught) && PositiveValues(taught)
    ensures HoursErrors(required, taught) + UnassignedErrors(required, taught) == {}
        <==> forall k :: GetOr0(taught, k) == GetOr0(required, k)
  {
    HoursErrorsIff(required, taught);
    UnassignedIff(required, taught);
    if forall k :: GetOr0(taught, k) == GetOr0(required, k) {
      forall i | 0 <= i < |required| ensures GetOr0(taught, required[i].0) == required[i].1 {
        GetItem(required, i);
      }
      forall i | 0 <= i < |taught| && taught[i].1 > 0 ensures taught[i].0 in Keys(required) {
        GetItem(taught, i);
        var k := taught[i].0;
        assert GetOr0(required, k) == GetOr0(taught, k) == taught[i].1;
      }
    }
    if HoursErrors(required, taught) + UnassignedErrors(required, taught) == {} {
      forall k ensures GetOr0(taught, k) == GetOr0(required, k) {
        KeysIndex(required, k);
        KeysIndex(taught, k);
        if k in Keys(required) {
          var i :| 0 <= i < |required| && required[i].0 == k;
          GetItem(required, i);
        } else {
          assert k !in Keys(taught);
        }
      }
    }
  }

  /* ---------------------------------------------------------------
     The whole check
     --------------------------------------------------------------- */

  lemma BadDurationsHave(day: int, cs: seq<Class>)
    ensures forall c :: c in cs && c.start >= c.end ==> BadDuration(day, c.prof, c.start, c.end) in DayBadDurations(day, cs)
  {
  }

  /** No duration report for a day exactly when all its classes have
      positive duration. */
  lemma BadDurationsIff(day: int, cs: seq<Class>)
    ensures DayBadDurations(day, cs) == {} <==> forall c :: c in cs ==> c.start < c.end
  {
    BadDurationsHave(day, cs);
  }

  lemma {:induction false} ProfDayEmpty(cs: seq<Class>, p: int)
    requires p !in ProfsOn(cs)
    ensures ProfDay(cs, p) == []
  {
    if |cs| > 0 {
      assert ProfsOn(cs[1..]) <= ProfsOn(cs);
      ProfDayEmpty(cs[1..], p);
    }
  }

  lemma DayProfHave(day: int, cs: seq<Class>)
    ensures forall p, e :: p in ProfsOn(cs) && e in ProfDayErrors(day, p, cs) ==> e in DayProfErrors(day, cs)
  {
  }

  /** No rule 3 report for a day exactly when there is none for any
      professor; a professor without classes that day has none. */
  lemma DayProfIff(day: int, cs: seq<Class>)
    ensures DayProfErrors(day, cs) == {} <==> forall p :: ProfDayErrors(day, p, cs) == {}
  {
    DayProfHave(day, cs);
    forall p | p !in ProfsOn(cs) ensures ProfDayErrors(day, p, cs) == {} {
      ProfDayEmpty(cs, p);
      assert Sort(ByStart, []) == [];
    }
  }

  lemma {:induction false} ProfErrorsIff(s: Schedule)
    ensures ProfErrors(s) == {}
        <==> forall a :: 0 <= a < |s| ==> DayBadDurations(s[a].0, s[a].1) == {} && DayProfErrors(s[a].0, s[a].1) == {}
  {
    if |s| > 0 {
      ProfErrorsIff(s[1..]);
      assert forall a :: 0 < a < |s| ==> s[a] == s[1..][a - 1];
    }
  }

  lemma {:induction false} ScheduleRulesIff(s: Schedule, expected: set<int>)
    requires forall a :: 0 <= a < |s| ==> s[a].0 in expected
    ensures ScheduleRules(s, expected) == {} <==> forall a :: 0 <= a < |s| ==> DayRules(s[a].0, s[a].1, []) == {}
  {
    if |s| > 0 {
      ScheduleRulesIff(s[1..], expected);
      assert forall a :: 0 < a < |s| ==> s[a] == s[1..][a - 1];
    }
  }

  /** Rules 5 and 2 report nothing for a day exactly when its classes all
      lie within 8 to 20 and no two of them clash. */
  lemma DayRulesIff(day: int, cs: seq<Class>)
    ensures DayRules(day, cs, []) == {} <==> (forall c :: c in cs ==> c.start >= 8 && c.end <= 20) && ClashFree(cs)
  {
    var errors := DayRules(day, cs, []);
    DayRulesShape(day, cs, []);
    NoClashIff(day, cs);
    forall c | c in cs ensures OutsideHours(day, c.prof, c.subject, c.start, c.end) in errors <==> !(c.start >= 8 && c.end <= 20) {
      WindowIff(day, cs, [], c);
    }
    if e :| e in errors && e.OutsideHours? {
      var c := Class(e.prof, e.subject, e.start, e.end);
      WindowIff(day, cs, [], c);
    }
  }

  /** One day passes every per-day rule: positive durations within 8 to 20,
      no clash, and for each professor disjoint classes with no run of more
      than three hours. */
  ghost predicate DayOk(cs: seq<Class>)
  {
    (forall c :: c in cs ==> c.start < c.end && c.start >= 8 && c.end <= 20)
    && ClashFree(cs)
    && forall p :: PairwiseDisjoint(Sort(ByStart, ProfDay(cs, p))) && ShortRuns(Sort(ByStart, ProfDay(cs, p)))
  }

  /** The schedule passes every rule: its days are 0 to D-1 or 1 to D,
      every day passes, and every pair teaches exactly its required hours
      (a pair the input does not list, none). */
  ghost predicate ScheduleOk(numDays: int, required: seq<(Pair, int)>, s: Schedule)
  {
    ((0 < numDays && Days(s) == Range(0, numDays)) || Days(s) == Range(1, numDays + 1))
    && (forall a :: 0 <= a < |s| ==> DayOk(s[a].1))
    && forall k :: HoursOf(s, k) == GetOr0(required, k)
  }

  lemma DayIff(day: int, cs: seq<Class>)
    ensures DayBadDurations(day, cs) == {} && DayProfErrors(day, cs) == {} && DayRules(day, cs, []) == {}
        <==> DayOk(cs)
  {
    BadDurationsIff(day, cs);
    DayProfIff(day, cs);
    DayRulesIff(day, cs);
    forall p ensures ProfDayErrors(day, p, cs) == {}
        <==> PairwiseDisjoint(Sort(ByStart, ProfDay(cs, p))) && ShortRuns(Sort(ByStart, ProfDay(cs, p))) {
      ProfDayRule3(day, p, cs);
    }
  }

  /** `validate_schedule` returns no error exactly when the schedule
      passes every rule. */
  lemma ValidIff(numDays: int, required: seq<(Pair, int)>, s: Schedule)
    requires DistinctKeys(required)
    ensures ValidateSchedule(numDays, required, s) == {} <==> ScheduleOk(numDays, required, s)
  {
    var found := Days(s);
    var taught := Taught(s);
    CoverageIff(numDays, found);
    TaughtHours(s);
    HoursAgree(required, taught);
    if CoverageErrors(numDays, found) == {} {
      DaysChecked(s, ExpectedDays(numDays, found));
    }
  }

  /** With every day expected, the per-day reports vanish exactly when
      every day passes. */
  lemma DaysChecked(s: Schedule, expected: set<int>)
    requires Days(s) == expected
    ensures ProfErrors(s) + ScheduleRules(s, expected) == {} <==> forall a :: 0 <= a < |s| ==> DayOk(s[a].1)
  {
    ProfErrorsIff(s);
    assert forall a :: 0 <= a < |s| ==> s[a].0 in Days(s);
    ScheduleRulesIff(s, expected);
    forall a | 0 <= a < |s|
      ensures DayBadDurations(s[a].0, s[a].1) == {} && DayProfErrors(s[a].0, s[a].1) == {} && DayRules(s[a].0, s[a].1, []) == {}
          <==> DayOk(s[a].1) {
      DayIff(s[a].0, s[a].1);
    }
  }
}
