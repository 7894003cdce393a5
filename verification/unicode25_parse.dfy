/** The class-schedule checker's reading of a submitted timetable: a day
    header `day n_classes` followed by `n_classes` lines
    `prof subject start end`, blank lines between days skipped. */
module Unicode25Parse {
  import opened Wrappers
  import opened Text
  import opened PyDict

  /** One taught hour block: `(prof, materia, start, end)`. */
  datatype Class = Class(prof: int, subject: int, start: int, end: int)

  /** `Dict[int, List[ClassTuple]]`, items in insertion order. */
  type Schedule = seq<(int, seq<Class>)>

  /** The one format error parsing stops at. */
  datatype FormatError =
    | BadHeader(line: string)
    | DayOutOfOrder(day: int, last: int)
    | Truncated(day: int, count: int)
    | BadClassLine(day: int, line: string)

  /** What `parse_output` returns: the schedule read so far and the format
      error, if any, that stopped it. */
  datatype Parsed = Parsed(schedule: Schedule, error: Option<FormatError>)

  /** A stripped header line: exactly two whitespace-separated integers. */
  function Header(line: string): (r: Option<(int, int)>)
    ensures r.Some? <==> |Words(line)| == 2 && ParseInts(Words(line)).Some?
    ensures r.Some? ==> ParseInt(Words(line)[0]) == Some(r.value.0) && ParseInt(Words(line)[1]) == Some(r.value.1)
  {
    var parts := Words(line);
    if |parts| != 2 then None
    else
      match ParseInts(parts)
      case None => None
      case Some(vs) => Some((vs[0], vs[1]))
  }

  /** A stripped class line: exactly four whitespace-separated integers. */
  function ClassLine(line: string): (r: Option<Class>)
    ensures r.Some? <==> |Words(line)| == 4 && ParseInts(Words(line)).Some?
    ensures r.Some? ==> ParseInt(Words(line)[0]) == Some(r.value.prof) && ParseInt(Words(line)[1]) == Some(r.value.subject)
    ensures r.Some? ==> ParseInt(Words(line)[2]) == Some(r.value.start) && ParseInt(Words(line)[3]) == Some(r.value.end)
  {
    var parts := Words(line);
    if |parts| != 4 then None
    else
      match ParseInts(parts)
      case None => None
      case Some(vs) => Some(Class(vs[0], vs[1], vs[2], vs[3]))
  }

  /** A line as the parser can see it: stripped, and read both as a day
      header and as a class line, since its place decides which applies. */
  datatype LineView = LineView(text: string, header: Option<(int, int)>, entry: Option<Class>)

  function View(raw: string): (v: LineView)
    ensures v.text == Strip(raw) && v.header == Header(Strip(raw)) && v.entry == ClassLine(Strip(raw))
  {
    var t := Strip(raw);
    LineView(t, Header(t), ClassLine(t))
  }

  function Views(lines: seq<string>): (vs: seq<LineView>)
    ensures |vs| == |lines| && forall k :: 0 <= k < |lines| ==> vs[k] == View(lines[k])
  {
    seq(|lines|, k requires 0 <= k < |lines| => View(lines[k]))
  }

  /** The day a line would announce if it were read as a header. */
  function HeaderDay(v: LineView): Option<int>
  {
    if v.header.Some? then Some(v.header.value.0) else None
  }

  /** The largest day any line announces, and at least -1. Each accepted
      header raises the last day up to at most this bound, which is why the
      parser stops even though a negative class count moves it backwards. */
  function MaxDay(vs: seq<LineView>): (m: int)
    ensures m >= -1
    ensures forall k :: 0 <= k < |vs| && vs[k].header.Some? ==> vs[k].header.value.0 <= m
  {
    if |vs| == 0 then -1
    else
      var rest := MaxDay(vs[1..]);
      assert forall k :: 1 <= k < |vs| ==> vs[k] == vs[1..][k - 1];
      if vs[0].header.Some? && vs[0].header.value.0 > rest then vs[0].header.value.0 else rest
  }

  /** Days listed in a schedule, as its keys in order. */
  predicate Increasing(s: Schedule)
  {
    forall a, b :: 0 <= a < b < |s| ==> s[a].0 < s[b].0
  }

  predicate AllAtMost(s: Schedule, bound: int)
  {
    forall a :: 0 <= a < |s| ==> s[a].0 <= bound
  }

  predicate AllAtLeast(s: Schedule, bound: int)
  {
    forall a :: 0 <= a < |s| ==> s[a].0 >= bound
  }

  /** A day after every day so far is a new key: `schedule[day] = []`
      appends it. */
  lemma FreshDay(sched: Schedule, lastDay: int, day: int, cs: seq<Class>)
    requires AllAtMost(sched, lastDay) && lastDay < day
    ensures Put(sched, day, cs) == sched + [(day, cs)]
    ensures AllAtMost(sched + [(day, cs)], day)
  {
    assert forall a :: 0 <= a < |sched| ==> sched[a].0 != day;
  }

  /** Appending a day after every day so far keeps the days increasing and
      not negative. */
  lemma NewDay(sched: Schedule, lastDay: int, day: int, cs: seq<Class>)
    requires Increasing(sched) && AllAtMost(sched, lastDay) && AllAtLeast(sched, 0)
    requires -1 <= lastDay < day
    ensures Put(sched, day, cs) == sched + [(day, cs)]
    ensures Increasing(Put(sched, day, cs)) && AllAtMost(Put(sched, day, cs), day)
    ensures AllAtLeast(Put(sched, day, cs), 0)
  {
    FreshDay(sched, lastDay, day, cs);
  }

  /** The inner `for j in range(start, end)` over class lines: the classes
      read, and the stripped line that failed, if one did. `None` is the
      `IndexError` a line outside the list would raise. */
  function ReadClasses(vs: seq<LineView>, j: int, end: int, acc: seq<Class>): (r: Option<(seq<Class>, Option<string>)>)
    ensures r.Some? && r.value.1.None? ==> |r.value.0| == |acc| + (if end > j then end - j else 0)
    decreases end - j
  {
    if j >= end then Some((acc, None))
    else
      match PyIndex(vs, j)
      case None => None
      case Some(v) =>
        match v.entry
        case None => Some((acc, Some(v.text)))
        case Some(c) => ReadClasses(vs, j + 1, end, acc + [c])
  }

  /** What one day block does to the loop: stop with the parser's result,
      or go on from line `next` with `day` as the last day. */
  datatype Outcome = Stop(result: Option<Parsed>) | Go(next: int, day: int, sched: Schedule)

  /** The loop body for the non-blank line `v` at index `i`: the header, the
      order check, `schedule[day] = []`, the truncation check and the class
      lines. */
  function DayBlock(vs: seq<LineView>, i: int, v: LineView, lastDay: int, sched: Schedule): (r: Outcome)
    ensures r.Go? ==> v.header.Some? && r.day == v.header.value.0 && lastDay < r.day
    ensures r.Go? ==> r.next == i + 1 + v.header.value.1
  {
    match v.header
    case None => Stop(Some(Parsed(sched, Some(BadHeader(v.text)))))
    case Some((day, n)) =>
      if day <= lastDay then Stop(Some(Parsed(sched, Some(DayOutOfOrder(day, lastDay)))))
      else
        var end := i + 1 + n;
        if end > |vs| then Stop(Some(Parsed(Put(sched, day, []), Some(Truncated(day, n)))))
        else
          match ReadClasses(vs, i + 1, end, [])
          case None => Stop(None)
          case Some((cs, bad)) =>
            var next := Put(sched, day, cs);
            match bad
            case Some(l) => Stop(Some(Parsed(next, Some(BadClassLine(day, l)))))
            case None => Go(end, day, next)
  }

  /** The `while i < len(lines)` loop from line `i` on, with `lastDay` the
      last header's day and `sched` the schedule so far. */
  function ParseFrom(vs: seq<LineView>, i: int, lastDay: int, sched: Schedule): Option<Parsed>
    requires -1 <= lastDay <= MaxDay(vs)
    decreases MaxDay(vs) - lastDay, |vs| - i
  {
    if i >= |vs| then Some(Parsed(sched, None))
    else
      match PyIndex(vs, i)
      case None => None
      case Some(v) =>
        if |v.text| == 0 then ParseFrom(vs, i + 1, lastDay, sched)
        else
          match DayBlock(vs, i, v, lastDay, sched)
          case Stop(result) => result
          case Go(end, day, next) =>
            assert day <= MaxDay(vs) by {
              var k := if i >= 0 then i else |vs| + i;
              assert vs[k] == v;
            }
            ParseFrom(vs, end, day, next)
  }

  /** A day block keeps the schedule's days increasing and not negative. */
  lemma DayBlockIncreasing(vs: seq<LineView>, i: int, v: LineView, lastDay: int, sched: Schedule)
    requires -1 <= lastDay
    requires Increasing(sched) && AllAtMost(sched, lastDay) && AllAtLeast(sched, 0)
    ensures DayBlock(vs, i, v, lastDay, sched).Stop? && DayBlock(vs, i, v, lastDay, sched).result.Some? ==>
      var p := DayBlock(vs, i, v, lastDay, sched).result.value;
      Increasing(p.schedule) && AllAtLeast(p.schedule, 0)
    ensures DayBlock(vs, i, v, lastDay, sched).Go? ==>
      var g := DayBlock(vs, i, v, lastDay, sched);
      Increasing(g.sched) && AllAtMost(g.sched, g.day) && AllAtLeast(g.sched, 0)
  {
    if v.header.Some? && v.header.value.0 > lastDay {
      var (day, n) := v.header.value;
      var end := i + 1 + n;
      if end > |vs| {
        NewDay(sched, lastDay, day, []);
      } else if ReadClasses(vs, i + 1, end, []).Some? {
        NewDay(sched, lastDay, day, ReadClasses(vs, i + 1, end, []).value.0);
      }
    }
  }

  /** The schedule the loop returns keeps its days increasing, each above
      the last day before it. */
  lemma {:induction false} ParseFromIncreasing(vs: seq<LineView>, i: int, lastDay: int, sched: Schedule)
    requires -1 <= lastDay <= MaxDay(vs)
    requires Increasing(sched) && AllAtMost(sched, lastDay) && AllAtLeast(sched, 0)
    ensures ParseFrom(vs, i, lastDay, sched).Some? ==>
      Increasing(ParseFrom(vs, i, lastDay, sched).value.schedule) && AllAtLeast(ParseFrom(vs, i, lastDay, sched).value.schedule, 0)
    decreases MaxDay(vs) - lastDay, |vs| - i
  {
    if i < |vs| && PyIndex(vs, i).Some? {
      var v := PyIndex(vs, i).value;
      if |v.text| == 0 {
        ParseFromIncreasing(vs, i + 1, lastDay, sched);
      } else {
        DayBlockIncreasing(vs, i, v, lastDay, sched);
        var g := DayBlock(vs, i, v, lastDay, sched);
        if g.Go? {
          assert g.day <= MaxDay(vs) by {
            var k := if i >= 0 then i else |vs| + i;
            assert vs[k] == v;
          }
          ParseFromIncreasing(vs, g.next, g.day, g.sched);
        }
      }
    }
  }

  /** `parse_output(file)`: `None` when reading a line raises. The days of
      the schedule it returns are increasing and not negative, since the
      first must exceed -1 and every later one the one before. */
  function ParseOutput(content: string): (r: Option<Parsed>)
    ensures r.Some? ==> Increasing(r.value.schedule)
    ensures r.Some? ==> forall a :: 0 <= a < |r.value.schedule| ==> r.value.schedule[a].0 >= 0
  {
    var vs := Views(Split(content, '\n'));
    ParseFromIncreasing(vs, 0, -1, []);
    ParseFrom(vs, 0, -1, [])
  }

  /** A blank line is skipped without changing anything. */
  lemma BlankLineSkipped(vs: seq<LineView>, i: nat, lastDay: int, sched: Schedule)
    requires -1 <= lastDay <= MaxDay(vs)
    requires i < |vs| && |vs[i].text| == 0
    ensures ParseFrom(vs, i, lastDay, sched) == ParseFrom(vs, i + 1, lastDay, sched)
  {
    assert PyIndex(vs, i) == Some(vs[i]);
  }

  /** A header announcing -1 classes sends the loop back to that same
      header, which is then out of order against itself: the day is
      recorded with no classes and the parse stops there. */
  lemma MinusOneRereads(vs: seq<LineView>, i: nat, lastDay: int, sched: Schedule, day: int)
    requires -1 <= lastDay <= MaxDay(vs) && AllAtMost(sched, lastDay)
    requires i < |vs| && |vs[i].text| > 0 && vs[i].header == Some((day, -1)) && lastDay < day
    ensures ParseFrom(vs, i, lastDay, sched) == Some(Parsed(sched + [(day, [])], Some(DayOutOfOrder(day, day))))
  {
    assert PyIndex(vs, i) == Some(vs[i]);
    FreshDay(sched, lastDay, day, []);
    assert DayBlock(vs, i, vs[i], lastDay, sched) == Go(i, day, sched + [(day, [])]);
    assert day <= MaxDay(vs);
    assert DayBlock(vs, i, vs[i], day, sched + [(day, [])]) == Stop(Some(Parsed(sched + [(day, [])], Some(DayOutOfOrder(day, day)))));
  }
}
