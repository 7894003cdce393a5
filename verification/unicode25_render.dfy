/** The canonical text of a timetable, and the proof that the parser of
    validators/unicode25.py reads it back unchanged: every schedule whose
    days are increasing and not negative has a submission text that
    `parse_output` accepts without a format error. */
module Unicode25Render {
  import opened Wrappers
  import opened Text
  import opened Unicode25Parse

  function HeaderText(day: int, count: int): string
  {
    Join([IntString(day), IntString(count)], ' ')
  }

  function ClassText(c: Class): string
  {
    Join(IntStrings([c.prof, c.subject, c.start, c.end]), ' ')
  }

  /** The lines of a submission: for each day its header, then one line per
      class. The text of a header line and of a class line is left to
      `header` and `entry`, so that the layout can be reasoned about apart
      from the digits. */
  function Layout(s: Schedule, header: (int, int) -> string, entry: Class -> string): seq<string>
  {
    if |s| == 0 then [] else DayLayout(s[0].0, s[0].1, header, entry) + Layout(s[1..], header, entry)
  }

  function DayLayout(day: int, cs: seq<Class>, header: (int, int) -> string, entry: Class -> string): (r: seq<string>)
    ensures |r| == 1 + |cs| && r[0] == header(day, |cs|)
    ensures forall k :: 0 <= k < |cs| ==> r[1 + k] == entry(cs[k])
  {
    [header(day, |cs|)] + seq(|cs|, k requires 0 <= k < |cs| => entry(cs[k]))
  }

  function RenderLines(s: Schedule): seq<string>
  {
    Layout(s, HeaderText, ClassText)
  }

  /** The submission text: the lines joined by newlines. */
  function Render(s: Schedule): string
  {
    Join(RenderLines(s), '\n')
  }

  lemma IntWords(xs: seq<int>)
    ensures forall k :: 0 <= k < |IntStrings(xs)| ==> IsWord(IntStrings(xs)[k])
  {
    forall k | 0 <= k < |xs| ensures IsWord(IntStrings(xs)[k]) {
      IntStringWord(xs[k]);
    }
  }

  lemma IntsHaveNo(xs: seq<int>, c: char)
    requires c != '-' && !IsDigit(c)
    ensures forall k :: 0 <= k < |IntStrings(xs)| ==> c !in IntStrings(xs)[k]
  {
    forall k | 0 <= k < |xs| ensures c !in IntStrings(xs)[k] {
      IntStringHasNo(xs[k], c);
    }
  }

  /** A line of rendered integers is read back as exactly those integers. */
  lemma IntLine(xs: seq<int>)
    requires |xs| > 0
    ensures Strip(Join(IntStrings(xs), ' ')) == Join(IntStrings(xs), ' ')
    ensures Words(Join(IntStrings(xs), ' ')) == IntStrings(xs)
    ensures ParseInts(Words(Join(IntStrings(xs), ' '))) == Some(xs)
    ensures '\n' !in Join(IntStrings(xs), ' ')
  {
    IntWords(xs);
    StripJoinedWords(IntStrings(xs));
    WordsJoin(IntStrings(xs));
    ParseIntStrings(xs);
    IntsHaveNo(xs, '\n');
    JoinHasNo(IntStrings(xs), ' ', '\n');
  }

  /** A rendered header is read back as its day and class count. */
  lemma HeaderRoundTrip(day: int, count: int)
    ensures Strip(HeaderText(day, count)) == HeaderText(day, count)
    ensures Header(HeaderText(day, count)) == Some((day, count))
    ensures |HeaderText(day, count)| > 0 && '\n' !in HeaderText(day, count)
  {
    assert IntStrings([day, count]) == [IntString(day), IntString(count)];
    IntLine([day, count]);
    IntStringWord(day);
    JoinEnds([IntString(day), IntString(count)], ' ');
  }

  /** A rendered class line is read back as its class. */
  lemma ClassRoundTrip(c: Class)
    ensures Strip(ClassText(c)) == ClassText(c)
    ensures ClassLine(ClassText(c)) == Some(c)
    ensures '\n' !in ClassText(c)
  {
    var xs := [c.prof, c.subject, c.start, c.end];
    IntLine(xs);
    var ws := Words(ClassText(c));
    assert ParseInt(ws[0]) == Some(c.prof) && ParseInt(ws[1]) == Some(c.subject);
    assert ParseInt(ws[2]) == Some(c.start) && ParseInt(ws[3]) == Some(c.end);
  }

  /** When no header or class line holds a newline, no line of the layout
      does. */
  lemma {:induction false} LayoutNoNewline(s: Schedule, header: (int, int) -> string, entry: Class -> string)
    requires forall d, n :: '\n' !in header(d, n)
    requires forall c :: '\n' !in entry(c)
    ensures NoneContain(Layout(s, header, entry), '\n')
    decreases |s|
  {
    if |s| > 0 {
      var lines := DayLayout(s[0].0, s[0].1, header, entry);
      forall k | 1 <= k < |lines| ensures '\n' !in lines[k] {
        assert lines[k] == entry(s[0].1[k - 1]);
      }
      LayoutNoNewline(s[1..], header, entry);
      NoneContainConcat(lines, Layout(s[1..], header, entry), '\n');
    }
  }

  /** The lines from `i` on are a layout: the first day's header is at `i`,
      its classes follow, and the remaining days come after them. */
  lemma DaySlice(L: seq<string>, i: nat, rest: Schedule, header: (int, int) -> string, entry: Class -> string)
    requires |rest| > 0 && i <= |L| && L[i..] == Layout(rest, header, entry)
    ensures i + 1 + |rest[0].1| <= |L|
    ensures L[i] == header(rest[0].0, |rest[0].1|)
    ensures forall k :: 0 <= k < |rest[0].1| ==> L[i + 1 + k] == entry(rest[0].1[k])
    ensures L[i + 1 + |rest[0].1|..] == Layout(rest[1..], header, entry)
  {
    var lines := DayLayout(rest[0].0, rest[0].1, header, entry);
    var tail := Layout(rest[1..], header, entry);
    assert L[i..] == lines + tail;
    assert L[i] == L[i..][0];
    forall k | 0 <= k < |rest[0].1| ensures L[i + 1 + k] == entry(rest[0].1[k]) {
      assert L[i + 1 + k] == L[i..][1 + k];
    }
    assert L[i + |lines|..] == L[i..][|lines|..];
  }

  /** The views from line `i` on show the days of `rest`, one after the
      other: a header with the day and class count, then the classes. */
  predicate RenderedAt(vs: seq<LineView>, i: nat, rest: Schedule)
    decreases |rest|
  {
    if |rest| == 0 then i == |vs|
    else
      var cs := rest[0].1;
      && i + 1 + |cs| <= |vs|
      && |vs[i].text| > 0
      && vs[i].header == Some((rest[0].0, |cs|))
      && (forall k :: 0 <= k < |cs| ==> vs[i + 1 + k].entry == Some(cs[k]))
      && RenderedAt(vs, i + 1 + |cs|, rest[1..])
  }

  /** The first day that `RenderedAt` describes, and the rest after it. */
  lemma RenderedFirst(vs: seq<LineView>, i: nat, rest: Schedule)
    requires |rest| > 0 && RenderedAt(vs, i, rest)
    ensures i + 1 + |rest[0].1| <= |vs| && |vs[i].text| > 0
    ensures vs[i].header == Some((rest[0].0, |rest[0].1|))
    ensures forall k :: 0 <= k < |rest[0].1| ==> vs[i + 1 + k].entry == Some(rest[0].1[k])
    ensures RenderedAt(vs, i + 1 + |rest[0].1|, rest[1..])
  {
  }

  /** The views of one day's lines, given those lines. */
  lemma DayViews(L: seq<string>, vs: seq<LineView>, i: nat, day: int, cs: seq<Class>,
                 header: (int, int) -> string, entry: Class -> string, view: string -> LineView)
    requires |vs| == |L| && forall k :: 0 <= k < |L| ==> vs[k] == view(L[k])
    requires forall d, n :: |view(header(d, n)).text| > 0 && view(header(d, n)).header == Some((d, n))
    requires forall c :: view(entry(c)).entry == Some(c)
    requires i + 1 + |cs| <= |L| && L[i] == header(day, |cs|)
    requires forall k :: 0 <= k < |cs| ==> L[i + 1 + k] == entry(cs[k])
    ensures |vs[i].text| > 0 && vs[i].header == Some((day, |cs|))
    ensures forall k :: 0 <= k < |cs| ==> vs[i + 1 + k].entry == Some(cs[k])
  {
    assert vs[i] == view(header(day, |cs|));
    forall k | 0 <= k < |cs| ensures vs[i + 1 + k].entry == Some(cs[k]) {
      assert vs[i + 1 + k] == view(entry(cs[k]));
    }
  }

  /** `RenderedAt` is built from its first day and the rest after it. */
  lemma RenderedCons(vs: seq<LineView>, i: nat, rest: Schedule)
    requires |rest| > 0 && i + 1 + |rest[0].1| <= |vs| && |vs[i].text| > 0
    requires vs[i].header == Some((rest[0].0, |rest[0].1|))
    requires forall k :: 0 <= k < |rest[0].1| ==> vs[i + 1 + k].entry == Some(rest[0].1[k])
    requires RenderedAt(vs, i + 1 + |rest[0].1|, rest[1..])
    ensures RenderedAt(vs, i, rest)
  {
  }

  /** Viewing a layout line by line shows its days, provided a header line
      is seen as its header and a class line as its class. */
  lemma {:induction false} LayoutViews(L: seq<string>, vs: seq<LineView>, i: nat, rest: Schedule,
                                       header: (int, int) -> string, entry: Class -> string, view: string -> LineView)
    requires |vs| == |L| && forall k :: 0 <= k < |L| ==> vs[k] == view(L[k])
    requires forall d, n :: |view(header(d, n)).text| > 0 && view(header(d, n)).header == Some((d, n))
    requires forall c :: view(entry(c)).entry == Some(c)
    requires i <= |L| && L[i..] == Layout(rest, header, entry)
    ensures RenderedAt(vs, i, rest)
    decreases |rest|
  {
    if |rest| == 0 {
      assert |L[i..]| == 0;
    } else {
      var cs := rest[0].1;
      DaySlice(L, i, rest, header, entry);
      DayViews(L, vs, i, rest[0].0, cs, header, entry, view);
      LayoutViews(L, vs, i + 1 + |cs|, rest[1..], header, entry, view);
      RenderedCons(vs, i, rest);
    }
  }

  lemma RenderNoNewline(s: Schedule)
    ensures NoneContain(RenderLines(s), '\n')
  {
    forall d, n ensures '\n' !in HeaderText(d, n) {
      HeaderRoundTrip(d, n);
    }
    forall c ensures '\n' !in ClassText(c) {
      ClassRoundTrip(c);
    }
    LayoutNoNewline(s, HeaderText, ClassText);
  }

  /** The views of the rendered lines show the schedule's days. */
  lemma RenderedViews(s: Schedule)
    ensures RenderedAt(Views(RenderLines(s)), 0, s)
  {
    var L := RenderLines(s);
    forall d, n ensures |View(HeaderText(d, n)).text| > 0 && View(HeaderText(d, n)).header == Some((d, n)) {
      HeaderRoundTrip(d, n);
    }
    forall c ensures View(ClassText(c)).entry == Some(c) {
      ClassRoundTrip(c);
    }
    assert L[0..] == L;
    LayoutViews(L, Views(L), 0, s, HeaderText, ClassText, View);
  }

  /** Rendered class lines are read as exactly those classes. */
  lemma {:induction false} ReadRendered(vs: seq<LineView>, j: int, acc: seq<Class>, cs: seq<Class>)
    requires 0 <= j && j + |cs| <= |vs|
    requires forall k :: 0 <= k < |cs| ==> vs[j + k].entry == Some(cs[k])
    ensures ReadClasses(vs, j, j + |cs|, acc) == Some((acc + cs, None))
    decreases |cs|
  {
    if |cs| == 0 {
      assert acc + cs == acc;
    } else {
      assert vs[j].entry == Some(cs[0]);
      forall k | 0 <= k < |cs[1..]| ensures vs[j + 1 + k].entry == Some(cs[1..][k]) {
        assert vs[j + (k + 1)].entry == Some(cs[k + 1]);
      }
      ReadRendered(vs, j + 1, acc + [cs[0]], cs[1..]);
      assert acc + [cs[0]] + cs[1..] == acc + cs;
    }
  }

  /** One rendered day: its header is accepted, its classes are read, and
      parsing carries on after them with the day appended. */
  lemma ParseDay(vs: seq<LineView>, i: nat, lastDay: int, sched: Schedule, day: int, cs: seq<Class>)
    requires i + 1 + |cs| <= |vs| && |vs[i].text| > 0 && vs[i].header == Some((day, |cs|))
    requires forall k :: 0 <= k < |cs| ==> vs[i + 1 + k].entry == Some(cs[k])
    requires -1 <= lastDay < day <= MaxDay(vs)
    requires AllAtMost(sched, lastDay)
    ensures AllAtMost(sched + [(day, cs)], day)
    ensures ParseFrom(vs, i, lastDay, sched) == ParseFrom(vs, i + 1 + |cs|, day, sched + [(day, cs)])
  {
    assert PyIndex(vs, i) == Some(vs[i]);
    DayBlockRendered(vs, i, lastDay, sched, day, cs);
    FreshDay(sched, lastDay, day, cs);
  }

  /** The loop body on a rendered day goes on after its classes, with the
      day and its classes appended. */
  lemma DayBlockRendered(vs: seq<LineView>, i: nat, lastDay: int, sched: Schedule, day: int, cs: seq<Class>)
    requires i + 1 + |cs| <= |vs| && vs[i].header == Some((day, |cs|))
    requires forall k :: 0 <= k < |cs| ==> vs[i + 1 + k].entry == Some(cs[k])
    requires lastDay < day && AllAtMost(sched, lastDay)
    ensures DayBlock(vs, i, vs[i], lastDay, sched) == Go(i + 1 + |cs|, day, sched + [(day, cs)])
  {
    ReadRendered(vs, i + 1, [], cs);
    assert [] + cs == cs;
    FreshDay(sched, lastDay, day, cs);
  }

  /** Days above `after`, each above the one before. */
  predicate Ascending(s: Schedule, after: int)
    decreases |s|
  {
    |s| == 0 || (s[0].0 > after && Ascending(s[1..], s[0].0))
  }

  lemma {:induction false} IncreasingAscending(s: Schedule, after: int)
    requires Increasing(s) && (|s| > 0 ==> s[0].0 > after)
    ensures Ascending(s, after)
    decreases |s|
  {
    if |s| > 1 {
      assert s[1..][0] == s[1];
      IncreasingAscending(s[1..], s[0].0);
    }
  }

  lemma ConsTail<T>(a: seq<T>, r: seq<T>)
    requires |r| > 0
    ensures a + [r[0]] + r[1..] == a + r
  {
  }

  /** From line `i` on, the views of the rendering of `rest` are parsed as
      `rest`, appended to the schedule so far. */
  lemma {:induction false} ParseRendered(vs: seq<LineView>, i: nat, lastDay: int, sched: Schedule, rest: Schedule)
    requires RenderedAt(vs, i, rest)
    requires -1 <= lastDay <= MaxDay(vs) && AllAtMost(sched, lastDay)
    requires Ascending(rest, lastDay)
    ensures ParseFrom(vs, i, lastDay, sched) == Some(Parsed(sched + rest, None))
    decreases |rest|
  {
    if |rest| == 0 {
      assert sched + rest == sched;
    } else {
      var day, cs := rest[0].0, rest[0].1;
      RenderedFirst(vs, i, rest);
      FreshDay(sched, lastDay, day, cs);
      ParseRendered(vs, i + 1 + |cs|, day, sched + [(day, cs)], rest[1..]);
      ParseDay(vs, i, lastDay, sched, day, cs);
      ConsTail(sched, rest);
    }
  }

  /** `parse_output` reads the rendering of a schedule back as that
      schedule, with no format error, whenever its days are increasing and
      not negative. */
  lemma ParseRender(s: Schedule)
    requires Increasing(s) && AllAtLeast(s, 0)
    ensures ParseOutput(Render(s)) == Some(Parsed(s, None))
  {
    var lines := RenderLines(s);
    if |s| == 0 {
      assert Split(Render(s), '\n') == [[]];
      var vs := Views([[]]);
      assert vs[0].text == [];
      assert ParseFrom(vs, 1, -1, []) == Some(Parsed([], None));
    } else {
      assert |lines| > 0;
      RenderNoNewline(s);
      SplitJoin(lines, '\n');
      RenderedViews(s);
      IncreasingAscending(s, -1);
      ParseRendered(Views(lines), 0, -1, [], s);
      assert [] + s == s;
    }
  }
}
