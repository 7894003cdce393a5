/** The easy-level validator, validators/validador_facil.py: routes are
    chained from the drone's initial cell, every glyph is one move with `+`
    increasing y, there are no walls, tunnels or other drones, and every
    failure is a raised `ValueError` (or a Python `IndexError`). */
module Facil {
  import opened Wrappers
  import opened Text
  import opened Grid
  import opened RunLength

  /** A delivery point `(x, y, s)`; its id is its 1-based position. */
  datatype FPoint = FPoint(coords: Pos, slot: Option<int>)

  /** The map size and the initial position are kept as the tuples the
      source builds, of whatever length the lines give. */
  datatype FInput = FInput(size: seq<int>, initial: seq<int>, points: seq<FPoint>)

  /** A route `(point_id, start_x, start_y, directions)`. */
  datatype FRoute = FRoute(pointId: nat, start: Pos, dirs: string)

  /** The exceptions of the validator. `Malformed` stands for the ones a
      bad line or a missing field raises (`int()`, indexing); `BadFormat`
      is the explicit "Invalid route format" of output line `index`. */
  datatype FError =
    | Malformed
    | BadFormat(index: nat)
    | StartMismatch(start: Pos, current: seq<int>)
    | BadDirection(c: char)
    | OffMap(cell: Pos)
    | WrongPoint(pointId: int)
    | OutOfOrder(pointId: int)
    | TotalMismatch(count: int, expected: int)
    | NotVisited(pointId: int)

  /** `tuple(map(int, line.strip().split(';')))`. */
  function Numbers(line: string): Option<seq<int>>
  {
    ParseInts(Split(Strip(line), ';'))
  }

  /** A point line: two numbers, or three or more of which the third is
      the required order; a single number has no second coordinate. */
  function ParsePointLine(line: string): (r: Option<FPoint>)
    ensures r.Some? <==> Numbers(line).Some? && |Numbers(line).value| >= 2
    ensures r.Some? ==> r.value.coords == Pos(Numbers(line).value[0], Numbers(line).value[1])
    ensures r.Some? ==> (r.value.slot.None? <==> |Numbers(line).value| == 2)
    ensures r.Some? && r.value.slot.Some? ==> r.value.slot.value == Numbers(line).value[2]
  {
    match Numbers(line)
    case None => None
    case Some(parts) =>
      if |parts| < 2 then None
      else if |parts| == 2 then Some(FPoint(Pos(parts[0], parts[1]), None))
      else Some(FPoint(Pos(parts[0], parts[1]), Some(parts[2])))
  }

  /** The point lines `lines[3:3 + count]` (a Python slice, so a count
      past the end reads to the end), each parsed or the whole read fails. */
  function ReadPoints(lines: seq<string>, count: int): (r: Option<seq<FPoint>>)
    ensures r.Some? ==> |r.value| == |PySlice(lines, 3, 3 + count)|
    ensures r.Some? ==> forall i :: 0 <= i < |r.value| ==>
      ParsePointLine(PySlice(lines, 3, 3 + count)[i]) == Some(r.value[i])
  {
    var block := PySlice(lines, 3, 3 + count);
    match ReadBlock(block, 0, |block|, ParsePointLine)
    case Failure(_) => None
    case Success(points) => Some(points)
  }

  /** `read_input_file` on the file's lines: map size, initial cell, point
      count, then the points. The size and the initial cell are tuples of
      any length; nothing here looks inside them. */
  function ReadInput(lines: seq<string>): (r: Result<FInput, FError>)
    ensures r.Success? <==>
      && |lines| >= 3 && Numbers(lines[0]).Some? && Numbers(lines[1]).Some?
      && ParseInt(lines[2]).Some? && ReadPoints(lines, ParseInt(lines[2]).value).Some?
    ensures r.Success? ==> r.value.size == Numbers(lines[0]).value && r.value.initial == Numbers(lines[1]).value
    ensures r.Success? ==> ReadPoints(lines, ParseInt(lines[2]).value) == Some(r.value.points)
  {
    if |lines| < 3 then Failure(Malformed)
    else
      match Numbers(lines[0])
      case None => Failure(Malformed)
      case Some(size) =>
        match Numbers(lines[1])
        case None => Failure(Malformed)
        case Some(init) =>
          match ParseInt(lines[2])
          case None => Failure(Malformed)
          case Some(count) =>
            match ReadPoints(lines, count)
            case None => Failure(Malformed)
            case Some(points) => Success(FInput(size, init, points))
  }

  /** With a count that is not negative, exactly that many points are read,
      or all remaining lines when the file is shorter. */
  lemma ReadInputCount(lines: seq<string>)
    requires ReadInput(lines).Success? && ParseInt(lines[2]).value >= 0
    ensures |ReadInput(lines).value.points| ==
      if 3 + ParseInt(lines[2]).value <= |lines| then ParseInt(lines[2]).value else |lines| - 3
  {
  }

  /** The glyphs of a route, as `[><+-]+` matches them greedily. */
  function LeadingGlyphs(s: string): (n: nat)
    ensures n <= |s|
    ensures forall i :: 0 <= i < n ==> IsDirChar(s[i])
    ensures n < |s| ==> !IsDirChar(s[n])
  {
    if |s| > 0 && IsDirChar(s[0]) then 1 + LeadingGlyphs(s[1..]) else 0
  }

  /** One `(\d+)<sep>` group at the start of `s`: the value of the maximal
      digit run, which must be followed by `sep`, and the text after `sep`. */
  function Field(s: string, sep: char): (r: Option<(nat, string)>)
    ensures r.Some? ==> |r.value.1| < |s|
  {
    var a := LeadingDigits(s);
    if a == 0 || a >= |s| || s[a] != sep then None
    else Some((DigitsValue(s[..a]), s[a + 1..]))
  }

  /** A number written in decimal and followed by `sep` is read back as
      that number, and the rest of the text is left. */
  lemma FieldDecimal(n: nat, sep: char, rest: string)
    requires !IsDigit(sep)
    ensures Field(Decimal(n) + [sep] + rest, sep) == Some((n, rest))
  {
    var d := Decimal(n);
    var s := d + [sep] + rest;
    LeadingDigitsOfDecimal(n, sep, rest);
    assert s[..|d|] == d;
    assert s[|d| + 1..] == rest;
    DecimalValue(n);
  }

  /** `re.match(r'(\d+);(\d+)-(\d+);([><+-]+)', s)`: the pattern must match
      at the start of `s`; anything after the glyph run is ignored. Each
      digit group is maximal because the character after it is not a digit. */
  function MatchRoute(s: string): Option<FRoute>
  {
    match Field(s, ';')
    case None => None
    case Some((id, s1)) =>
      match Field(s1, '-')
      case None => None
      case Some((x, s2)) =>
        match Field(s2, ';')
        case None => None
        case Some((y, s3)) =>
          var g := LeadingGlyphs(s3);
          if g == 0 then None else Some(FRoute(id, Pos(x, y), s3[..g]))
  }

  /** The canonical text of a route. */
  function RenderRoute(r: FRoute): string
    requires r.start.x >= 0 && r.start.y >= 0
  {
    Decimal(r.pointId) + [';'] + (Decimal(r.start.x) + ['-'] + (Decimal(r.start.y) + [';'] + r.dirs))
  }

  lemma {:induction false} GlyphsThen(dirs: string, tail: string)
    requires forall i :: 0 <= i < |dirs| ==> IsDirChar(dirs[i])
    requires |tail| == 0 || !IsDirChar(tail[0])
    ensures LeadingGlyphs(dirs + tail) == |dirs|
    decreases |dirs|
  {
    var s := dirs + tail;
    if |dirs| > 0 {
      assert s[0] == dirs[0] && IsDirChar(s[0]);
      assert s[1..] == dirs[1..] + tail;
      GlyphsThen(dirs[1..], tail);
      assert LeadingGlyphs(s) == 1 + LeadingGlyphs(s[1..]);
    } else {
      assert s == tail;
    }
  }

  lemma Regroup(a: string, sep: char, b: string, tail: string)
    ensures (a + [sep] + b) + tail == a + [sep] + (b + tail)
  {
  }

  /** A rendered route followed by text that does not continue its glyph
      run is matched back to the same route. */
  lemma MatchRender(r: FRoute, tail: string)
    requires r.start.x >= 0 && r.start.y >= 0
    requires |r.dirs| > 0 && forall i :: 0 <= i < |r.dirs| ==> IsDirChar(r.dirs[i])
    requires |tail| == 0 || !IsDirChar(tail[0])
    ensures MatchRoute(RenderRoute(r) + tail) == Some(r)
  {
    var s3 := r.dirs + tail;
    var s2 := Decimal(r.start.y) + [';'] + s3;
    var s1 := Decimal(r.start.x) + ['-'] + s2;
    var b2 := Decimal(r.start.y) + [';'] + r.dirs;
    var b1 := Decimal(r.start.x) + ['-'] + b2;
    Regroup(Decimal(r.start.y), ';', r.dirs, tail);
    Regroup(Decimal(r.start.x), '-', b2, tail);
    Regroup(Decimal(r.pointId), ';', b1, tail);
    FieldDecimal(r.pointId, ';', s1);
    FieldDecimal(r.start.x, '-', s2);
    FieldDecimal(r.start.y, ';', s3);
    GlyphsThen(r.dirs, tail);
    assert s3[..|r.dirs|] == r.dirs;
  }

  /** `read_output_file` on the file's lines: the reported total, then one
      route per later line, matched on the line with white space stripped. */
  function ReadOutput(lines: seq<string>): (r: Result<(int, seq<FRoute>), FError>)
    ensures r.Success? <==>
      |lines| >= 1 && ParseInt(lines[0]).Some? && forall k :: 1 <= k < |lines| ==> RouteLine(lines[k]).Some?
    ensures r.Success? ==> ParseInt(lines[0]) == Some(r.value.0)
    ensures r.Success? ==> |r.value.1| == |lines| - 1
    ensures r.Success? ==> forall k :: 1 <= k < |lines| ==> RouteLine(lines[k]) == Some(r.value.1[k - 1])
  {
    if |lines| == 0 then Failure(Malformed)
    else
      match ParseInt(lines[0])
      case None => Failure(Malformed)
      case Some(total) =>
        match ReadBlock(lines, 1, |lines| - 1, RouteLine)
        case Failure(e) => Failure(if e.BadLine? then BadFormat(e.index) else Malformed)
        case Success(routes) =>
          Success((total, routes))
  }

  /** A route line as `read_output_file` reads it: stripped, then matched. */
  function RouteLine(line: string): Option<FRoute>
  {
    MatchRoute(Strip(line))
  }

  /** The displacement of one glyph: `>` and `<` change x, `+` increases y
      and `-` decreases it. */
  function Move(p: Pos, c: char): Pos
    requires IsDirChar(c)
  {
    if c == '>' then Pos(p.x + 1, p.y)
    else if c == '<' then Pos(p.x - 1, p.y)
    else if c == '+' then Pos(p.x, p.y + 1)
    else Pos(p.x, p.y - 1)
  }

  /** The cell is on a map of size `size`: the size has a width and a
      height and the cell lies inside them. */
  predicate OnMap(size: seq<int>, q: Pos)
  {
    |size| >= 2 && InBounds(q, size[0], size[1])
  }

  /** The bounds test after a move, evaluated left to right as Python's
      `or` does: `map_size[0]` is read only once `x >= 0` holds and
      `map_size[1]` only once `x` fits and `y >= 0` holds, and reading a
      missing entry raises `IndexError`. */
  function BoundsCheck(size: seq<int>, q: Pos): (r: Option<FError>)
    ensures r.None? <==> OnMap(size, q)
    ensures r.Some? && |size| >= 2 ==> r == Some(OffMap(q))
  {
    if q.x < 0 then Some(OffMap(q))
    else if |size| == 0 then Some(Malformed)
    else if q.x >= size[0] then Some(OffMap(q))
    else if q.y < 0 then Some(OffMap(q))
    else if |size| < 2 then Some(Malformed)
    else if q.y >= size[1] then Some(OffMap(q))
    else None
  }

  /** The inner loop over a route's directions: move, count, then test the
      new cell against the map. */
  function Walk(inp: FInput, p: Pos, dirs: string): (r: Result<Pos, FError>)
    ensures r.Success? ==> OnMap(inp.size, r.value) || |dirs| == 0
    decreases |dirs|
  {
    if |dirs| == 0 then Success(p)
    else if !IsDirChar(dirs[0]) then Failure(BadDirection(dirs[0]))
    else
      var q := Move(p, dirs[0]);
      match BoundsCheck(inp.size, q)
      case Some(e) => Failure(e)
      case None => Walk(inp, q, dirs[1..])
  }

  predicate Glyphs(dirs: string)
  {
    forall i :: 0 <= i < |dirs| ==> IsDirChar(dirs[i])
  }

  /** Where a glyph string leads, with no checks. */
  function Displace(p: Pos, dirs: string): Pos
    requires Glyphs(dirs)
    decreases |dirs|
  {
    if |dirs| == 0 then p else Displace(Move(p, dirs[0]), dirs[1..])
  }

  /** A walk succeeds exactly when the directions are glyphs and the cell
      after every move is on the map; it then ends where they lead. */
  lemma {:induction false} WalkReference(inp: FInput, p: Pos, dirs: string)
    ensures Walk(inp, p, dirs).Success? <==>
      Glyphs(dirs) && forall k :: 1 <= k <= |dirs| ==> OnMap(inp.size, Displace(p, dirs[..k]))
    ensures Walk(inp, p, dirs).Success? ==> Walk(inp, p, dirs).value == Displace(p, dirs)
    decreases |dirs|
  {
    if |dirs| > 0 {
      if !IsDirChar(dirs[0]) {
      } else {
        var q := Move(p, dirs[0]);
        WalkReference(inp, q, dirs[1..]);
        if Glyphs(dirs) {
          forall k | 1 <= k <= |dirs|
            ensures Displace(p, dirs[..k]) == Displace(q, dirs[1..][..k - 1])
          {
            assert dirs[..k][1..] == dirs[1..][..k - 1];
          }
          assert dirs[1..][..0] == [];
          if forall k :: 1 <= k <= |dirs[1..]| ==> OnMap(inp.size, Displace(q, dirs[1..][..k])) {
            forall k | 1 <= k <= |dirs| ensures OnMap(inp.size, Displace(p, dirs[..k])) || !OnMap(inp.size, q)
            {
              if k > 1 {
                assert 1 <= k - 1 <= |dirs[1..]|;
              }
            }
          }
          if forall k :: 1 <= k <= |dirs| ==> OnMap(inp.size, Displace(p, dirs[..k])) {
            assert Displace(p, dirs[..1]) == q;
            forall k | 1 <= k <= |dirs[1..]| ensures OnMap(inp.size, Displace(q, dirs[1..][..k]))
            {
              assert Displace(p, dirs[..k + 1]) == Displace(q, dirs[1..][..k]);
            }
          }
        } else {
          var i :| 0 <= i < |dirs| && !IsDirChar(dirs[i]);
          assert !IsDirChar(dirs[1..][i - 1]);
        }
      }
    }
  }

  /** The validator's running state: the current position (the initial
      tuple, then the cell each route ends on), the moves counted, the ids
      visited, and the order counter. */
  datatype FState = FState(pos: seq<int>, moves: int, visited: set<int>, order: int)

  /** The pair `(x, y)` a cell is compared as. */
  function Pair(p: Pos): (t: seq<int>)
    ensures |t| == 2 && t[0] == p.x && t[1] == p.y
  {
    [p.x, p.y]
  }

  /** One route: it must start on the current cell, its walk must stay on
      the map, it must end on its point, and then a special point must be
      the one the order counter expects. */
  function CheckRoute(inp: FInput, st: FState, r: FRoute): (res: Result<FState, FError>)
    ensures Pair(r.start) != st.pos ==> res == Failure(StartMismatch(r.start, st.pos))
    ensures res.Success? ==>
      && Pair(r.start) == st.pos
      && Walk(inp, r.start, r.dirs).Success?
      && PyIndex(inp.points, r.pointId - 1).Some?
      && Walk(inp, r.start, r.dirs).value == PyIndex(inp.points, r.pointId - 1).value.coords
      && (PyIndex(inp.points, r.pointId - 1).value.slot.None? || PyIndex(inp.points, r.pointId - 1).value.slot.value == st.order)
    ensures res.Success? ==>
      res.value == FState(Pair(Walk(inp, r.start, r.dirs).value), st.moves + |r.dirs|, st.visited + {r.pointId}, st.order + 1)
  {
    if Pair(r.start) != st.pos then Failure(StartMismatch(r.start, st.pos))
    else
      match Walk(inp, r.start, r.dirs)
      case Failure(e) => Failure(e)
      case Success(end) =>
        match PyIndex(inp.points, r.pointId - 1)
        case None => Failure(Malformed)
        case Some(pt) =>
          if end != pt.coords then Failure(WrongPoint(r.pointId))
          else if pt.slot.Some? && pt.slot.value != st.order then Failure(OutOfOrder(r.pointId))
          else Success(FState(Pair(end), st.moves + |r.dirs|, st.visited + {r.pointId}, st.order + 1))
  }

  /** A route that ends on the wrong cell is refused for that, even when
      its point is also out of order. */
  lemma DestinationBeforeOrder(inp: FInput, st: FState, r: FRoute)
    requires Pair(r.start) == st.pos && Walk(inp, r.start, r.dirs).Success?
    requires PyIndex(inp.points, r.pointId - 1).Some?
    requires Walk(inp, r.start, r.dirs).value != PyIndex(inp.points, r.pointId - 1).value.coords
    ensures CheckRoute(inp, st, r) == Failure(WrongPoint(r.pointId))
  {
  }

  /** One route on its own: its directions are glyphs, the cell after
      every move is on the map, its point exists, and the glyphs lead from
      its start to that point. */
  predicate RouteSound(inp: FInput, r: FRoute)
  {
    && Glyphs(r.dirs)
    && (forall k :: 1 <= k <= |r.dirs| ==> OnMap(inp.size, Displace(r.start, r.dirs[..k])))
    && PyIndex(inp.points, r.pointId - 1).Some?
    && Displace(r.start, r.dirs) == PyIndex(inp.points, r.pointId - 1).value.coords
  }

  /** A route is accepted exactly when it starts on the current position,
      is sound on its own, and meets its point's order if it has one. */
  lemma CheckRouteIff(inp: FInput, st: FState, r: FRoute)
    ensures CheckRoute(inp, st, r).Success? <==>
      && Pair(r.start) == st.pos
      && RouteSound(inp, r)
      && (PyIndex(inp.points, r.pointId - 1).value.slot.None? || PyIndex(inp.points, r.pointId - 1).value.slot.value == st.order)
    ensures CheckRoute(inp, st, r).Success? ==>
      CheckRoute(inp, st, r).value.pos == Pair(Displace(r.start, r.dirs))
  {
    WalkReference(inp, r.start, r.dirs);
  }

  function RunRoutes(inp: FInput, st: FState, routes: seq<FRoute>): Result<FState, FError>
    decreases |routes|
  {
    if |routes| == 0 then Success(st)
    else
      var next :- CheckRoute(inp, st, routes[0]);
      RunRoutes(inp, next, routes[1..])
  }

  /** Each route starts where the previous one ends, the first on the
      position `p`. */
  predicate Chained(p: seq<int>, routes: seq<FRoute>)
    decreases |routes|
  {
    |routes| == 0 ||
    (Pair(routes[0].start) == p && Glyphs(routes[0].dirs)
     && Chained(Pair(Displace(routes[0].start, routes[0].dirs)), routes[1..]))
  }

  function SumLengths(routes: seq<FRoute>): nat
  {
    if |routes| == 0 then 0 else |routes[0].dirs| + SumLengths(routes[1..])
  }

  function IdSet(routes: seq<FRoute>): (s: set<int>)
    ensures forall i :: i in s <==> exists k :: 0 <= k < |routes| && routes[k].pointId == i
  {
    set k | 0 <= k < |routes| :: routes[k].pointId
  }

  /** The `k`-th route (counted from 0) goes to a point whose required
      order, if any, is `first + k`. */
  predicate OrdersRespected(inp: FInput, routes: seq<FRoute>, first: int)
  {
    forall k :: 0 <= k < |routes| ==>
      PyIndex(inp.points, routes[k].pointId - 1).Some? &&
      (PyIndex(inp.points, routes[k].pointId - 1).value.slot.None? ||
       PyIndex(inp.points, routes[k].pointId - 1).value.slot.value == first + k)
  }

  /** After a successful loop the routes are chained from the start cell,
      every move was counted, the order counter moved once per route and the
      visited set holds the routes' ids. */
  lemma {:induction false} RunRoutesSummary(inp: FInput, st: FState, routes: seq<FRoute>)
    requires RunRoutes(inp, st, routes).Success?
    ensures Chained(st.pos, routes)
    ensures RunRoutes(inp, st, routes).value.moves == st.moves + SumLengths(routes)
    ensures RunRoutes(inp, st, routes).value.order == st.order + |routes|
    ensures RunRoutes(inp, st, routes).value.visited == st.visited + IdSet(routes)
    decreases |routes|
  {
    if |routes| > 0 {
      var r := routes[0];
      var next := CheckRoute(inp, st, r).value;
      WalkReference(inp, r.start, r.dirs);
      RunRoutesSummary(inp, next, routes[1..]);
      assert IdSet(routes) == {r.pointId} + IdSet(routes[1..]) by {
        forall i | i in IdSet(routes) ensures i in {r.pointId} + IdSet(routes[1..]) {
          var k :| 0 <= k < |routes| && routes[k].pointId == i;
          if k > 0 {
            assert routes[1..][k - 1] == routes[k];
          }
        }
        forall i | i in IdSet(routes[1..]) ensures i in IdSet(routes) {
          var k :| 0 <= k < |routes[1..]| && routes[1..][k].pointId == i;
          assert routes[k + 1] == routes[1..][k];
        }
      }
    }
  }

  /** After a successful loop the `k`-th route met any required order `k + 1`
      when the counter started at 1. */
  lemma {:induction false} RunRoutesOrders(inp: FInput, st: FState, routes: seq<FRoute>)
    requires RunRoutes(inp, st, routes).Success?
    ensures OrdersRespected(inp, routes, st.order)
    decreases |routes|
  {
    if |routes| > 0 {
      var next := CheckRoute(inp, st, routes[0]).value;
      RunRoutesOrders(inp, next, routes[1..]);
      forall k | 1 <= k < |routes|
        ensures PyIndex(inp.points, routes[k].pointId - 1).Some? &&
          (PyIndex(inp.points, routes[k].pointId - 1).value.slot.None? ||
           PyIndex(inp.points, routes[k].pointId - 1).value.slot.value == st.order + k)
      {
        assert routes[k] == routes[1..][k - 1];
      }
    }
  }

  /** Every route is sound on its own. */
  predicate AllSound(inp: FInput, routes: seq<FRoute>)
  {
    forall k :: 0 <= k < |routes| ==> RouteSound(inp, routes[k])
  }

  /** The route loop passes exactly when the routes are chained from the
      current position, each is sound on its own, and the `k`-th meets any
      order the counter's start plus `k`. */
  lemma {:induction false} RunRoutesIff(inp: FInput, st: FState, routes: seq<FRoute>)
    ensures RunRoutes(inp, st, routes).Success? <==>
      Chained(st.pos, routes) && AllSound(inp, routes) && OrdersRespected(inp, routes, st.order)
    decreases |routes|
  {
    if |routes| > 0 {
      var r, rest := routes[0], routes[1..];
      CheckRouteIff(inp, st, r);
      AllSoundCons(inp, routes);
      OrdersCons(inp, routes, st.order);
      if Glyphs(r.dirs) {
        var next := FState(Pair(Displace(r.start, r.dirs)), st.moves + |r.dirs|, st.visited + {r.pointId}, st.order + 1);
        RunRoutesIff(inp, next, rest);
        if CheckRoute(inp, st, r).Success? {
          assert CheckRoute(inp, st, r).value == next;
        }
      }
    }
  }

  lemma AllSoundCons(inp: FInput, routes: seq<FRoute>)
    requires |routes| > 0
    ensures AllSound(inp, routes) <==> RouteSound(inp, routes[0]) && AllSound(inp, routes[1..])
  {
    assert forall k :: 0 < k < |routes| ==> routes[k] == routes[1..][k - 1];
  }

  lemma OrdersCons(inp: FInput, routes: seq<FRoute>, first: int)
    requires |routes| > 0
    ensures OrdersRespected(inp, routes, first) <==>
      && PyIndex(inp.points, routes[0].pointId - 1).Some?
      && (PyIndex(inp.points, routes[0].pointId - 1).value.slot.None? ||
          PyIndex(inp.points, routes[0].pointId - 1).value.slot.value == first)
      && OrdersRespected(inp, routes[1..], first + 1)
  {
    assert forall k :: 0 < k < |routes| ==> routes[k] == routes[1..][k - 1];
  }

  /** The smallest id among 1..n that was not visited, if any. */
  function FirstUnvisited(n: int, visited: set<int>, from: int): (r: Option<int>)
    requires from >= 1
    ensures r.None? <==> forall i :: from <= i <= n ==> i in visited
    ensures r.Some? ==> from <= r.value <= n && r.value !in visited
    ensures r.Some? ==> forall i :: from <= i < r.value ==> i in visited
    decreases n - from
  {
    if from > n then None
    else if from !in visited then Some(from)
    else FirstUnvisited(n, visited, from + 1)
  }

  /** `validate_output_data`: the routes in order, then the move total,
      then the first point that was never visited. */
  function ValidateData(inp: FInput, total: int, routes: seq<FRoute>): (r: Option<FError>)
  {
    match RunRoutes(inp, FState(inp.initial, 0, {}, 1), routes)
    case Failure(e) => Some(e)
    case Success(st) =>
      if st.moves != total then Some(TotalMismatch(st.moves, total))
      else
        match FirstUnvisited(|inp.points|, st.visited, 1)
        case Some(i) => Some(NotVisited(i))
        case None => None
  }

  /** An accepted submission: its routes are chained from the initial
      position, each stays on the map and ends on its point, their direction
      counts sum to the reported total, the `k`-th route meets any required
      order `k + 1`, and every point is visited. */
  lemma ValidateAccepts(inp: FInput, total: int, routes: seq<FRoute>)
    requires ValidateData(inp, total, routes).None?
    ensures Chained(inp.initial, routes)
    ensures AllSound(inp, routes)
    ensures total == SumLengths(routes)
    ensures OrdersRespected(inp, routes, 1)
    ensures forall i :: 1 <= i <= |inp.points| ==> i in IdSet(routes)
  {
    var start := FState(inp.initial, 0, {}, 1);
    RunRoutesSummary(inp, start, routes);
    RunRoutesOrders(inp, start, routes);
    RunRoutesIff(inp, start, routes);
  }

  /** What an acceptable submission is, stated over the route list alone. */
  predicate Acceptable(inp: FInput, total: int, routes: seq<FRoute>)
  {
    && Chained(inp.initial, routes)
    && AllSound(inp, routes)
    && OrdersRespected(inp, routes, 1)
    && total == SumLengths(routes)
    && forall i :: 1 <= i <= |inp.points| ==> i in IdSet(routes)
  }

  /** `validate_output_data` raises nothing exactly when the submission is
      acceptable. */
  lemma ValidIff(inp: FInput, total: int, routes: seq<FRoute>)
    ensures ValidateData(inp, total, routes).None? <==> Acceptable(inp, total, routes)
  {
    var start := FState(inp.initial, 0, {}, 1);
    RunRoutesIff(inp, start, routes);
    if RunRoutes(inp, start, routes).Success? {
      RunRoutesSummary(inp, start, routes);
      assert {} + IdSet(routes) == IdSet(routes);
    }
  }

  /** A submission whose routes all pass is refused for its total before
      its coverage is looked at. */
  lemma TotalBeforeCoverage(inp: FInput, total: int, routes: seq<FRoute>)
    requires RunRoutes(inp, FState(inp.initial, 0, {}, 1), routes).Success?
    requires total != SumLengths(routes)
    ensures ValidateData(inp, total, routes) == Some(TotalMismatch(SumLengths(routes), total))
  {
    RunRoutesSummary(inp, FState(inp.initial, 0, {}, 1), routes);
  }

  /** `main` without its printing: read both files, then validate. */
  function Judge(inputLines: seq<string>, outputLines: seq<string>): (r: Option<FError>)
    ensures ReadInput(inputLines).Failure? ==> r == Some(ReadInput(inputLines).error)
    ensures ReadInput(inputLines).Success? && ReadOutput(outputLines).Failure? ==> r == Some(ReadOutput(outputLines).error)
  {
    match (ReadInput(inputLines), ReadOutput(outputLines))
    case (Failure(e), _) => Some(e)
    case (_, Failure(e)) => Some(e)
    case (Success(inp), Success(out)) => ValidateData(inp, out.0, out.1)
  }
}
