/** Submission checking of the drone-delivery challenge (final variant):
    `parse_route`, `contains_all_dpoints`, `validate_output` and the size
    table of `score` in validators/unicode24.py. */
module Unicode24 {
  import opened Wrappers
  import opened Text
  import opened Grid
  import opened RunLength
  import opened Unicode24Map
  import opened Unicode24Sim

  /** One submitted line `id;x,y;moves`. The origin is the integer tuple
      the source builds, of whatever length the line gives. */
  datatype Route = Route(pointId: int, origin: seq<int>, movs: string)

  /** The origin as a cell, for a route whose origin is a pair. */
  function Start(route: Route): Pos
    requires |route.origin| == 2
  {
    CellOf(route.origin)
  }

  /** Why a submission is refused. `Raised` stands for the exceptions that
      escape `validate_output`: a malformed line, or an id with no point.
      `Unpacked` is the `ValueError` of `col, row = pos` on an origin that is
      not a pair, which `traverse_path` catches and returns as its error. */
  datatype Rejection =
    | Moves(e: SimError)
    | Unpacked(origin: seq<int>)
    | SlotMismatch(pointId: int, slot: int, found: int)
    | WrongDestination(pointId: int, origin: seq<int>, actual: seq<int>, expected: Pos)
    | CountMismatch(diff: nat)
    | MissingPoints
    | Raised

  /** `parse_route`: exactly three `;`-separated fields, an integer id, a
      `,`-separated tuple of integers of any length, and the move text with
      surrounding white space removed. */
  function ParseRoute(line: string): (r: Option<Route>)
    ensures r.Some? <==>
      && |Split(line, ';')| == 3
      && ParseInt(Split(line, ';')[0]).Some?
      && ParseInts(Split(Split(line, ';')[1], ',')).Some?
    ensures r.Some? ==>
      && Some(r.value.pointId) == ParseInt(Split(line, ';')[0])
      && Some(r.value.origin) == ParseInts(Split(Split(line, ';')[1], ','))
      && r.value.movs == Strip(Split(line, ';')[2])
    ensures r.Some? ==> |r.value.origin| >= 1
  {
    var f := Split(line, ';');
    if |f| != 3 then None
    else
      match (ParseInt(f[0]), ParseInts(Split(f[1], ',')))
      case (Some(id), Some(origin)) => Some(Route(id, origin, Strip(f[2])))
      case _ => None
  }

  /** The canonical text of a route line. */
  function RenderRoute(r: Route): string
  {
    IntString(r.pointId) + [';'] + Join(IntStrings(r.origin), ',') + [';'] + r.movs
  }

  /** Reading back a rendered tuple gives the tuple; it holds no `;`. */
  lemma ParseRenderOrigin(xs: seq<int>)
    requires |xs| >= 1
    ensures ParseInts(Split(Join(IntStrings(xs), ','), ',')) == Some(xs)
    ensures ';' !in Join(IntStrings(xs), ',')
  {
    forall k | 0 <= k < |xs| ensures ',' !in IntStrings(xs)[k] && ';' !in IntStrings(xs)[k] {
      IntStringHasNo(xs[k], ',');
      IntStringHasNo(xs[k], ';');
    }
    SplitJoin(IntStrings(xs), ',');
    ParseIntStrings(xs);
    JoinHasNo(IntStrings(xs), ',', ';');
  }

  lemma SplitTriple(a: string, b: string, c: string, sep: char)
    requires sep !in a && sep !in b && sep !in c
    ensures Split(a + [sep] + b + [sep] + c, sep) == [a, b, c]
  {
    var tail := b + [sep] + c;
    assert a + [sep] + b + [sep] + c == a + [sep] + tail;
    SplitNoSep(c, sep);
    SplitPrefix(b, c, sep);
    SplitPrefix(a, tail, sep);
  }

  /** Reading back a rendered route gives the route, when its origin is a
      tuple of at least one integer and its move text has no `;` and no
      surrounding white space. */
  lemma ParseRenderRoute(r: Route)
    requires |r.origin| >= 1
    requires ';' !in r.movs && Strip(r.movs) == r.movs
    ensures ParseRoute(RenderRoute(r)) == Some(r)
  {
    var id := IntString(r.pointId);
    var cell := Join(IntStrings(r.origin), ',');
    IntStringHasNo(r.pointId, ';');
    ParseRenderOrigin(r.origin);
    SplitTriple(id, cell, r.movs, ';');
    assert RenderRoute(r) == id + [';'] + cell + [';'] + r.movs;
    ParseIntString(r.pointId);
  }

  /** What `validate_output` carries from line to line: the summed moves,
      the ids visited, the 1-based slot of the next route, and the other
      drones. */
  datatype Progress = Progress(total: int, visited: seq<int>, cursor: int, drones: seq<Drone>)

  /** The point a route names, with Python indexing of `delivery_points[id - 1]`. */
  function PointOf(m: MapConfig, id: int): Option<Point>
  {
    PyIndex(m.points, id - 1)
  }

  /** The point's slot constraint allows it at `cursor`. */
  predicate SlotAllows(pt: Point, cursor: int)
  {
    pt.slot.None? || pt.slot.value == cursor
  }

  /** The checks on one route, in order: the point must exist, its slot must
      match the cursor, the moves must replay, and they must end on the point.
      An origin that is not a pair is returned unchanged by a route without
      elementary moves, and so never equals the point's cell; the first
      elementary move fails to unpack it. An accepted route advances the
      cursor, is recorded as visited and adds its token counts to the total. */
  function CheckRoute(m: MapConfig, route: Route, p: Progress): (r: Result<Progress, Rejection>)
    ensures r.Success? ==> PointOf(m, route.pointId).Some? && SlotAllows(PointOf(m, route.pointId).value, p.cursor)
    ensures r.Success? ==> |route.origin| == 2
    ensures r.Success? ==> r.value.cursor == p.cursor + 1 && r.value.visited == p.visited + [route.pointId]
    ensures r.Success? ==> r.value.total == p.total + TotalCount(Tokens(route.movs))
  {
    match PointOf(m, route.pointId)
    case None => Failure(Raised)
    case Some(pt) =>
      if pt.slot.Some? && p.cursor != pt.slot.value then Failure(SlotMismatch(route.pointId, pt.slot.value, p.cursor))
      else if |route.origin| != 2 then
        if |Expand(Tokens(route.movs))| == 0 then Failure(WrongDestination(route.pointId, route.origin, route.origin, pt.coords))
        else Failure(Unpacked(route.origin))
      else
        match TraversePath(m, Start(route), route.movs, p.drones)
        case Failure(e) => Failure(Moves(e))
        case Success(sim) =>
          if sim.pos != pt.coords then Failure(WrongDestination(route.pointId, route.origin, Coords(sim.pos), pt.coords))
          else
            TraversePathMoves(m, Start(route), route.movs, p.drones);
            Success(Progress(p.total + sim.moves, p.visited + [route.pointId], p.cursor + 1, sim.drones))
  }

  /** The order of the checks on one route: a missing point raises, a slot
      mismatch is reported before the moves are replayed, a replay failure
      before the destination is compared; a route is accepted exactly when
      all four checks pass, and the other drones then stand where the
      replay left them. */
  lemma CheckRouteOrder(m: MapConfig, route: Route, p: Progress)
    ensures PointOf(m, route.pointId).None? ==> CheckRoute(m, route, p) == Failure(Raised)
    ensures PointOf(m, route.pointId).Some? && !SlotAllows(PointOf(m, route.pointId).value, p.cursor) ==>
      CheckRoute(m, route, p) == Failure(SlotMismatch(route.pointId, PointOf(m, route.pointId).value.slot.value, p.cursor))
    ensures (PointOf(m, route.pointId).Some? && SlotAllows(PointOf(m, route.pointId).value, p.cursor) &&
             |route.origin| != 2) ==>
      CheckRoute(m, route, p) ==
        if |Expand(Tokens(route.movs))| == 0
        then Failure(WrongDestination(route.pointId, route.origin, route.origin, PointOf(m, route.pointId).value.coords))
        else Failure(Unpacked(route.origin))
    ensures (PointOf(m, route.pointId).Some? && SlotAllows(PointOf(m, route.pointId).value, p.cursor) &&
             |route.origin| == 2 && TraversePath(m, Start(route), route.movs, p.drones).Failure?) ==>
      CheckRoute(m, route, p) == Failure(Moves(TraversePath(m, Start(route), route.movs, p.drones).error))
    ensures CheckRoute(m, route, p).Success? <==>
      && PointOf(m, route.pointId).Some?
      && SlotAllows(PointOf(m, route.pointId).value, p.cursor)
      && |route.origin| == 2
      && TraversePath(m, Start(route), route.movs, p.drones).Success?
      && TraversePath(m, Start(route), route.movs, p.drones).value.pos == PointOf(m, route.pointId).value.coords
    ensures CheckRoute(m, route, p).Success? ==>
      CheckRoute(m, route, p).value.drones == TraversePath(m, Start(route), route.movs, p.drones).value.drones
  {
  }

  predicate IsBlank(line: string)
  {
    Strip(line) == []
  }

  /** The loop of `validate_output` over the lines after the first: blank
      lines are skipped, any other line is parsed and checked, and the
      first failure ends the loop. */
  function RunRoutes(m: MapConfig, lines: seq<string>, p: Progress): Result<Progress, Rejection>
    decreases |lines|
  {
    if |lines| == 0 then Success(p)
    else if IsBlank(lines[0]) then RunRoutes(m, lines[1..], p)
    else
      match ParseRoute(lines[0])
      case None => Failure(Raised)
      case Some(route) =>
        match CheckRoute(m, route, p)
        case Failure(e) => Failure(e)
        case Success(next) => RunRoutes(m, lines[1..], next)
  }

  /** The routes of the non-blank lines, if every one of them parses. */
  function ParsedRoutes(lines: seq<string>): Option<seq<Route>>
    decreases |lines|
  {
    if |lines| == 0 then Some([])
    else if IsBlank(lines[0]) then ParsedRoutes(lines[1..])
    else
      match (ParseRoute(lines[0]), ParsedRoutes(lines[1..]))
      case (Some(r), Some(rs)) => Some([r] + rs)
      case _ => None
  }

  function Ids(rs: seq<Route>): (ids: seq<int>)
    ensures |ids| == |rs| && forall k :: 0 <= k < |rs| ==> ids[k] == rs[k].pointId
  {
    seq(|rs|, k requires 0 <= k < |rs| => rs[k].pointId)
  }

  /** The summed token counts of a list of routes. */
  function RoutesMoves(rs: seq<Route>): int
  {
    if |rs| == 0 then 0 else TotalCount(Tokens(rs[0].movs)) + RoutesMoves(rs[1..])
  }

  lemma RoutesCons(route: Route, rest: seq<Route>)
    ensures Ids([route] + rest) == [route.pointId] + Ids(rest)
    ensures RoutesMoves([route] + rest) == TotalCount(Tokens(route.movs)) + RoutesMoves(rest)
  {
    assert ([route] + rest)[1..] == rest;
  }

  /** A route list respects the visiting slots when the `k`-th route,
      counted from `first`, goes to a point whose slot is absent or `first + k`. */
  predicate SlotsRespected(m: MapConfig, rs: seq<Route>, first: int)
  {
    forall k :: 0 <= k < |rs| ==>
      PointOf(m, rs[k].pointId).Some? && SlotAllows(PointOf(m, rs[k].pointId).value, first + k)
  }

  /** One non-blank line that is checked successfully puts its route in
      front of the parsed routes of the rest. */
  lemma RouteStep(m: MapConfig, lines: seq<string>, p: Progress)
    requires |lines| > 0 && !IsBlank(lines[0])
    requires RunRoutes(m, lines, p).Success?
    ensures ParseRoute(lines[0]).Some? && CheckRoute(m, ParseRoute(lines[0]).value, p).Success?
    ensures RunRoutes(m, lines, p) == RunRoutes(m, lines[1..], CheckRoute(m, ParseRoute(lines[0]).value, p).value)
    ensures ParsedRoutes(lines[1..]).Some? ==> ParsedRoutes(lines) == Some([ParseRoute(lines[0]).value] + ParsedRoutes(lines[1..]).value)
    ensures CheckRoute(m, ParseRoute(lines[0]).value, p).value.cursor == p.cursor + 1
    ensures CheckRoute(m, ParseRoute(lines[0]).value, p).value.visited == p.visited + [ParseRoute(lines[0]).value.pointId]
    ensures CheckRoute(m, ParseRoute(lines[0]).value, p).value.total == p.total + TotalCount(Tokens(ParseRoute(lines[0]).value.movs))
  {
  }

  /** After a successful loop every non-blank line was a route. */
  lemma {:induction false} RunRoutesParsed(m: MapConfig, lines: seq<string>, p: Progress)
    requires RunRoutes(m, lines, p).Success?
    ensures ParsedRoutes(lines).Some?
    decreases |lines|
  {
    if |lines| > 0 {
      if IsBlank(lines[0]) {
        RunRoutesParsed(m, lines[1..], p);
      } else {
        RouteStep(m, lines, p);
        RunRoutesParsed(m, lines[1..], CheckRoute(m, ParseRoute(lines[0]).value, p).value);
      }
    }
  }

  /** After a successful loop: the cursor moved once per route; the
      visited ids are the routes' ids in order; the summed moves are the
      routes' token counts. */
  lemma {:induction false} RunRoutesSummary(m: MapConfig, lines: seq<string>, p: Progress)
    requires RunRoutes(m, lines, p).Success?
    ensures ParsedRoutes(lines).Some?
    ensures RunRoutes(m, lines, p).value.cursor == p.cursor + |ParsedRoutes(lines).value|
    ensures RunRoutes(m, lines, p).value.visited == p.visited + Ids(ParsedRoutes(lines).value)
    ensures RunRoutes(m, lines, p).value.total == p.total + RoutesMoves(ParsedRoutes(lines).value)
    decreases |lines|
  {
    RunRoutesParsed(m, lines, p);
    if |lines| > 0 {
      if IsBlank(lines[0]) {
        RunRoutesSummary(m, lines[1..], p);
      } else {
        RouteStep(m, lines, p);
        var route := ParseRoute(lines[0]).value;
        var next := CheckRoute(m, route, p).value;
        RunRoutesSummary(m, lines[1..], next);
        var result, rest := RunRoutes(m, lines[1..], next).value, ParsedRoutes(lines[1..]).value;
        RoutesCons(route, rest);
        assert result.cursor == p.cursor + |[route] + rest|;
        VisitedStep(p.visited, route.pointId, result.visited, Ids(rest));
      }
    }
  }

  lemma VisitedStep(before: seq<int>, id: int, after: seq<int>, ids: seq<int>)
    requires after == before + [id] + ids
    ensures after == before + ([id] + ids)
  {
  }

  /** After a successful loop the `k`-th route went to a point whose slot,
      if any, is the cursor it started with plus `k`. */
  lemma {:induction false} RunRoutesSlots(m: MapConfig, lines: seq<string>, p: Progress)
    requires RunRoutes(m, lines, p).Success?
    ensures ParsedRoutes(lines).Some?
    ensures SlotsRespected(m, ParsedRoutes(lines).value, p.cursor)
    decreases |lines|
  {
    if |lines| > 0 {
      if IsBlank(lines[0]) {
        RunRoutesSlots(m, lines[1..], p);
      } else {
        RouteStep(m, lines, p);
        var route := ParseRoute(lines[0]).value;
        var next := CheckRoute(m, route, p).value;
        RunRoutesSlots(m, lines[1..], next);
        SlotsCons(m, route, ParsedRoutes(lines[1..]).value, p.cursor);
      }
    }
  }

  lemma SlotsCons(m: MapConfig, route: Route, rest: seq<Route>, first: int)
    requires PointOf(m, route.pointId).Some? && SlotAllows(PointOf(m, route.pointId).value, first)
    requires SlotsRespected(m, rest, first + 1)
    ensures SlotsRespected(m, [route] + rest, first)
  {
    var rs := [route] + rest;
    forall k | 0 <= k < |rs|
      ensures PointOf(m, rs[k].pointId).Some? && SlotAllows(PointOf(m, rs[k].pointId).value, first + k)
    {
      if k > 0 {
        assert rs[k] == rest[k - 1];
      }
    }
  }

  /** `set(range(1, n + 1))`. */
  function IdRange(n: int): (s: set<int>)
    ensures forall i :: i in s <==> 1 <= i <= n
    decreases n
  {
    if n <= 0 then {} else IdRange(n - 1) + {n}
  }

  /** `contains_all_dpoints`: every id from 1 to `n` occurs in `ids`; repeats
      and other ids make no difference. */
  function ContainsAllPoints(n: int, ids: seq<int>): (r: bool)
    ensures r <==> forall i :: 1 <= i <= n ==> i in ids
  {
    var expected := IdRange(n);
    var received := set x | x in ids;
    var missing := expected - received;
    assert missing == {} <==> forall i :: 1 <= i <= n ==> i in ids by {
      if missing != {} {
        var i :| i in missing;
        assert 1 <= i <= n && i !in ids;
      } else {
        forall i | 1 <= i <= n ensures i in ids {
          assert i in expected && i !in missing;
        }
      }
    }
    missing == {}
  }

  /** The checks after the loop: the reported total first, then coverage. */
  function Finish(reported: int, p: Progress, pointCount: int): (r: Result<int, Rejection>)
    ensures r.Success? <==> reported == p.total && forall i :: 1 <= i <= pointCount ==> i in p.visited
    ensures r.Success? ==> r.value == reported
    ensures reported != p.total ==> r == Failure(CountMismatch(Abs(reported - p.total)))
  {
    if reported != p.total then Failure(CountMismatch(Abs(reported - p.total)))
    else if !ContainsAllPoints(pointCount, p.visited) then Failure(MissingPoints)
    else Success(reported)
  }

  /** `validate_output`: the first line is the reported total, the other
      lines are routes. On success the reported total is the result. */
  function ValidateOutput(m: MapConfig, content: string): Result<int, Rejection>
  {
    var lines := Split(content, '\n');
    match ParseInt(lines[0])
    case None => Failure(Raised)
    case Some(reported) =>
      match RunRoutes(m, lines[1..], Progress(0, [], 1, m.drones))
      case Failure(e) => Failure(e)
      case Success(p) => Finish(reported, p, |m.points|)
  }

  /** An accepted submission: its first line is the total it returns, which
      equals the summed token counts of its routes; the routes deliver, each
      replaying and ending on its point; the `k`-th route meets any slot
      `k + 1`; and every point id from 1 to the number of points is the
      target of some route. */
  lemma ValidateAccepts(m: MapConfig, content: string)
    requires ValidateOutput(m, content).Success?
    ensures ParseInt(Split(content, '\n')[0]) == Some(ValidateOutput(m, content).value)
    ensures ParsedRoutes(Split(content, '\n')[1..]).Some?
    ensures ValidateOutput(m, content).value == RoutesMoves(ParsedRoutes(Split(content, '\n')[1..]).value)
    ensures Delivers(m, ParsedRoutes(Split(content, '\n')[1..]).value, 1, m.drones)
    ensures SlotsRespected(m, ParsedRoutes(Split(content, '\n')[1..]).value, 1)
    ensures forall i :: 1 <= i <= |m.points| ==> i in Ids(ParsedRoutes(Split(content, '\n')[1..]).value)
  {
    var lines := Split(content, '\n');
    var start := Progress(0, [], 1, m.drones);
    var reported := ParseInt(lines[0]).value;
    var p := RunRoutes(m, lines[1..], start).value;
    assert ValidateOutput(m, content) == Finish(reported, p, |m.points|);
    RunRoutesSummary(m, lines[1..], start);
    RunRoutesSlots(m, lines[1..], start);
    RunRoutesIff(m, lines[1..], start);
    assert p.visited == Ids(ParsedRoutes(lines[1..]).value) by {
      assert [] + Ids(ParsedRoutes(lines[1..]).value) == Ids(ParsedRoutes(lines[1..]).value);
    }
  }

  /** One route on its own, as `validate_output` wants it: its point
      exists and allows the slot `cursor`, and its moves replay among the
      drones `drones` and end on that point. */
  predicate RouteArrives(m: MapConfig, route: Route, cursor: int, drones: seq<Drone>)
  {
    && PointOf(m, route.pointId).Some?
    && SlotAllows(PointOf(m, route.pointId).value, cursor)
    && |route.origin| == 2
    && TraversePath(m, Start(route), route.movs, drones).Success?
    && TraversePath(m, Start(route), route.movs, drones).value.pos == PointOf(m, route.pointId).value.coords
  }

  /** Every route arrives, the first at slot `first` among `drones`, each
      later one at the next slot among the drones the previous replay left. */
  predicate Delivers(m: MapConfig, rs: seq<Route>, first: int, drones: seq<Drone>)
    decreases |rs|
  {
    |rs| == 0 ||
    (RouteArrives(m, rs[0], first, drones)
     && Delivers(m, rs[1..], first + 1, TraversePath(m, Start(rs[0]), rs[0].movs, drones).value.drones))
  }

  /** The route loop passes exactly when every non-blank line is a route
      and the routes deliver from the loop's cursor and drones. */
  lemma {:induction false} RunRoutesIff(m: MapConfig, lines: seq<string>, p: Progress)
    ensures RunRoutes(m, lines, p).Success? <==> LoopDelivers(m, lines, p)
    decreases |lines|
  {
    if |lines| > 0 {
      if IsBlank(lines[0]) {
        RunRoutesIff(m, lines[1..], p);
        BlankIff(m, lines, p);
      } else if ParseRoute(lines[0]).None? {
        LineStep(m, lines, p);
      } else if CheckRoute(m, ParseRoute(lines[0]).value, p).Failure? {
        RejectedIff(m, lines, p);
      } else {
        var next := CheckRoute(m, ParseRoute(lines[0]).value, p).value;
        RunRoutesIff(m, lines[1..], next);
        AcceptedIff(m, lines, p);
      }
    }
  }

  /** Every non-blank line is a route and the routes deliver from the
      cursor and drones of `p`. */
  predicate LoopDelivers(m: MapConfig, lines: seq<string>, p: Progress)
  {
    ParsedRoutes(lines).Some? && Delivers(m, ParsedRoutes(lines).value, p.cursor, p.drones)
  }

  lemma BlankIff(m: MapConfig, lines: seq<string>, p: Progress)
    requires |lines| > 0 && IsBlank(lines[0])
    requires RunRoutes(m, lines[1..], p).Success? <==> LoopDelivers(m, lines[1..], p)
    ensures RunRoutes(m, lines, p).Success? <==> LoopDelivers(m, lines, p)
  {
    LineStep(m, lines, p);
  }

  lemma RejectedIff(m: MapConfig, lines: seq<string>, p: Progress)
    requires |lines| > 0 && !IsBlank(lines[0]) && ParseRoute(lines[0]).Some?
    requires CheckRoute(m, ParseRoute(lines[0]).value, p).Failure?
    ensures !RunRoutes(m, lines, p).Success? && !LoopDelivers(m, lines, p)
  {
    var route := ParseRoute(lines[0]).value;
    LineStep(m, lines, p);
    CheckRouteArrives(m, route, p);
    if ParsedRoutes(lines[1..]).Some? {
      DeliversCons(m, route, ParsedRoutes(lines[1..]).value, p.cursor, p.drones);
    }
  }

  lemma AcceptedIff(m: MapConfig, lines: seq<string>, p: Progress)
    requires |lines| > 0 && !IsBlank(lines[0]) && ParseRoute(lines[0]).Some?
    requires CheckRoute(m, ParseRoute(lines[0]).value, p).Success?
    requires var next := CheckRoute(m, ParseRoute(lines[0]).value, p).value;
      RunRoutes(m, lines[1..], next).Success? <==> LoopDelivers(m, lines[1..], next)
    ensures RunRoutes(m, lines, p).Success? <==> LoopDelivers(m, lines, p)
  {
    var route := ParseRoute(lines[0]).value;
    var next := CheckRoute(m, route, p).value;
    LineAccepted(m, lines, p);
    CheckRouteArrives(m, route, p);
    if ParsedRoutes(lines[1..]).Some? {
      DeliversAfter(m, route, ParsedRoutes(lines[1..]).value, p.cursor, p.drones, next.cursor, next.drones);
    }
  }

  /** An accepted route line: the loop goes on from the checked progress,
      and the route heads the route list. */
  lemma LineAccepted(m: MapConfig, lines: seq<string>, p: Progress)
    requires |lines| > 0 && !IsBlank(lines[0]) && ParseRoute(lines[0]).Some?
    requires CheckRoute(m, ParseRoute(lines[0]).value, p).Success?
    ensures RunRoutes(m, lines, p) == RunRoutes(m, lines[1..], CheckRoute(m, ParseRoute(lines[0]).value, p).value)
    ensures ParsedRoutes(lines[1..]).Some? ==> ParsedRoutes(lines) == Some([ParseRoute(lines[0]).value] + ParsedRoutes(lines[1..]).value)
    ensures ParsedRoutes(lines[1..]).None? ==> ParsedRoutes(lines).None?
  {
  }

  /** After a route that arrives, delivering the rest from the next slot
      among the drones its replay left is delivering the lot. */
  lemma DeliversAfter(m: MapConfig, route: Route, rest: seq<Route>, first: int, drones: seq<Drone>, next: int, after: seq<Drone>)
    requires RouteArrives(m, route, first, drones)
    requires next == first + 1 && after == TraversePath(m, Start(route), route.movs, drones).value.drones
    ensures Delivers(m, [route] + rest, first, drones) <==> Delivers(m, rest, next, after)
  {
    DeliversCons(m, route, rest, first, drones);
  }

  /** One line of the loop: a blank line is skipped by both the loop and
      the route list; an unparsable line stops both; a route is checked and
      the loop goes on from there, and it heads the route list. */
  lemma LineStep(m: MapConfig, lines: seq<string>, p: Progress)
    requires |lines| > 0
    ensures IsBlank(lines[0]) ==>
      RunRoutes(m, lines, p) == RunRoutes(m, lines[1..], p) && ParsedRoutes(lines) == ParsedRoutes(lines[1..])
    ensures !IsBlank(lines[0]) && ParseRoute(lines[0]).None? ==>
      RunRoutes(m, lines, p).Failure? && ParsedRoutes(lines).None?
    ensures !IsBlank(lines[0]) && ParseRoute(lines[0]).Some? ==>
      var route := ParseRoute(lines[0]).value;
      && (CheckRoute(m, route, p).Failure? ==> RunRoutes(m, lines, p).Failure?)
      && (CheckRoute(m, route, p).Success? ==> RunRoutes(m, lines, p) == RunRoutes(m, lines[1..], CheckRoute(m, route, p).value))
      && ParsedRoutes(lines) == (if ParsedRoutes(lines[1..]).Some? then Some([route] + ParsedRoutes(lines[1..]).value) else None)
  {
  }

  /** A route is accepted exactly when it arrives; the cursor then moves on
      by one and the drones stand where its replay left them. */
  lemma CheckRouteArrives(m: MapConfig, route: Route, p: Progress)
    ensures CheckRoute(m, route, p).Success? <==> RouteArrives(m, route, p.cursor, p.drones)
    ensures CheckRoute(m, route, p).Success? ==>
      && CheckRoute(m, route, p).value.cursor == p.cursor + 1
      && CheckRoute(m, route, p).value.drones == TraversePath(m, Start(route), route.movs, p.drones).value.drones
  {
  }

  lemma DeliversCons(m: MapConfig, route: Route, rest: seq<Route>, first: int, drones: seq<Drone>)
    ensures Delivers(m, [route] + rest, first, drones) <==>
      RouteArrives(m, route, first, drones)
      && Delivers(m, rest, first + 1, TraversePath(m, Start(route), route.movs, drones).value.drones)
  {
    assert ([route] + rest)[0] == route && ([route] + rest)[1..] == rest;
  }

  /** What an acceptable submission is, stated over its lines: a first line
      that is an integer, a route on every other non-blank line, routes that
      deliver from slot 1 among the map's drones, a first line equal to the
      routes' summed token counts, and every point id from 1 to the number
      of points the target of some route. */
  predicate Acceptable(m: MapConfig, content: string)
  {
    var lines := Split(content, '\n');
    && ParseInt(lines[0]).Some?
    && ParsedRoutes(lines[1..]).Some?
    && Delivers(m, ParsedRoutes(lines[1..]).value, 1, m.drones)
    && ParseInt(lines[0]).value == RoutesMoves(ParsedRoutes(lines[1..]).value)
    && forall i :: 1 <= i <= |m.points| ==> i in Ids(ParsedRoutes(lines[1..]).value)
  }

  /** `validate_output` accepts exactly the acceptable submissions, and
      returns their first line's total. */
  lemma ValidIff(m: MapConfig, content: string)
    ensures ValidateOutput(m, content).Success? <==> Acceptable(m, content)
    ensures ValidateOutput(m, content).Success? ==>
      ValidateOutput(m, content).value == ParseInt(Split(content, '\n')[0]).value
  {
    var lines := Split(content, '\n');
    var start := Progress(0, [], 1, m.drones);
    ValidateSteps(m, content);
    if ParseInt(lines[0]).Some? {
      RunRoutesIff(m, lines[1..], start);
      if RunRoutes(m, lines[1..], start).Success? {
        RunRoutesSummary(m, lines[1..], start);
        assert [] + Ids(ParsedRoutes(lines[1..]).value) == Ids(ParsedRoutes(lines[1..]).value);
      }
    }
  }

  /** `validate_output` raises on an unreadable first line, stops at the
      first failing route, and otherwise ends with the final checks. */
  lemma ValidateSteps(m: MapConfig, content: string)
    ensures ParseInt(Split(content, '\n')[0]).None? ==> ValidateOutput(m, content) == Failure(Raised)
    ensures ParseInt(Split(content, '\n')[0]).Some? ==>
      var lines := Split(content, '\n');
      var start := Progress(0, [], 1, m.drones);
      if RunRoutes(m, lines[1..], start).Failure? then ValidateOutput(m, content).Failure?
      else ValidateOutput(m, content) == Finish(ParseInt(lines[0]).value, RunRoutes(m, lines[1..], start).value, |m.points|)
  {
  }

  /** A blank line changes nothing: the cursor only moves on routes. */
  lemma BlankLineSkipped(m: MapConfig, line: string, lines: seq<string>, p: Progress)
    requires IsBlank(line)
    ensures RunRoutes(m, [line] + lines, p) == RunRoutes(m, lines, p)
  {
    assert ([line] + lines)[1..] == lines;
  }

  /** A route whose point demands another slot is refused before its moves
      are looked at, whatever they are. */
  lemma SlotCheckedFirst(m: MapConfig, line: string, lines: seq<string>, p: Progress)
    requires !IsBlank(line) && ParseRoute(line).Some?
    requires PointOf(m, ParseRoute(line).value.pointId).Some?
    requires !SlotAllows(PointOf(m, ParseRoute(line).value.pointId).value, p.cursor)
    ensures RunRoutes(m, [line] + lines, p) ==
      Failure(SlotMismatch(ParseRoute(line).value.pointId, PointOf(m, ParseRoute(line).value.pointId).value.slot.value, p.cursor))
  {
    assert ([line] + lines)[0] == line;
  }

  /** The dataset sizes `score` knows; any other name leaves its base
      unbound in the source. */
  function SizeBase(size: string): (r: Option<int>)
    ensures r.Some? <==> size in {"small", "medium", "big", "crazy"}
    ensures r.Some? ==> r.value >= 100
  {
    if size == "small" then Some(100)
    else if size == "medium" then Some(1000)
    else if size == "big" then Some(100000)
    else if size == "crazy" then Some(1000000)
    else None
  }
}
