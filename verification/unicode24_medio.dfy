/** The medium-level variant of the drone-delivery validator,
    validators/unicode24_medio.py. Here every character of a route is one
    move, the bounds are tested on the current cell before moving, walls are
    always present, and there are no other drones. Two comparisons in the
    source are between values of different Python types and never hold:
    the tunnel lookup and the coverage test. */
module Unicode24Medio {
  import opened Wrappers
  import opened Text
  import opened Grid
  import Unicode24Map
  import Unicode24Sim

  /** A delivery point with the id the loader gives it (its 1-based index). */
  datatype MPoint = MPoint(pointId: int, coords: Pos, slot: Option<int>)

  datatype MedioMap = MedioMap(
    width: int,
    height: int,
    initial: seq<string>,
    points: seq<MPoint>,
    walls: seq<Pos>,
    tunnels: seq<Segment>)

  /** `MapConfig.__init__` on the lines of a description file: size
      `W;H`, start, points `x;y[;s]`, then walls and tunnels, each a count
      followed by lines `x1;y1:x2;y2`. */
  function Load(lines: seq<string>): (r: Result<MedioMap, ReadError>)
    ensures r.Success? ==> forall i :: 0 <= i < |r.value.points| ==> r.value.points[i].pointId == i + 1
    ensures r.Success? ==> forall i :: 0 <= i < |r.value.points| ==>
      3 + i < |lines| && (r.value.points[i].slot.Some? <==> |Split(lines[3 + i], ';')| >= 3)
  {
    var dimLine :- NextLine(lines, 0);
    var dims :- (match ParseInts(Split(dimLine, ';'))
                 case Some(ds) => if |ds| >= 2 then Success(ds) else Failure(BadLine(0))
                 case None => Failure(BadLine(0)));
    var initLine :- NextLine(lines, 1);
    var pointCount :- ReadInt(lines, 2);
    var raw :- ReadBlock(lines, 3, RangeCount(pointCount), l => Unicode24Map.ParsePoint(l, ';'));
    var points := Number(raw);
    var k := 3 + RangeCount(pointCount);
    var wallCount :- ReadInt(lines, k);
    var segments :- ReadBlock(lines, k + 1, RangeCount(wallCount), l => Unicode24Map.ParseSegment(l, ':', ';'));
    var k2 := k + 1 + RangeCount(wallCount);
    var tunnelCount :- ReadInt(lines, k2);
    var tunnels :- ReadBlock(lines, k2 + 1, RangeCount(tunnelCount), l => Unicode24Map.ParseSegment(l, ':', ';'));
    Success(MedioMap(dims[0], dims[1], Split(initLine, ';'), points, WallList(segments), tunnels))
  }

  /** Gives the `i`-th point the id `i + 1`. */
  function Number(raw: seq<Unicode24Map.Point>): (ps: seq<MPoint>)
    ensures |ps| == |raw|
    ensures forall i :: 0 <= i < |raw| ==> ps[i] == MPoint(i + 1, raw[i].coords, raw[i].slot)
  {
    seq(|raw|, i requires 0 <= i < |raw| => MPoint(i + 1, raw[i].coords, raw[i].slot))
  }

  /** `find_point`: the first point carrying the id, if any. */
  function FindPoint(points: seq<MPoint>, id: int): (r: Option<MPoint>)
    ensures r.Some? <==> exists i :: 0 <= i < |points| && points[i].pointId == id
    ensures r.Some? ==> r.value.pointId == id && r.value in points
  {
    if |points| == 0 then None
    else if points[0].pointId == id then Some(points[0])
    else
      var r := FindPoint(points[1..], id);
      assert forall i :: 1 <= i < |points| ==> points[i] == points[1..][i - 1];
      r
  }

  /** Points numbered as the loader numbers them. */
  predicate Numbered(points: seq<MPoint>)
  {
    forall i :: 0 <= i < |points| ==> points[i].pointId == i + 1
  }

  /** On loaded points, `find_point` finds exactly the ids 1..n, and id `i`
      is the `i`-th point. */
  lemma FindNumbered(points: seq<MPoint>, id: int)
    requires Numbered(points)
    ensures FindPoint(points, id).Some? <==> 1 <= id <= |points|
    ensures FindPoint(points, id).Some? ==> FindPoint(points, id).value == points[id - 1]
  {
    if FindPoint(points, id).Some? {
      var i :| 0 <= i < |points| && points[i] == FindPoint(points, id).value;
      assert points[i].pointId == i + 1;
    }
    if 1 <= id <= |points| {
      assert points[id - 1].pointId == id;
    }
  }

  /** `has_required_position`: the point's slot, or nothing for an unknown id. */
  function RequiredSlot(m: MedioMap, id: int): (r: Option<int>)
    ensures FindPoint(m.points, id).None? ==> r.None?
    ensures FindPoint(m.points, id).Some? ==> r == FindPoint(m.points, id).value.slot
  {
    match FindPoint(m.points, id)
    case None => None
    case Some(p) => p.slot
  }

  /** `coords_of_id`: the point's cell, or nothing for an unknown id. */
  function CoordsOf(m: MedioMap, id: int): (r: Option<Pos>)
    ensures r.Some? <==> FindPoint(m.points, id).Some?
    ensures r.Some? ==> r.value == FindPoint(m.points, id).value.coords
  {
    match FindPoint(m.points, id)
    case None => None
    case Some(p) => Some(p.coords)
  }

  /** The Python values this validator compares with `==` across types: a
      set, a dict, a tuple of numbers, and a tunnel record (a dict with
      `init` and `end`). Values of different kinds are never equal. */
  datatype PyValue =
    | PySet(elems: set<int>)
    | PyDict(entries: map<int, int>)
    | PyTuple(items: seq<int>)
    | PyRecord(init: Pos, end: Pos)

  function CellValue(p: Pos): PyValue
  {
    PyTuple([p.x, p.y])
  }

  /** `tunnel_at`: the first stored tunnel record equal to the cell. A record
      is never equal to a tuple, so no tunnel is ever found. */
  function TunnelAt(tunnels: seq<Segment>, p: Pos): (r: Option<Segment>)
    ensures r.None?
  {
    if |tunnels| == 0 then None
    else
      var t := tunnels[0];
      if PyRecord(t.init, t.end) == CellValue(p) then Some(t) else TunnelAt(tunnels[1..], p)
  }

  /** Which edge a move would cross, with the cell tested on the current
      position: `X={W}`, `X=0`, `Y=0` or `Y={H}`. */
  datatype MEdge = XAtWidth(width: int) | XAtZero | YAtZero | YAtHeight(height: int)

  datatype MError = OutOfMap(edge: MEdge) | Unexpected(c: char) | WallCrash(cell: Pos)

  /** One character of `traverse_path`: the bound for that glyph is tested on
      the current cell, the drone moves (`+` up, `-` down), a tunnel would
      relocate it, and the cell it ends on must not be a wall. */
  function Step(m: MedioMap, p: Pos, c: char): (r: Result<Pos, MError>)
    ensures !IsDirChar(c) ==> r == Failure(Unexpected(c))
    ensures c == '>' && p.x + 1 >= m.width ==> r == Failure(OutOfMap(XAtWidth(m.width)))
    ensures c == '<' && p.x <= 0 ==> r == Failure(OutOfMap(XAtZero))
    ensures c == '+' && p.y <= 0 ==> r == Failure(OutOfMap(YAtZero))
    ensures c == '-' && p.y + 1 >= m.height ==> r == Failure(OutOfMap(YAtHeight(m.height)))
    ensures r.Success? ==> IsDirChar(c) && r.value == Unicode24Sim.Target(p, DirOf(c)) && r.value !in m.walls
    ensures InBounds(p, m.width, m.height) ==>
      (r.Success? <==>
        IsDirChar(c) &&
        InBounds(Unicode24Sim.Target(p, DirOf(c)), m.width, m.height) &&
        Unicode24Sim.Target(p, DirOf(c)) !in m.walls)
  {
    var moved: Result<Pos, MError> :=
      if c == '>' then (if p.x + 1 >= m.width then Failure(OutOfMap(XAtWidth(m.width))) else Success(Pos(p.x + 1, p.y)))
      else if c == '<' then (if p.x <= 0 then Failure(OutOfMap(XAtZero)) else Success(Pos(p.x - 1, p.y)))
      else if c == '+' then (if p.y <= 0 then Failure(OutOfMap(YAtZero)) else Success(Pos(p.x, p.y - 1)))
      else if c == '-' then (if p.y + 1 >= m.height then Failure(OutOfMap(YAtHeight(m.height))) else Success(Pos(p.x, p.y + 1)))
      else Failure(Unexpected(c));
    match moved
    case Failure(e) => Failure(e)
    case Success(q) =>
      var exit := TunnelAt(m.tunnels, q);
      var cell := if exit.Some? then exit.value.end else q;
      if cell in m.walls then Failure(WallCrash(cell)) else Success(cell)
  }

  /** `traverse_path`: the steps of every character in turn; the first
      failure ends the walk. */
  function Traverse(m: MedioMap, p: Pos, movs: string): (r: Result<Pos, MError>)
    ensures |movs| == 0 ==> r == Success(p)
    ensures InBounds(p, m.width, m.height) && r.Success? ==> InBounds(r.value, m.width, m.height)
    decreases |movs|
  {
    if |movs| == 0 then Success(p)
    else
      match Step(m, p, movs[0])
      case Failure(e) => Failure(e)
      case Success(q) => Traverse(m, q, movs[1..])
  }

  predicate Glyphs(movs: string)
  {
    forall i :: 0 <= i < |movs| ==> IsDirChar(movs[i])
  }

  function DirsOf(movs: string): (ds: seq<Dir>)
    requires Glyphs(movs)
    ensures |ds| == |movs| && forall i :: 0 <= i < |movs| ==> ds[i] == DirOf(movs[i])
  {
    seq(|movs|, i requires 0 <= i < |movs| => DirOf(movs[i]))
  }

  /** Every cell the plain walk enters is on the map and is not a wall. */
  predicate FreeWalk(m: MedioMap, p: Pos, ds: seq<Dir>)
  {
    forall k :: 1 <= k <= |ds| ==>
      InBounds(Unicode24Sim.Displace(p, ds[..k]), m.width, m.height) &&
      Unicode24Sim.Displace(p, ds[..k]) !in m.walls
  }

  /** From a cell on the map, a route is accepted exactly when it is made of
      glyphs only and its plain walk stays on free cells of the map; it then
      ends where the walk ends. Tunnels play no part. */
  lemma {:induction false} TraverseWalk(m: MedioMap, p: Pos, movs: string)
    requires InBounds(p, m.width, m.height)
    ensures Traverse(m, p, movs).Success? <==> Glyphs(movs) && FreeWalk(m, p, DirsOf(movs))
    ensures Traverse(m, p, movs).Success? ==> Traverse(m, p, movs).value == Unicode24Sim.Displace(p, DirsOf(movs))
    decreases |movs|
  {
    if |movs| > 0 {
      var c := movs[0];
      if IsDirChar(c) {
        var q := Unicode24Sim.Target(p, DirOf(c));
        if InBounds(q, m.width, m.height) && q !in m.walls {
          TraverseWalk(m, q, movs[1..]);
          if Glyphs(movs) {
            var ds := DirsOf(movs);
            WalkShift(m, p, ds);
            assert ds[1..] == DirsOf(movs[1..]);
          } else {
            var i :| 0 <= i < |movs| && !IsDirChar(movs[i]);
            assert !IsDirChar(movs[1..][i - 1]);
          }
        } else if Glyphs(movs) {
          assert DirsOf(movs)[..1] == [DirOf(c)];
          assert Unicode24Sim.Displace(p, [DirOf(c)]) == q by {
            assert [DirOf(c)][1..] == [];
          }
        }
      }
    }
  }

  /** The plain walk from `p` is free exactly when its first cell is free and
      the walk from that cell is free, and it ends where that walk ends. */
  lemma WalkShift(m: MedioMap, p: Pos, ds: seq<Dir>)
    requires |ds| > 0
    ensures FreeWalk(m, p, ds) <==>
      var q := Unicode24Sim.Target(p, ds[0]);
      InBounds(q, m.width, m.height) && q !in m.walls && FreeWalk(m, q, ds[1..])
    ensures Unicode24Sim.Displace(p, ds) == Unicode24Sim.Displace(Unicode24Sim.Target(p, ds[0]), ds[1..])
  {
    var q := Unicode24Sim.Target(p, ds[0]);
    forall k | 1 <= k <= |ds|
      ensures Unicode24Sim.Displace(p, ds[..k]) == Unicode24Sim.Displace(q, ds[1..][..k - 1])
    {
      assert ds[..k][0] == ds[0];
      assert ds[..k][1..] == ds[1..][..k - 1];
    }
    assert Unicode24Sim.Displace(p, ds[..1]) == q by {
      assert ds[1..][..0] == [];
    }
    if InBounds(q, m.width, m.height) && q !in m.walls && FreeWalk(m, q, ds[1..]) {
      forall k | 1 <= k <= |ds|
        ensures InBounds(Unicode24Sim.Displace(p, ds[..k]), m.width, m.height) && Unicode24Sim.Displace(p, ds[..k]) !in m.walls
      {
        if k > 1 {
          assert 1 <= k - 1 <= |ds[1..]|;
        }
      }
    }
    if FreeWalk(m, p, ds) {
      forall k | 1 <= k <= |ds[1..]|
        ensures InBounds(Unicode24Sim.Displace(q, ds[1..][..k]), m.width, m.height) && Unicode24Sim.Displace(q, ds[1..][..k]) !in m.walls
      {
        assert Unicode24Sim.Displace(p, ds[..k + 1]) == Unicode24Sim.Displace(q, ds[1..][..k]);
      }
    }
    assert ds[..|ds|] == ds;
  }

  /** The tunnels of a map never change a walk. */
  lemma {:induction false} TunnelsIgnored(m: MedioMap, ts: seq<Segment>, p: Pos, movs: string)
    ensures Traverse(m.(tunnels := ts), p, movs) == Traverse(m, p, movs)
    decreases |movs|
  {
    if |movs| > 0 {
      var m2 := m.(tunnels := ts);
      if Step(m, p, movs[0]).Success? {
        assert Step(m2, p, movs[0]) == Step(m, p, movs[0]);
        TunnelsIgnored(m, ts, Step(m, p, movs[0]).value, movs[1..]);
      }
    }
  }

  /** One submitted line `id;x-y;moves`. The origin is the integer tuple
      the source builds, of whatever length the line gives. */
  datatype MRoute = MRoute(pointId: int, origin: seq<int>, movs: string)

  /** `parse_route`: exactly three `;`-separated fields, an integer id, a
      `-`-separated tuple of integers of any length, and the move text with
      surrounding white space removed. */
  function ParseRoute(line: string): (r: Option<MRoute>)
    ensures r.Some? <==>
      && |Split(line, ';')| == 3
      && ParseInt(Split(line, ';')[0]).Some?
      && ParseInts(Split(Split(line, ';')[1], '-')).Some?
    ensures r.Some? ==>
      && Some(r.value.pointId) == ParseInt(Split(line, ';')[0])
      && Some(r.value.origin) == ParseInts(Split(Split(line, ';')[1], '-'))
      && r.value.movs == Strip(Split(line, ';')[2])
  {
    var f := Split(line, ';');
    if |f| != 3 then None
    else
      match (ParseInt(f[0]), ParseInts(Split(f[1], '-')))
      case (Some(id), Some(origin)) => Some(MRoute(id, origin, Strip(f[2])))
      case _ => None
  }

  /** Why a submission is refused. `Raised` stands for the exceptions that
      escape `validate_output`: a malformed or blank line, no first line, or
      the `ValueError` of `col, row = curr_pos` when a route whose origin is
      not a pair has moves. */
  datatype MRejection =
    | Moves(e: MError)
    | SlotMismatch(pointId: int, slot: int, found: int)
    | WrongDestination(pointId: int, origin: seq<int>, actual: seq<int>, expected: Option<Pos>)
    | CountMismatch(diff: nat)
    | MissingPoints
    | Raised

  /** The reported total still to be accounted for, the ids visited, and the
      1-based slot of the next route. */
  datatype MProgress = MProgress(remaining: int, visited: seq<int>, cursor: int)

  /** The checks on one route: the slot, then the walk, then the destination.
      An unknown id has no slot and no cell, so it ends in a destination
      mismatch unless the walk fails first. An origin that is not a pair is
      returned unchanged by an empty move text, and so never equals a cell;
      any move fails to unpack it, and that error escapes. */
  function CheckRoute(m: MedioMap, route: MRoute, p: MProgress): (r: Result<MProgress, MRejection>)
    ensures RequiredSlot(m, route.pointId).Some? && RequiredSlot(m, route.pointId).value != p.cursor ==>
      r == Failure(SlotMismatch(route.pointId, RequiredSlot(m, route.pointId).value, p.cursor))
    ensures (RequiredSlot(m, route.pointId).None? || RequiredSlot(m, route.pointId).value == p.cursor) &&
            |route.origin| != 2 ==>
      r == if |route.movs| == 0
           then Failure(WrongDestination(route.pointId, route.origin, route.origin, CoordsOf(m, route.pointId)))
           else Failure(Raised)
    ensures r.Success? <==>
      && (RequiredSlot(m, route.pointId).None? || RequiredSlot(m, route.pointId).value == p.cursor)
      && |route.origin| == 2
      && Traverse(m, CellOf(route.origin), route.movs).Success?
      && CoordsOf(m, route.pointId) == Some(Traverse(m, CellOf(route.origin), route.movs).value)
    ensures r.Success? ==> r.value == MProgress(p.remaining - |route.movs|, p.visited + [route.pointId], p.cursor + 1)
  {
    var slot := RequiredSlot(m, route.pointId);
    if slot.Some? && p.cursor != slot.value then Failure(SlotMismatch(route.pointId, slot.value, p.cursor))
    else if |route.origin| != 2 then
      if |route.movs| == 0 then Failure(WrongDestination(route.pointId, route.origin, route.origin, CoordsOf(m, route.pointId)))
      else Failure(Raised)
    else
      match Traverse(m, CellOf(route.origin), route.movs)
      case Failure(e) => Failure(Moves(e))
      case Success(end) =>
        var expected := CoordsOf(m, route.pointId);
        if Some(end) != expected then Failure(WrongDestination(route.pointId, route.origin, Coords(end), expected))
        else Success(MProgress(p.remaining - |route.movs|, p.visited + [route.pointId], p.cursor + 1))
  }

  /** An unknown id does not crash the check of a pair origin: the route is
      refused by its walk or by a destination mismatch against no cell. */
  lemma UnknownIdRefused(m: MedioMap, route: MRoute, p: MProgress)
    requires FindPoint(m.points, route.pointId).None?
    ensures CheckRoute(m, route, p).Failure?
    ensures |route.origin| == 2 ==>
      CheckRoute(m, route, p).error.Moves? ||
      CheckRoute(m, route, p).error ==
        WrongDestination(route.pointId, route.origin, Coords(Traverse(m, CellOf(route.origin), route.movs).value), None)
  {
  }

  /** The loop of `validate_output` over the lines after the first; every
      line, blank or not, must be a route. */
  function RunRoutes(m: MedioMap, lines: seq<string>, p: MProgress): Result<MProgress, MRejection>
    decreases |lines|
  {
    if |lines| == 0 then Success(p)
    else
      match ParseRoute(lines[0])
      case None => Failure(Raised)
      case Some(route) =>
        match CheckRoute(m, route, p)
        case Failure(e) => Failure(e)
        case Success(next) => RunRoutes(m, lines[1..], next)
  }

  /** The routes of all lines, if every one parses. */
  function ParsedRoutes(lines: seq<string>): Option<seq<MRoute>>
    decreases |lines|
  {
    if |lines| == 0 then Some([])
    else
      match (ParseRoute(lines[0]), ParsedRoutes(lines[1..]))
      case (Some(r), Some(rs)) => Some([r] + rs)
      case _ => None
  }

  /** The summed lengths of the move texts. */
  function TextMoves(rs: seq<MRoute>): nat
  {
    if |rs| == 0 then 0 else |rs[0].movs| + TextMoves(rs[1..])
  }

  lemma RoutesCons(route: MRoute, rest: seq<MRoute>)
    ensures TextMoves([route] + rest) == |route.movs| + TextMoves(rest)
  {
    assert ([route] + rest)[1..] == rest;
  }

  /** After a successful loop every line was a route, the cursor moved once
      per route, and the reported total was reduced by each move text's length. */
  lemma {:induction false} RunRoutesSummary(m: MedioMap, lines: seq<string>, p: MProgress)
    requires RunRoutes(m, lines, p).Success?
    ensures ParsedRoutes(lines).Some?
    ensures RunRoutes(m, lines, p).value.cursor == p.cursor + |lines|
    ensures RunRoutes(m, lines, p).value.remaining == p.remaining - TextMoves(ParsedRoutes(lines).value)
    decreases |lines|
  {
    if |lines| > 0 {
      var route := ParseRoute(lines[0]).value;
      var next := CheckRoute(m, route, p).value;
      RunRoutesSummary(m, lines[1..], next);
      RoutesCons(route, ParsedRoutes(lines[1..]).value);
    }
  }

  /** `contains_all_dpoints` as written: the set of missing ids is compared
      with `{}`, which is an empty dict, so the test never holds. */
  function ContainsAllPoints(m: MedioMap, ids: seq<int>): (r: bool)
    ensures !r
  {
    var expected := set i | 0 <= i < |m.points| :: m.points[i].pointId;
    var received := set x | x in ids;
    PySet(expected - received) == PyDict(map[])
  }

  /** `validate_output` over the lines of a submission. The source returns
      an error pair or falls off its end; `None` stands for the latter. */
  function Validate(m: MedioMap, lines: seq<string>): (r: Option<MRejection>)
    ensures r.Some?
  {
    if |lines| == 0 then Some(Raised)
    else
      match ParseInt(lines[0])
      case None => Some(Raised)
      case Some(reported) =>
        match RunRoutes(m, lines[1..], MProgress(reported, [], 1))
        case Failure(e) => Some(e)
        case Success(p) => Finish(m, p)
  }

  /** The checks after the loop: the moves left over first, then coverage,
      which never holds, so this always reports one of the two. */
  function Finish(m: MedioMap, p: MProgress): (r: Option<MRejection>)
    ensures p.remaining != 0 ==> r == Some(CountMismatch(Abs(p.remaining)))
    ensures p.remaining == 0 ==> r == Some(MissingPoints)
  {
    if p.remaining != 0 then Some(CountMismatch(Abs(p.remaining)))
    else if !ContainsAllPoints(m, p.visited) then Some(MissingPoints)
    else None
  }

  /** When every route passes, the outcome is decided by the move count:
      a reported total different from the summed move-text lengths is
      refused with their distance, and a matching one still ends in the
      coverage error, whichever points were visited. */
  lemma ValidateAfterRoutes(m: MedioMap, lines: seq<string>)
    requires |lines| > 0 && ParseInt(lines[0]).Some?
    requires RunRoutes(m, lines[1..], MProgress(ParseInt(lines[0]).value, [], 1)).Success?
    ensures ParsedRoutes(lines[1..]).Some?
    ensures ParseInt(lines[0]).value != TextMoves(ParsedRoutes(lines[1..]).value) ==>
      Validate(m, lines) == Some(CountMismatch(Abs(ParseInt(lines[0]).value - TextMoves(ParsedRoutes(lines[1..]).value))))
    ensures ParseInt(lines[0]).value == TextMoves(ParsedRoutes(lines[1..]).value) ==>
      Validate(m, lines) == Some(MissingPoints)
  {
    var start := MProgress(ParseInt(lines[0]).value, [], 1);
    RunRoutesSummary(m, lines[1..], start);
    ValidateIsFinish(m, lines);
    var last := RunRoutes(m, lines[1..], start).value;
    assert last.remaining == ParseInt(lines[0]).value - TextMoves(ParsedRoutes(lines[1..]).value);
    assert Validate(m, lines) == Finish(m, last);
  }

  /** When every route passes, only the final checks decide. */
  lemma ValidateIsFinish(m: MedioMap, lines: seq<string>)
    requires |lines| > 0 && ParseInt(lines[0]).Some?
    requires RunRoutes(m, lines[1..], MProgress(ParseInt(lines[0]).value, [], 1)).Success?
    ensures Validate(m, lines) == Finish(m, RunRoutes(m, lines[1..], MProgress(ParseInt(lines[0]).value, [], 1)).value)
  {
  }

  /** `score` gives every solution the same value. */
  function Score(solution: string): int
  {
    1
  }
}
