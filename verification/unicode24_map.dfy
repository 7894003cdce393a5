/** The map description of the drone-delivery challenge (final variant),
    as `MapConfig.__init__` in validators/unicode24.py loads it: size,
    starting cell, delivery points with an optional required visiting
    slot, and from level 2 on walls and tunnels, from level 3 on other
    drones flying cyclic run-length routes. */
module Unicode24Map {
  import opened Wrappers
  import opened Text
  import opened Grid
  import opened RunLength

  /** A delivery point; its id is its 1-based position in the list. */
  datatype Point = Point(coords: Pos, slot: Option<int>)

  /** Another drone: where it is, its unfolded cyclic moves, and the index
      of the move it makes next. */
  datatype Drone = Drone(position: Pos, movs: seq<Dir>, next: int)

  datatype MapConfig = MapConfig(
    level: int,
    width: int,
    height: int,
    initial: seq<string>,
    points: seq<Point>,
    walls: set<Pos>,
    tunnels: map<Pos, Pos>,
    drones: seq<Drone>)

  /** `tuple(map(int, text.split(sep)))` for a cell: exactly two numbers. */
  function ParseCell(text: string, sep: char): (r: Option<Pos>)
    ensures r.Some? <==> ParseInts(Split(text, sep)).Some? && |Split(text, sep)| == 2
  {
    var parts := Split(text, sep);
    match ParseInts(parts)
    case Some(vs) => if |vs| == 2 then Some(Pos(vs[0], vs[1])) else None
    case None => None
  }

  /** A delivery-point line `x<sep>y[<sep>slot]`: a third field, when there
      is one, is the required slot; later fields are ignored. */
  function ParsePoint(line: string, sep: char): (r: Option<Point>)
    ensures r.Some? ==> |Split(line, sep)| >= 2
    ensures r.Some? ==> (r.value.slot.Some? <==> |Split(line, sep)| >= 3)
    ensures r.Some? ==> ParseInt(Split(line, sep)[0]) == Some(r.value.coords.x)
    ensures r.Some? ==> ParseInt(Split(line, sep)[1]) == Some(r.value.coords.y)
    ensures r.Some? && r.value.slot.Some? ==> ParseInt(Split(line, sep)[2]) == r.value.slot
  {
    var f := Split(line, sep);
    if |f| < 2 then None
    else
      match (ParseInt(f[0]), ParseInt(f[1]))
      case (Some(x), Some(y)) =>
        if |f| <= 2 then Some(Point(Pos(x, y), None))
        else (
          match ParseInt(f[2])
          case Some(s) => Some(Point(Pos(x, y), Some(s)))
          case None => None)
      case _ => None
  }

  /** A wall or tunnel line: two cells separated by `between`, each cell two
      numbers separated by `within`; fields after the second are ignored. */
  function ParseSegment(line: string, between: char, within: char): (r: Option<Segment>)
    ensures r.Some? <==>
      |Split(line, between)| >= 2 &&
      ParseCell(Split(line, between)[0], within).Some? && ParseCell(Split(line, between)[1], within).Some?
    ensures r.Some? ==>
      r.value == Segment(ParseCell(Split(line, between)[0], within).value, ParseCell(Split(line, between)[1], within).value)
  {
    var f := Split(line, between);
    if |f| < 2 then None
    else
      match (ParseCell(f[0], within), ParseCell(f[1], within))
      case (Some(a), Some(b)) => Some(Segment(a, b))
      case _ => None
  }

  /** A drone line `x,y;moves`: the moves are unfolded from their
      run-length tokens and the drone starts at its first move. */
  function ParseDrone(line: string): (r: Option<Drone>)
    ensures r.Some? ==> |Split(line, ';')| >= 2
    ensures r.Some? ==> r.value.next == 0 && r.value.movs == Expand(Tokens(Split(line, ';')[1]))
  {
    var f := Split(line, ';');
    if |f| < 2 then None
    else
      match ParseCell(f[0], ',')
      case Some(p) => Some(Drone(p, Expand(Tokens(f[1])), 0))
      case None => None
  }

  /** The tunnel table: each tunnel maps each end to the other. Later
      tunnels overwrite entries of earlier ones that share an end. */
  function BuildTunnels(ts: seq<Segment>): map<Pos, Pos>
  {
    if |ts| == 0 then map[]
    else
      var t := ts[|ts| - 1];
      BuildTunnels(ts[..|ts| - 1])[t.init := t.end][t.end := t.init]
  }

  predicate IsEnd(t: Segment, p: Pos)
  {
    p == t.init || p == t.end
  }

  /** No two tunnels share an end cell. */
  predicate SeparateEnds(ts: seq<Segment>)
  {
    forall i, j :: 0 <= i < j < |ts| ==> !IsEnd(ts[j], ts[i].init) && !IsEnd(ts[j], ts[i].end)
  }

  /** The table holds exactly the tunnel ends. */
  lemma {:induction false} TunnelKeys(ts: seq<Segment>, p: Pos)
    ensures p in BuildTunnels(ts) <==> exists i :: 0 <= i < |ts| && IsEnd(ts[i], p)
  {
    if |ts| > 0 {
      var front := ts[..|ts| - 1];
      TunnelKeys(front, p);
      if exists i :: 0 <= i < |front| && IsEnd(front[i], p) {
        var i :| 0 <= i < |front| && IsEnd(front[i], p);
        assert IsEnd(ts[i], p);
      }
      if exists i :: 0 <= i < |ts| && IsEnd(ts[i], p) {
        var i :| 0 <= i < |ts| && IsEnd(ts[i], p);
        if i < |front| {
          assert IsEnd(front[i], p);
        }
      }
    }
  }

  /** When no two tunnels share an end, each tunnel leads both ways. */
  lemma {:induction false} TunnelsSymmetric(ts: seq<Segment>, i: int)
    requires SeparateEnds(ts)
    requires 0 <= i < |ts|
    ensures ts[i].init in BuildTunnels(ts) && BuildTunnels(ts)[ts[i].init] == ts[i].end
    ensures ts[i].end in BuildTunnels(ts) && BuildTunnels(ts)[ts[i].end] == ts[i].init
  {
    var front := ts[..|ts| - 1];
    var t := ts[|ts| - 1];
    if i < |ts| - 1 {
      assert SeparateEnds(front) by {
        forall a, b | 0 <= a < b < |front|
          ensures !IsEnd(front[b], front[a].init) && !IsEnd(front[b], front[a].end)
        {
          assert front[a] == ts[a] && front[b] == ts[b];
        }
      }
      TunnelsSymmetric(front, i);
      assert front[i] == ts[i];
      assert !IsEnd(t, ts[i].init) && !IsEnd(t, ts[i].end);
    }
  }

  /** When no two tunnels share an end, the table is its own inverse:
      `tunnels[a] == b` exactly when `tunnels[b] == a`. */
  lemma TunnelsInvolution(ts: seq<Segment>, p: Pos)
    requires SeparateEnds(ts)
    requires p in BuildTunnels(ts)
    ensures BuildTunnels(ts)[p] in BuildTunnels(ts)
    ensures BuildTunnels(ts)[BuildTunnels(ts)[p]] == p
  {
    TunnelKeys(ts, p);
    var i :| 0 <= i < |ts| && IsEnd(ts[i], p);
    TunnelsSymmetric(ts, i);
  }

  /** `MapConfig.__init__` on the lines of a description file. Lines after
      the last section read are ignored. */
  function Load(lines: seq<string>, level: int): (r: Result<MapConfig, ReadError>)
    ensures r.Success? ==> r.value.level == level
    ensures r.Success? ==> forall i :: 0 <= i < |r.value.drones| ==> r.value.drones[i].next == 0
    ensures r.Success? && level <= 1 ==> r.value.walls == {} && r.value.tunnels == map[]
    ensures r.Success? && level <= 2 ==> r.value.drones == []
    ensures r.Success? ==> forall i :: 0 <= i < |r.value.points| ==>
      3 + i < |lines| && (r.value.points[i].slot.Some? <==> |Split(lines[3 + i], ',')| >= 3)
  {
    var dimLine :- NextLine(lines, 0);
    var dims :- (match ParseInts(Split(dimLine, ';'))
                 case Some(ds) => if |ds| >= 2 then Success(ds) else Failure(BadLine(0))
                 case None => Failure(BadLine(0)));
    var initLine :- NextLine(lines, 1);
    var pointCount :- ReadInt(lines, 2);
    var points :- ReadBlock(lines, 3, RangeCount(pointCount), l => ParsePoint(l, ','));
    var k := 3 + RangeCount(pointCount);
    var base := MapConfig(level, dims[0], dims[1], Split(initLine, ','), points, {}, map[], []);
    if level <= 1 then Success(base)
    else
      var wallCount :- ReadInt(lines, k);
      var segments :- ReadBlock(lines, k + 1, RangeCount(wallCount), l => ParseSegment(l, ';', ','));
      var k2 := k + 1 + RangeCount(wallCount);
      var tunnelCount :- ReadInt(lines, k2);
      var tunnels :- ReadBlock(lines, k2 + 1, RangeCount(tunnelCount), l => ParseSegment(l, ';', ','));
      var k3 := k2 + 1 + RangeCount(tunnelCount);
      var wallSet := set p | p in WallList(segments);
      var withWalls := base.(walls := wallSet, tunnels := BuildTunnels(tunnels));
      if level <= 2 then Success(withWalls)
      else
        var droneCount :- ReadInt(lines, k3);
        var drones :- ReadBlock(lines, k3 + 1, RangeCount(droneCount), ParseDrone);
        Success(withWalls.(drones := drones))
  }
}
