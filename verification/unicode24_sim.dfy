/** The drone simulation of validators/unicode24.py: `move_drone`,
    `process_next_move`, `check_drone_collision` and `traverse_path`.
    The other drones' state, which the source updates in place inside the
    shared map object, is threaded through the replay explicitly. */
module Unicode24Sim {
  import opened Wrappers
  import opened Grid
  import opened RunLength
  import opened Unicode24Map

  /** The map edge a move went past, in the order the checks are made. */
  datatype Edge = XAtWidth(width: int) | XBelowZero | YBelowZero | YAtHeight(height: int)

  datatype SimError =
    | OutOfMap(edge: Edge)
    | WallCrash(cell: Pos)
    | DroneCrash(cell: Pos)
      /** Another drone has no moves or would leave the map: the source then
          fails with the text of an internal `IndexError`/`TypeError`. */
    | DroneFault

  /** The `movs` table: `>` and `<` move along the columns, `-` goes one
      row down (y + 1) and `+` one row up (y - 1). */
  function Target(p: Pos, d: Dir): Pos
  {
    match d
    case Right => Shift(p, 1, 0)
    case Left => Shift(p, -1, 0)
    case Minus => Shift(p, 0, 1)
    case Plus => Shift(p, 0, -1)
  }

  /** `move_drone`: the cell one move away, or the first edge it crosses,
      checked in the order x >= width, x < 0, y < 0, y >= height. */
  function MoveDrone(m: MapConfig, p: Pos, d: Dir): (r: Result<Pos, SimError>)
    ensures r.Success? <==> InBounds(Target(p, d), m.width, m.height)
    ensures r.Success? ==> r.value == Target(p, d)
    ensures Target(p, d).x >= m.width ==> r == Failure(OutOfMap(XAtWidth(m.width)))
    ensures Target(p, d).x < m.width && Target(p, d).x < 0 ==> r == Failure(OutOfMap(XBelowZero))
    ensures 0 <= Target(p, d).x < m.width && Target(p, d).y < 0 ==> r == Failure(OutOfMap(YBelowZero))
    ensures 0 <= Target(p, d).x < m.width && 0 <= Target(p, d).y && Target(p, d).y >= m.height ==> r == Failure(OutOfMap(YAtHeight(m.height)))
  {
    var q := Target(p, d);
    if q.x >= m.width then Failure(OutOfMap(XAtWidth(m.width)))
    else if q.x < 0 then Failure(OutOfMap(XBelowZero))
    else if q.y < 0 then Failure(OutOfMap(YBelowZero))
    else if q.y >= m.height then Failure(OutOfMap(YAtHeight(m.height)))
    else Success(q)
  }

  /** Moves another drone one step along its cycle. Its next move is
      `movs[next]` with Python indexing; a missing move or a move off the
      map ends the replay with an internal error. */
  function AdvanceDrone(m: MapConfig, d: Drone): (r: Result<Drone, SimError>)
    ensures r.Success? ==> |d.movs| > 0 && r.value.movs == d.movs
    ensures r.Success? ==> 0 <= r.value.next < |d.movs| && r.value.next == (d.next + 1) % |d.movs|
    ensures r.Success? ==> InBounds(r.value.position, m.width, m.height)
    ensures r.Success? ==> -|d.movs| <= d.next < |d.movs|
    ensures r.Success? && 0 <= d.next ==> r.value.position == Target(d.position, d.movs[d.next])
    ensures r.Failure? ==> r.error == DroneFault
  {
    match Text.PyIndex(d.movs, d.next)
    case None => Failure(DroneFault)
    case Some(dir) =>
      match MoveDrone(m, d.position, dir)
      case Failure(_) => Failure(DroneFault)
      case Success(p) => Success(Drone(p, d.movs, (d.next + 1) % |d.movs|))
  }

  /** Both drones kept their column this tick, or both kept their row. */
  predicate SameAxis(dPrev: Pos, dNext: Pos, prev: Pos, pos: Pos)
  {
    (dPrev.x == dNext.x && pos.x == prev.x) || (dPrev.y == dNext.y && pos.y == prev.y)
  }

  /** The collision test of `check_drone_collision` for a drone that went
      from `dPrev` to `dNext` while ours went from `prev` to `pos`. */
  function Collides(dPrev: Pos, dNext: Pos, prev: Pos, pos: Pos): (hit: bool)
    ensures hit <==> dNext == pos || (SameAxis(dPrev, dNext, prev, pos) && dPrev == pos)
  {
    if dPrev.x == dNext.x && pos.x == prev.x then dNext == pos || dPrev == pos
    else if dPrev.y == dNext.y && pos.y == prev.y then dNext == pos || dPrev == pos
    else dNext == pos
  }

  /** Every drone advances without error and none of them hits ours. */
  predicate ClearOf(m: MapConfig, ds: seq<Drone>, pos: Pos, prev: Pos)
  {
    forall i :: 0 <= i < |ds| ==>
      AdvanceDrone(m, ds[i]).Success? && !Collides(ds[i].position, AdvanceDrone(m, ds[i]).value.position, prev, pos)
  }

  /** `drone_at`: `any(...)` over the drones in order, each check moving that
      drone; the first hit stops the scan. Returns whether there was a hit
      and the drones after the scan. */
  function CheckDrones(m: MapConfig, ds: seq<Drone>, pos: Pos, prev: Pos): (r: Result<(bool, seq<Drone>), SimError>)
    ensures r.Success? ==> |r.value.1| == |ds|
    ensures r.Success? && !r.value.0 <==> ClearOf(m, ds, pos, prev)
    ensures r.Success? && !r.value.0 ==> forall i :: 0 <= i < |ds| ==> AdvanceDrone(m, ds[i]) == Success(r.value.1[i])
  {
    if |ds| == 0 then Success((false, []))
    else
      match AdvanceDrone(m, ds[0])
      case Failure(e) => Failure(e)
      case Success(d) =>
        if Collides(ds[0].position, d.position, prev, pos) then Success((true, [d] + ds[1..]))
        else
          match CheckDrones(m, ds[1..], pos, prev)
          case Failure(e) => Failure(e)
          case Success(res) =>
            assert ClearOf(m, ds, pos, prev) <==> ClearOf(m, ds[1..], pos, prev) by {
              if ClearOf(m, ds[1..], pos, prev) {
                forall i | 0 <= i < |ds|
                  ensures AdvanceDrone(m, ds[i]).Success? && !Collides(ds[i].position, AdvanceDrone(m, ds[i]).value.position, prev, pos)
                {
                  if i > 0 {
                    assert ds[i] == ds[1..][i - 1];
                  }
                }
              }
              if ClearOf(m, ds, pos, prev) {
                forall i | 0 <= i < |ds[1..]|
                  ensures AdvanceDrone(m, ds[1..][i]).Success? && !Collides(ds[1..][i].position, AdvanceDrone(m, ds[1..][i]).value.position, prev, pos)
                {
                  assert ds[1..][i] == ds[i + 1];
                }
              }
            }
            Success((res.0, [d] + res.1))
  }

  /** Replay state: our drone's cell, the moves made so far in this route,
      and the other drones. */
  datatype Sim = Sim(pos: Pos, moves: nat, drones: seq<Drone>)

  /** Where a tunnel entrance leads; other cells stay put. Relocation happens
      once per move. */
  function Relocate(m: MapConfig, p: Pos): Pos
  {
    if m.level > 1 && p in m.tunnels then m.tunnels[p] else p
  }

  /** Every tunnel leads to a cell of the map. */
  predicate TunnelsInBounds(m: MapConfig)
  {
    forall p :: p in m.tunnels ==> InBounds(m.tunnels[p], m.width, m.height)
  }

  /** `process_next_move`: bounds, then tunnel relocation, then the wall
      check, then (level 3) the other drones. */
  function Step(m: MapConfig, st: Sim, d: Dir): (r: Result<Sim, SimError>)
    ensures r.Success? <==>
      && InBounds(Target(st.pos, d), m.width, m.height)
      && !(m.level > 1 && Relocate(m, Target(st.pos, d)) in m.walls)
      && (m.level > 2 ==> ClearOf(m, st.drones, Relocate(m, Target(st.pos, d)), st.pos))
    ensures r.Success? ==> r.value.pos == Relocate(m, Target(st.pos, d)) && r.value.moves == st.moves + 1
    ensures r.Success? && TunnelsInBounds(m) ==> InBounds(r.value.pos, m.width, m.height)
    ensures r.Success? && m.level <= 2 ==> r.value.drones == st.drones
    ensures r.Success? && m.level > 2 ==>
      |r.value.drones| == |st.drones| &&
      forall i :: 0 <= i < |st.drones| ==> AdvanceDrone(m, st.drones[i]) == Success(r.value.drones[i])
    ensures !InBounds(Target(st.pos, d), m.width, m.height) ==> r == MoveDrone(m, st.pos, d).PropagateFailure()
    ensures InBounds(Target(st.pos, d), m.width, m.height) && m.level > 1 && Relocate(m, Target(st.pos, d)) in m.walls ==>
      r == Failure(WallCrash(Relocate(m, Target(st.pos, d))))
  {
    var p1 :- MoveDrone(m, st.pos, d);
    var p2 := Relocate(m, p1);
    if m.level > 1 && p2 in m.walls then Failure(WallCrash(p2))
    else if m.level > 2 then
      var scan :- CheckDrones(m, st.drones, p2, st.pos);
      if scan.0 then Failure(DroneCrash(p2)) else Success(Sim(p2, st.moves + 1, scan.1))
    else Success(Sim(p2, st.moves + 1, st.drones))
  }

  /** `functools.reduce(process_next_move, moves, ...)`: stops at the first
      failing move. */
  function Replay(m: MapConfig, st: Sim, dirs: seq<Dir>): Result<Sim, SimError>
    decreases |dirs|
  {
    if |dirs| == 0 then Success(st)
    else
      match Step(m, st, dirs[0])
      case Failure(e) => Failure(e)
      case Success(next) => Replay(m, next, dirs[1..])
  }

  /** `traverse_path`: the route's moves are the expansion of its
      run-length tokens; the move count starts at zero. */
  function TraversePath(m: MapConfig, origin: Pos, movs: string, drones: seq<Drone>): Result<Sim, SimError>
  {
    Replay(m, Sim(origin, 0, drones), Expand(Tokens(movs)))
  }

  /** A successful replay counts one move per elementary move. */
  lemma {:induction false} ReplayMoves(m: MapConfig, st: Sim, dirs: seq<Dir>)
    requires Replay(m, st, dirs).Success?
    ensures Replay(m, st, dirs).value.moves == st.moves + |dirs|
    decreases |dirs|
  {
    if |dirs| > 0 {
      ReplayMoves(m, Step(m, st, dirs[0]).value, dirs[1..]);
    }
  }

  /** The move count `traverse_path` returns is the sum of the token counts. */
  lemma TraversePathMoves(m: MapConfig, origin: Pos, movs: string, drones: seq<Drone>)
    requires TraversePath(m, origin, movs, drones).Success?
    ensures TraversePath(m, origin, movs, drones).value.moves == TotalCount(Tokens(movs))
  {
    ReplayMoves(m, Sim(origin, 0, drones), Expand(Tokens(movs)));
    ExpandLength(Tokens(movs));
  }

  /** After at least one successful move our drone is on the map, wherever it
      started, provided the tunnels lead onto the map. */
  lemma {:induction false} ReplayInBounds(m: MapConfig, st: Sim, dirs: seq<Dir>)
    requires TunnelsInBounds(m)
    requires |dirs| > 0
    requires Replay(m, st, dirs).Success?
    ensures InBounds(Replay(m, st, dirs).value.pos, m.width, m.height)
    decreases |dirs|
  {
    var next := Step(m, st, dirs[0]).value;
    if |dirs| > 1 {
      ReplayInBounds(m, next, dirs[1..]);
    } else {
      assert Replay(m, next, dirs[1..]) == Success(next);
    }
  }

  /** Replaying two move lists one after the other is replaying their concatenation. */
  lemma {:induction false} ReplayAppend(m: MapConfig, st: Sim, a: seq<Dir>, b: seq<Dir>)
    ensures Replay(m, st, a + b) ==
      match Replay(m, st, a)
      case Failure(e) => Failure(e)
      case Success(mid) => Replay(m, mid, b)
    decreases |a|
  {
    if |a| == 0 {
      assert a + b == b;
    } else {
      assert (a + b)[0] == a[0];
      assert (a + b)[1..] == a[1..] + b;
      match Step(m, st, a[0])
      case Failure(e) =>
      case Success(next) => ReplayAppend(m, next, a[1..], b);
    }
  }

  /** Another drone `n` ticks later, failing as soon as one tick fails. */
  function AdvanceTimes(m: MapConfig, d: Drone, n: nat): Result<Drone, SimError>
    decreases n
  {
    if n == 0 then Success(d)
    else
      match AdvanceDrone(m, d)
      case Failure(e) => Failure(e)
      case Success(d1) => AdvanceTimes(m, d1, n - 1)
  }

  /** Where another drone is after `t` ticks, as a function of the tick
      alone: it walks its cycle from its current index, ignoring edges. */
  function PositionAt(d: Drone, t: nat): Pos
    requires |d.movs| > 0
    decreases t
  {
    if t == 0 then d.position
    else Target(PositionAt(d, t - 1), d.movs[(d.next + t - 1) % |d.movs|])
  }

  /** The drones of a level-3 replay are each advanced exactly once per
      elementary move. */
  lemma ReplayAdvancesDrones(m: MapConfig, st: Sim, dirs: seq<Dir>)
    requires m.level > 2
    requires Replay(m, st, dirs).Success?
    ensures |Replay(m, st, dirs).value.drones| == |st.drones|
    ensures forall i :: 0 <= i < |st.drones| ==>
      AdvanceTimes(m, st.drones[i], |dirs|) == Success(Replay(m, st, dirs).value.drones[i])
  {
    ReplayKeepsDrones(m, st, dirs);
    forall i | 0 <= i < |st.drones|
      ensures AdvanceTimes(m, st.drones[i], |dirs|) == Success(Replay(m, st, dirs).value.drones[i])
    {
      ReplayAdvancesDrone(m, st, dirs, i);
    }
  }

  /** A level-3 replay keeps the number of other drones. */
  lemma {:induction false} ReplayKeepsDrones(m: MapConfig, st: Sim, dirs: seq<Dir>)
    requires m.level > 2
    requires Replay(m, st, dirs).Success?
    ensures |Replay(m, st, dirs).value.drones| == |st.drones|
    decreases |dirs|
  {
    if |dirs| > 0 {
      ReplayFirst(m, st, dirs);
      ReplayKeepsDrones(m, Step(m, st, dirs[0]).value, dirs[1..]);
    }
  }

  /** Drone `i` of a level-3 replay is advanced once per elementary move. */
  lemma {:induction false} ReplayAdvancesDrone(m: MapConfig, st: Sim, dirs: seq<Dir>, i: nat)
    requires m.level > 2
    requires Replay(m, st, dirs).Success? && i < |st.drones|
    requires |Replay(m, st, dirs).value.drones| == |st.drones|
    ensures AdvanceTimes(m, st.drones[i], |dirs|) == Success(Replay(m, st, dirs).value.drones[i])
    decreases |dirs|
  {
    if |dirs| > 0 {
      ReplayFirst(m, st, dirs);
      var next := Step(m, st, dirs[0]).value;
      var last := Replay(m, st, dirs).value;
      assert AdvanceDrone(m, st.drones[i]) == Success(next.drones[i]);
      ReplayAdvancesDrone(m, next, dirs[1..], i);
      AdvanceOnce(m, st.drones[i], next.drones[i], |dirs| - 1, last.drones[i]);
    }
  }

  /** A successful replay made its first step and replayed the rest from there. */
  lemma ReplayFirst(m: MapConfig, st: Sim, dirs: seq<Dir>)
    requires |dirs| > 0 && Replay(m, st, dirs).Success?
    ensures Step(m, st, dirs[0]).Success?
    ensures Replay(m, st, dirs) == Replay(m, Step(m, st, dirs[0]).value, dirs[1..])
  {
  }

  lemma AdvanceOnce(m: MapConfig, d: Drone, d1: Drone, n: nat, final: Drone)
    requires AdvanceDrone(m, d) == Success(d1)
    requires AdvanceTimes(m, d1, n) == Success(final)
    ensures AdvanceTimes(m, d, n + 1) == Success(final)
  {
  }

  /** The threaded drone state agrees with the tick-indexed description:
      after `t` ticks a drone is at `PositionAt(d, t)` with its cycle index
      moved on by `t`. */
  lemma {:induction false} AdvanceTimesIsPositionAt(m: MapConfig, d: Drone, t: nat)
    requires 0 <= d.next
    requires AdvanceTimes(m, d, t).Success?
    ensures t > 0 ==> |d.movs| > 0
    ensures t > 0 ==> AdvanceTimes(m, d, t).value == Drone(PositionAt(d, t), d.movs, (d.next + t) % |d.movs|)
    decreases t
  {
    if t > 0 {
      var n := |d.movs|;
      var d1 := AdvanceDrone(m, d).value;
      assert 0 <= d.next < n;
      ModUnique(d.next, 0, d.next, n);
      assert d1 == Drone(Target(d.position, d.movs[d.next % n]), d.movs, (d.next + 1) % n);
      PositionAtShift(d, t - 1);
      if t > 1 {
        AdvanceTimesIsPositionAt(m, d1, t - 1);
        ModAddLeft(d.next + 1, t - 1, n);
      } else {
        assert PositionAt(d, 1) == Target(d.position, d.movs[(d.next + 0) % n]);
      }
    }
  }

  /** Starting one tick later is the same walk. */
  lemma {:induction false} PositionAtShift(d: Drone, t: nat)
    requires |d.movs| > 0 && 0 <= d.next
    ensures PositionAt(Drone(Target(d.position, d.movs[d.next % |d.movs|]), d.movs, (d.next + 1) % |d.movs|), t)
         == PositionAt(d, t + 1)
    decreases t
  {
    var n := |d.movs|;
    if t > 0 {
      PositionAtShift(d, t - 1);
      ModAddLeft(d.next + 1, t - 1, n);
    } else {
      assert (d.next + 0) % n == d.next % n;
    }
  }

  lemma MulAtLeast(k: int, n: int)
    requires k >= 1 && n > 0
    ensures k * n >= n
  {
  }

  /** Euclidean division is unique. */
  lemma ModUnique(x: int, q: int, r: int, n: int)
    requires n > 0 && 0 <= r < n && x == q * n + r
    ensures x % n == r
  {
    var q0 := x / n;
    var r0 := x % n;
    assert x == q0 * n + r0;
    assert (q - q0) * n == r0 - r;
    if q - q0 >= 1 {
      MulAtLeast(q - q0, n);
    } else if q0 - q >= 1 {
      MulAtLeast(q0 - q, n);
    }
  }

  lemma ModAddLeft(x: int, j: int, n: int)
    requires n > 0
    ensures (x % n + j) % n == (x + j) % n
  {
    var a := x % n;
    var s := (a + j) % n;
    assert x == (x / n) * n + a;
    assert a + j == ((a + j) / n) * n + s;
    assert x + j == (x / n + (a + j) / n) * n + s;
    ModUnique(x + j, x / n + (a + j) / n, s, n);
  }

  /** Our drone's cell after a list of moves, ignoring every rule. */
  function Displace(p: Pos, dirs: seq<Dir>): Pos
    decreases |dirs|
  {
    if |dirs| == 0 then p else Displace(Target(p, dirs[0]), dirs[1..])
  }

  /** Every cell the plain walk enters is on the map, and from level 2 on
      none is a wall. */
  predicate FreeWalk(m: MapConfig, p: Pos, dirs: seq<Dir>)
  {
    forall k :: 1 <= k <= |dirs| ==>
      InBounds(Displace(p, dirs[..k]), m.width, m.height) &&
      !(m.level > 1 && Displace(p, dirs[..k]) in m.walls)
  }

  /** Without tunnels and other drones, a replay succeeds exactly when the
      plain walk stays on free cells, and it then ends where the walk ends
      after counting every move. */
  lemma {:induction false} ReplayWithoutTunnels(m: MapConfig, st: Sim, dirs: seq<Dir>)
    requires m.level <= 2 && m.tunnels == map[]
    ensures Replay(m, st, dirs).Success? <==> FreeWalk(m, st.pos, dirs)
    ensures Replay(m, st, dirs).Success? ==>
      Replay(m, st, dirs).value == Sim(Displace(st.pos, dirs), st.moves + |dirs|, st.drones)
    decreases |dirs|
  {
    if |dirs| > 0 {
      var q := Target(st.pos, dirs[0]);
      assert Relocate(m, q) == q;
      var next := Sim(q, st.moves + 1, st.drones);
      ReplayWithoutTunnels(m, next, dirs[1..]);
      forall k | 1 <= k <= |dirs|
        ensures Displace(st.pos, dirs[..k]) == Displace(q, dirs[1..][..k - 1])
      {
        assert dirs[..k][0] == dirs[0];
        assert dirs[..k][1..] == dirs[1..][..k - 1];
      }
      assert dirs[..1] == [dirs[0]];
      assert Displace(st.pos, dirs[..1]) == q by {
        assert [dirs[0]][1..] == [];
      }
      if FreeWalk(m, q, dirs[1..]) && InBounds(q, m.width, m.height) && !(m.level > 1 && q in m.walls) {
        forall k | 1 <= k <= |dirs|
          ensures InBounds(Displace(st.pos, dirs[..k]), m.width, m.height) && !(m.level > 1 && Displace(st.pos, dirs[..k]) in m.walls)
        {
          if k > 1 {
            assert 1 <= k - 1 <= |dirs[1..]|;
          }
        }
      }
      if FreeWalk(m, st.pos, dirs) {
        forall k | 1 <= k <= |dirs[1..]|
          ensures InBounds(Displace(q, dirs[1..][..k]), m.width, m.height) && !(m.level > 1 && Displace(q, dirs[1..][..k]) in m.walls)
        {
          assert Displace(st.pos, dirs[..k + 1]) == Displace(q, dirs[1..][..k]);
        }
      }
    }
  }
}
