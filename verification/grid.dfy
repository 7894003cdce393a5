/** Cells, move glyphs and wall segments shared by the drone-route validators.
    Coordinates are (column, row); how a glyph moves the drone differs between
    the validators, so each of them gives its own displacement. */
module Grid {

  datatype Pos = Pos(x: int, y: int)

  /** The tuple `(x, y)` of a cell. */
  function Coords(c: Pos): seq<int>
  {
    [c.x, c.y]
  }

  /** The cell of an integer pair; a tuple of another length never equals
      a cell. */
  function CellOf(xs: seq<int>): (c: Pos)
    requires |xs| == 2
    ensures Coords(c) == xs
  {
    Pos(xs[0], xs[1])
  }

  /** The four move glyphs of a route: `>`, `<`, `+` and `-`. */
  datatype Dir = Right | Left | Plus | Minus

  predicate IsDirChar(c: char)
  {
    c == '>' || c == '<' || c == '+' || c == '-'
  }

  function DirOf(c: char): Dir
    requires IsDirChar(c)
  {
    match c
    case '>' => Right
    case '<' => Left
    case '+' => Plus
    case _ => Minus
  }

  function CharOf(d: Dir): (c: char)
    ensures IsDirChar(c) && DirOf(c) == d
  {
    match d
    case Right => '>'
    case Left => '<'
    case Plus => '+'
    case Minus => '-'
  }

  lemma CharOfDirOf(c: char)
    requires IsDirChar(c)
    ensures CharOf(DirOf(c)) == c
  {
  }

  function Shift(p: Pos, dx: int, dy: int): Pos
  {
    Pos(p.x + dx, p.y + dy)
  }

  predicate InBounds(p: Pos, width: int, height: int)
  {
    0 <= p.x < width && 0 <= p.y < height
  }

  /** A wall as written in a map: two end cells sharing a column or a row. */
  datatype Segment = Segment(init: Pos, end: Pos)

  /** Number of values in Python's `range(lo, hi + 1)`. */
  function SpanLength(lo: int, hi: int): nat
  {
    if hi < lo then 0 else hi - lo + 1
  }

  /** The cells a wall segment blocks, in the order the loaders list them:
      a segment whose ends share the column covers that column from the
      first row to the second, inclusive; any other segment covers the
      first end's row from the first column to the second. A segment
      written backwards covers nothing. */
  function WallCells(w: Segment): (r: seq<Pos>)
    ensures w.init.x == w.end.x ==> |r| == SpanLength(w.init.y, w.end.y)
    ensures w.init.x != w.end.x ==> |r| == SpanLength(w.init.x, w.end.x)
  {
    if w.init.x == w.end.x then
      seq(SpanLength(w.init.y, w.end.y), i => Pos(w.init.x, w.init.y + i))
    else
      seq(SpanLength(w.init.x, w.end.x), i => Pos(w.init.x + i, w.init.y))
  }

  /** Membership in a segment's cells, without reference to the enumeration. */
  predicate OnSegment(w: Segment, p: Pos)
  {
    if w.init.x == w.end.x then p.x == w.init.x && w.init.y <= p.y <= w.end.y
    else p.y == w.init.y && w.init.x <= p.x <= w.end.x
  }

  lemma WallCellsMembership(w: Segment, p: Pos)
    ensures p in WallCells(w) <==> OnSegment(w, p)
  {
    var cells := WallCells(w);
    if OnSegment(w, p) {
      var i := if w.init.x == w.end.x then p.y - w.init.y else p.x - w.init.x;
      assert cells[i] == p;
    }
  }

  /** Every cell blocked by some segment, in segment order (duplicates kept). */
  function WallList(ws: seq<Segment>): seq<Pos>
  {
    if |ws| == 0 then [] else WallCells(ws[0]) + WallList(ws[1..])
  }

  lemma {:induction false} WallListMembership(ws: seq<Segment>, p: Pos)
    ensures p in WallList(ws) <==> exists k :: 0 <= k < |ws| && OnSegment(ws[k], p)
  {
    if |ws| > 0 {
      WallListMembership(ws[1..], p);
      WallCellsMembership(ws[0], p);
      if exists k :: 0 <= k < |ws| && OnSegment(ws[k], p) {
        var k :| 0 <= k < |ws| && OnSegment(ws[k], p);
        if k > 0 {
          assert OnSegment(ws[1..][k - 1], p);
        }
      }
      if exists k :: 0 <= k < |ws[1..]| && OnSegment(ws[1..][k], p) {
        var k :| 0 <= k < |ws[1..]| && OnSegment(ws[1..][k], p);
        assert OnSegment(ws[k + 1], p);
      }
    }
  }
}
