/**
 * The grid raycaster of src/raycast.rs. A ray from `start` is followed
 * across the vertical grid lines (x a whole number) and, separately, across
 * the horizontal ones (y a whole number); the first non-empty cell met on
 * each is a candidate hit and the nearer candidate is the result.
 *
 * Coordinates are reals. The trigonometric values of the ray's angle are
 * parameters: its cosine and sine (only their signs matter), its tangent
 * `tan` (the y step per vertical line) and `invTan`, the value of
 * `1.0 / tan` (the x step per horizontal line).
 */
module Raycast {
  import opened Bytes
  import opened LevelGrid

  datatype RPoint = RPoint(x: real, y: real)

  /** Where a ray stopped, and the tile it hit there (0 for none). */
  datatype Hit = Hit(pos: RPoint, tile: u8)

  /** Which grid lines a scan crosses: `Vertical` lines have a whole x, `Horizontal` lines a whole y. */
  datatype Axis = Vertical | Horizontal

  /** Whether a scan walks toward larger or smaller coordinates. */
  datatype Direction = Increasing | Decreasing

  function Abs(r: real): (a: real)
    ensures a >= 0.0 && (a == r || a == -r)
  {
    if r < 0.0 then -r else r
  }

  function Floor(r: real): (f: int)
    ensures f as real <= r < f as real + 1.0
  {
    r.Floor
  }

  function Ceil(r: real): (c: int)
    ensures c as real - 1.0 < r <= c as real
  {
    -((-r).Floor)
  }

  /**
   * One scan: along which lines, in which direction, from which coordinate
   * along the stepping axis, with which step of the other coordinate per
   * line, and how far it may go.
   */
  datatype Scan = Scan(axis: Axis, dir: Direction, start: real, slope: real, maxDist: real)
  {
    /** The first line the scan stands on: `ceil` going up, `floor` going down. */
    function FirstLine(): (line: int)
      ensures dir == Increasing ==> start <= line as real < start + 1.0
      ensures dir == Decreasing ==> start - 1.0 < line as real <= start
    {
      match dir
      case Increasing => Ceil(start)
      case Decreasing => Floor(start)
    }

    /** The other coordinate where the ray meets the first line, for a ray from (`start`, `startCross`). */
    function FirstCross(startCross: real): real
    {
      (FirstLine() as real - start) * slope + startCross
    }

    /** The line `k` steps after `line`. */
    function LineAfter(line: int, k: nat): int
    {
      match dir
      case Increasing => line + k
      case Decreasing => line - k
    }

    /** The other coordinate one step after `cross`: `slope` is added going up and taken away going down. */
    function NextCross(cross: real): real
    {
      match dir
      case Increasing => cross + slope
      case Decreasing => cross - slope
    }

    /** The other coordinate `k` steps after `cross`. */
    function CrossAfter(cross: real, k: nat): real
      decreases k
    {
      if k == 0 then cross else CrossAfter(NextCross(cross), k - 1)
    }

    /** The scan has not yet walked past `line`. */
    predicate Ahead(line: int)
    {
      match dir
      case Increasing => start <= line as real
      case Decreasing => line as real <= start
    }

    /** The loop condition: `line` is less than `maxDist` from the start. */
    predicate InReach(line: int)
    {
      Abs(start - line as real) < maxDist
    }

    /**
     * The cell looked at on `line`: the one after the line going up, the one
     * before it (`line - 1`) going down.
     */
    function SampledCell(line: int, cross: real): (int, int)
    {
      var along := if dir == Increasing then line else line - 1;
      match axis
      case Vertical => (along, Floor(cross))
      case Horizontal => (Floor(cross), along)
    }

    function PositionOn(line: int, cross: real): RPoint
    {
      match axis
      case Vertical => RPoint(line as real, cross)
      case Horizontal => RPoint(cross, line as real)
    }
  }

  /** The tile a scan sees on `line` at `cross`: 0 when the cell is outside the grid. */
  function SampledTile(level: Level, scan: Scan, line: int, cross: real): (tile: u8)
    requires level.Valid()
    reads level, level.levelData
  {
    var cell := scan.SampledCell(line, cross);
    level.GetTile(cell.0, cell.1)
  }

  /** Where a scan's loop stops: after how many steps, on which line and cross coordinate, and the tile found. */
  datatype Stop = Stop(steps: nat, line: int, cross: real, tile: u8)

  /** The loop of a scan from `line` and `cross`. */
  function Walk(level: Level, scan: Scan, line: int, cross: real): Stop
    requires level.Valid() && scan.Ahead(line)
    reads level, level.levelData
    decreases (scan.maxDist - Abs(scan.start - line as real)).Floor
  {
    if !scan.InReach(line) then Stop(0, line, cross, 0)
    else
      var cell := scan.SampledCell(line, cross);
      if !level.OutOfBounds(cell.0, cell.1) && level.GetTile(cell.0, cell.1) != 0 then
        Stop(0, line, cross, level.GetTile(cell.0, cell.1))
      else
        var rest := Walk(level, scan, scan.LineAfter(line, 1), scan.NextCross(cross));
        Stop(rest.steps + 1, rest.line, rest.cross, rest.tile)
  }

  /**
   * A scan stops at the first line in reach whose cell is inside the grid and
   * not empty, returning that cell's tile, or with tile 0 at the first line
   * out of reach; every line before the stop is in reach and its cell is
   * empty or outside the grid. Lines are one apart, and the other
   * coordinate moves by the same amount at every line.
   */
  lemma {:induction false} WalkFindsFirstTile(level: Level, scan: Scan, line: int, cross: real)
    requires level.Valid() && scan.Ahead(line)
    ensures var stop := Walk(level, scan, line, cross);
      && stop.line == scan.LineAfter(line, stop.steps) && stop.cross == scan.CrossAfter(cross, stop.steps)
      && (stop.tile != 0 ==> scan.InReach(stop.line) && stop.tile == SampledTile(level, scan, stop.line, stop.cross))
      && (stop.tile != 0 ==> var cell := scan.SampledCell(stop.line, stop.cross); !level.OutOfBounds(cell.0, cell.1))
      && (stop.tile == 0 ==> !scan.InReach(stop.line))
      && (forall k :: 0 <= k < stop.steps ==>
            scan.InReach(scan.LineAfter(line, k))
            && SampledTile(level, scan, scan.LineAfter(line, k), scan.CrossAfter(cross, k)) == 0)
    decreases (scan.maxDist - Abs(scan.start - line as real)).Floor
  {
    var cell := scan.SampledCell(line, cross);
    if scan.InReach(line) && !(!level.OutOfBounds(cell.0, cell.1) && level.GetTile(cell.0, cell.1) != 0) {
      var next := scan.LineAfter(line, 1);
      WalkFindsFirstTile(level, scan, next, scan.NextCross(cross));
      var rest := Walk(level, scan, next, scan.NextCross(cross));
      WalkShift(scan, line, cross, rest.steps + 1);
    }
  }

  /** `k` steps from `line` are `k - 1` steps from the line after it. */
  lemma WalkShift(scan: Scan, line: int, cross: real, n: nat)
    ensures forall k :: 0 < k <= n ==>
              scan.LineAfter(line, k) == scan.LineAfter(scan.LineAfter(line, 1), k - 1)
              && scan.CrossAfter(cross, k) == scan.CrossAfter(scan.NextCross(cross), k - 1)
  {
  }

  /** The other coordinate grows by `slope` per step, going up, and shrinks by it going down. */
  lemma {:induction false} CrossAfterClosedForm(scan: Scan, cross: real, k: nat)
    ensures scan.dir == Increasing ==> scan.CrossAfter(cross, k) == cross + k as real * scan.slope
    ensures scan.dir == Decreasing ==> scan.CrossAfter(cross, k) == cross - k as real * scan.slope
    decreases k
  {
    if k > 0 {
      CrossAfterClosedForm(scan, scan.NextCross(cross), k - 1);
      MulPred(k as real, scan.slope);
    }
  }

  lemma MulPred(a: real, b: real)
    ensures a * b == (a - 1.0) * b + b
  {
  }

  /** What a whole scan returns, starting at the grid line next to `start` along the scan's axis. */
  function ScanHit(level: Level, scan: Scan, startCross: real): (hit: Hit)
    requires level.Valid()
    reads level, level.levelData
    ensures scan.maxDist <= 0.0 ==> hit == Hit(scan.PositionOn(scan.FirstLine(), scan.FirstCross(startCross)), 0)
  {
    HitOf(scan, Walk(level, scan, scan.FirstLine(), scan.FirstCross(startCross)))
  }

  function HitOf(scan: Scan, stop: Stop): Hit
  {
    Hit(scan.PositionOn(stop.line, stop.cross), stop.tile)
  }

  /** The loop ends on a line out of reach, or on a line whose cell holds a tile. */
  lemma WalkEnds(level: Level, scan: Scan, line: int, cross: real)
    requires level.Valid() && scan.Ahead(line)
    ensures !scan.InReach(line) ==> HitOf(scan, Walk(level, scan, line, cross)) == Hit(scan.PositionOn(line, cross), 0)
    ensures scan.InReach(line) && SampledTile(level, scan, line, cross) != 0 ==>
              HitOf(scan, Walk(level, scan, line, cross)) == Hit(scan.PositionOn(line, cross), SampledTile(level, scan, line, cross))
  {
  }

  /** A step of the loop past an empty or outside cell leaves the result of the walk as it was. */
  lemma WalkStep(level: Level, scan: Scan, line: int, cross: real)
    requires level.Valid() && scan.Ahead(line) && scan.InReach(line)
    requires SampledTile(level, scan, line, cross) == 0
    ensures scan.Ahead(scan.LineAfter(line, 1))
    ensures HitOf(scan, Walk(level, scan, scan.LineAfter(line, 1), scan.NextCross(cross))) == HitOf(scan, Walk(level, scan, line, cross))
  {
  }

  /** The loop shared by the four `scan_*` functions. */
  method RunScan(level: Level, scan: Scan, startCross: real) returns (hit: Hit)
    requires level.Valid()
    ensures hit == ScanHit(level, scan, startCross)
  {
    var line := scan.FirstLine();
    var cross := scan.FirstCross(startCross);
    while Abs(scan.start - line as real) < scan.maxDist
      invariant scan.Ahead(line)
      invariant HitOf(scan, Walk(level, scan, line, cross)) == ScanHit(level, scan, startCross)
      decreases (scan.maxDist - Abs(scan.start - line as real)).Floor
    {
      var cell := scan.SampledCell(line, cross);
      if !level.OutOfBounds(cell.0, cell.1) && level.GetTile(cell.0, cell.1) != 0 {
        WalkEnds(level, scan, line, cross);
        return Hit(scan.PositionOn(line, cross), level.GetTile(cell.0, cell.1));
      }
      WalkStep(level, scan, line, cross);
      ghost var next := HitOf(scan, Walk(level, scan, scan.LineAfter(line, 1), scan.NextCross(cross)));
      if scan.dir == Increasing {
        line, cross := line + 1, cross + scan.slope;
      } else {
        line, cross := line - 1, cross - scan.slope;
      }
      assert HitOf(scan, Walk(level, scan, line, cross)) == next;
    }
    WalkEnds(level, scan, line, cross);
    return Hit(scan.PositionOn(line, cross), 0);
  }

  function VerticalScan(dir: Direction, start: RPoint, tan: real, maxDist: real): Scan
  {
    Scan(Vertical, dir, start.x, tan, maxDist)
  }

  function HorizontalScan(dir: Direction, start: RPoint, invTan: real, maxDist: real): Scan
  {
    Scan(Horizontal, dir, start.y, invTan, maxDist)
  }

  /** `scan_vertical_positive`: x runs through `ceil(start.x)`, `ceil(start.x) + 1`, ... */
  method ScanVerticalPositive(start: RPoint, tan: real, maxDist: real, level: Level) returns (hit: Hit)
    requires level.Valid()
    ensures hit == ScanHit(level, VerticalScan(Increasing, start, tan, maxDist), start.y)
  {
    hit := RunScan(level, VerticalScan(Increasing, start, tan, maxDist), start.y);
  }

  /** `scan_vertical_negative`: x runs through `floor(start.x)`, `floor(start.x) - 1`, ..., looking at the column left of the line. */
  method ScanVerticalNegative(start: RPoint, tan: real, maxDist: real, level: Level) returns (hit: Hit)
    requires level.Valid()
    ensures hit == ScanHit(level, VerticalScan(Decreasing, start, tan, maxDist), start.y)
  {
    hit := RunScan(level, VerticalScan(Decreasing, start, tan, maxDist), start.y);
  }

  /** `scan_horizontal_positive`: y runs through `ceil(start.y)`, `ceil(start.y) + 1`, ... */
  method ScanHorizontalPositive(start: RPoint, invTan: real, maxDist: real, level: Level) returns (hit: Hit)
    requires level.Valid()
    ensures hit == ScanHit(level, HorizontalScan(Increasing, start, invTan, maxDist), start.x)
  {
    hit := RunScan(level, HorizontalScan(Increasing, start, invTan, maxDist), start.x);
  }

  /** `scan_horizontal_negative`: y runs through `floor(start.y)`, `floor(start.y) - 1`, ..., looking at the row above the line. */
  method ScanHorizontalNegative(start: RPoint, invTan: real, maxDist: real, level: Level) returns (hit: Hit)
    requires level.Valid()
    ensures hit == ScanHit(level, HorizontalScan(Decreasing, start, invTan, maxDist), start.x)
  {
    hit := RunScan(level, HorizontalScan(Decreasing, start, invTan, maxDist), start.x);
  }

  /** Squared distance; `dist` takes its square root, which keeps the order. */
  function DistSq(p: RPoint, q: RPoint): real
  {
    (p.x - q.x) * (p.x - q.x) + (q.y - p.y) * (q.y - p.y)
  }

  /**
   * The choice at the end of `raycast`: the horizontal hit when it is a hit
   * and strictly nearer, or when the vertical scan found nothing; otherwise
   * the vertical hit, which so wins ties.
   */
  function SelectHit(start: RPoint, vert: Hit, horiz: Hit): (hit: Hit)
    ensures vert.tile == 0 ==> hit == horiz
    ensures vert.tile != 0 && horiz.tile == 0 ==> hit == vert
    ensures vert.tile != 0 && horiz.tile != 0 ==>
              (DistSq(horiz.pos, start) < DistSq(vert.pos, start) ==> hit == horiz)
              && (DistSq(vert.pos, start) <= DistSq(horiz.pos, start) ==> hit == vert)
    ensures hit.tile != 0 <==> vert.tile != 0 || horiz.tile != 0
    ensures hit.tile != 0 ==>
              (vert.tile != 0 ==> DistSq(hit.pos, start) <= DistSq(vert.pos, start))
              && (horiz.tile != 0 ==> DistSq(hit.pos, start) <= DistSq(horiz.pos, start))
  {
    if (DistSq(horiz.pos, start) < DistSq(vert.pos, start) && horiz.tile != 0) || vert.tile == 0 then horiz
    else vert
  }

  /** The vertical scan `raycast` runs: the increasing one exactly when `cos > 0`. */
  function VerticalChoice(cos: real, start: RPoint, tan: real, maxDist: real): (scan: Scan)
    ensures scan.axis == Vertical && (scan.dir == Increasing <==> cos > 0.0)
  {
    VerticalScan(if cos > 0.0 then Increasing else Decreasing, start, tan, maxDist)
  }

  /** The horizontal scan `raycast` runs: the increasing one exactly when `sin > 0`. */
  function HorizontalChoice(sin: real, start: RPoint, invTan: real, maxDist: real): (scan: Scan)
    ensures scan.axis == Horizontal && (scan.dir == Increasing <==> sin > 0.0)
  {
    HorizontalScan(if sin > 0.0 then Increasing else Decreasing, start, invTan, maxDist)
  }

  /** `raycast`: both scans, then the nearer hit. */
  method Raycast(start: RPoint, cos: real, sin: real, tan: real, invTan: real, maxDist: real, level: Level)
    returns (hit: Hit)
    requires level.Valid()
    ensures hit == SelectHit(start, ScanHit(level, VerticalChoice(cos, start, tan, maxDist), start.y),
                             ScanHit(level, HorizontalChoice(sin, start, invTan, maxDist), start.x))
  {
    ghost var vertScan, horizScan := VerticalChoice(cos, start, tan, maxDist), HorizontalChoice(sin, start, invTan, maxDist);
    var vert;
    if cos > 0.0 {
      vert := ScanVerticalPositive(start, tan, maxDist, level);
    } else {
      vert := ScanVerticalNegative(start, tan, maxDist, level);
    }
    assert vert == ScanHit(level, vertScan, start.y);

    var horiz;
    if sin > 0.0 {
      horiz := ScanHorizontalPositive(start, invTan, maxDist, level);
    } else {
      horiz := ScanHorizontalNegative(start, invTan, maxDist, level);
    }
    assert horiz == ScanHit(level, horizScan, start.x);

    hit := SelectHit(start, vert, horiz);
  }
}
