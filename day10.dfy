/** The Stars Align (rust/src/day10.rs): points of light move with constant
    velocities; the message shows at the last second before the bounding
    box of the points starts to grow again. */
module Day10 {

  import opened Wrappers

  /** A point of light, its position and its velocity. */
  datatype Point = Point(x: int, y: int, vx: int, vy: int)

  /** `Point::step`: one second forward. */
  function Step(p: Point): Point {
    p.(x := p.x + p.vx, y := p.y + p.vy)
  }

  /** `Point::step_back`: one second backward. */
  function StepBack(p: Point): Point {
    p.(x := p.x - p.vx, y := p.y - p.vy)
  }

  /** `step` and `step_back` undo each other. */
  lemma StepBackUndoesStep(p: Point)
    ensures StepBack(Step(p)) == p && Step(StepBack(p)) == p
    ensures Step(p).vx == p.vx && Step(p).vy == p.vy
  {
  }

  /** Every point one second forward. */
  function StepEach(ps: seq<Point>): (r: seq<Point>)
    ensures |r| == |ps|
  {
    seq(|ps|, i requires 0 <= i < |ps| => Step(ps[i]))
  }

  /** Every point one second backward. */
  function StepBackEach(ps: seq<Point>): (r: seq<Point>)
    ensures |r| == |ps|
  {
    seq(|ps|, i requires 0 <= i < |ps| => StepBack(ps[i]))
  }

  /** Stepping all points back undoes stepping them all forward. */
  lemma StepBackEachUndoes(ps: seq<Point>)
    ensures StepBackEach(StepEach(ps)) == ps
  {
    var r := StepBackEach(StepEach(ps));
    forall i | 0 <= i < |ps|
      ensures r[i] == ps[i]
    {
      StepBackUndoesStep(ps[i]);
    }
  }

  /** The points after `t` seconds. */
  function Advance(ps: seq<Point>, t: nat): (r: seq<Point>)
    ensures |r| == |ps|
  {
    if t == 0 then ps else StepEach(Advance(ps, t - 1))
  }

  /** One more second. */
  lemma AdvanceStep(ps: seq<Point>, t: nat, rest: nat)
    requires rest + 1 == t
    ensures Advance(ps, t) == StepEach(Advance(ps, rest))
  {
  }

  /** The loop over `points.iter_mut()` calling `step`. */
  method StepAll(a: array<Point>)
    modifies a
    ensures a[..] == StepEach(old(a[..]))
  {
    for i := 0 to a.Length
      invariant forall j :: 0 <= j < i ==> a[j] == Step(old(a[j]))
      invariant forall j :: i <= j < a.Length ==> a[j] == old(a[j])
    {
      a[i] := Step(a[i]);
    }
  }

  /** The loop over `points.iter_mut()` calling `step_back`. */
  method StepBackAll(a: array<Point>)
    modifies a
    ensures a[..] == StepBackEach(old(a[..]))
  {
    for i := 0 to a.Length
      invariant forall j :: 0 <= j < i ==> a[j] == StepBack(old(a[j]))
      invariant forall j :: i <= j < a.Length ==> a[j] == old(a[j])
    {
      a[i] := StepBack(a[i]);
    }
  }

  /** `Iterator::min` over a non-empty sequence. */
  function MinOf(xs: seq<int>): (m: int)
    requires |xs| > 0
    ensures m in xs && forall i :: 0 <= i < |xs| ==> m <= xs[i]
  {
    if |xs| == 1 then xs[0]
    else
      var r := MinOf(xs[1..]);
      assert r in xs;
      if xs[0] <= r then xs[0] else r
  }

  /** `Iterator::max` over a non-empty sequence. */
  function MaxOf(xs: seq<int>): (m: int)
    requires |xs| > 0
    ensures m in xs && forall i :: 0 <= i < |xs| ==> xs[i] <= m
  {
    if |xs| == 1 then xs[0]
    else
      var r := MaxOf(xs[1..]);
      assert r in xs;
      if xs[0] >= r then xs[0] else r
  }

  function Xs(ps: seq<Point>): (xs: seq<int>)
    ensures |xs| == |ps|
  {
    seq(|ps|, i requires 0 <= i < |ps| => ps[i].x)
  }

  function Ys(ps: seq<Point>): (ys: seq<int>)
    ensures |ys| == |ps|
  {
    seq(|ps|, i requires 0 <= i < |ps| => ps[i].y)
  }

  /** The tuple `(min_x, max_x, min_y, max_y)`. */
  datatype Box = Box(minX: int, maxX: int, minY: int, maxY: int)

  /** Every point lies in the box. */
  predicate Encloses(b: Box, ps: seq<Point>) {
    forall i :: 0 <= i < |ps| ==> b.minX <= ps[i].x <= b.maxX && b.minY <= ps[i].y <= b.maxY
  }

  /** Each side of the box touches a point. */
  predicate Tight(b: Box, ps: seq<Point>) {
    (exists i :: 0 <= i < |ps| && ps[i].x == b.minX)
    && (exists i :: 0 <= i < |ps| && ps[i].x == b.maxX)
    && (exists i :: 0 <= i < |ps| && ps[i].y == b.minY)
    && (exists i :: 0 <= i < |ps| && ps[i].y == b.maxY)
  }

  /** `bounding_box`: it panics on an empty list. */
  function BoundingBox(ps: seq<Point>): (b: Box)
    requires |ps| > 0
    ensures b.minX <= b.maxX && b.minY <= b.maxY
  {
    var xs, ys := Xs(ps), Ys(ps);
    assert MinOf(xs) <= xs[0] <= MaxOf(xs) && MinOf(ys) <= ys[0] <= MaxOf(ys);
    Box(MinOf(xs), MaxOf(xs), MinOf(ys), MaxOf(ys))
  }

  /** The bounding box encloses the points and touches one on each side. */
  lemma BoundingBoxFits(ps: seq<Point>)
    requires |ps| > 0
    ensures Encloses(BoundingBox(ps), ps) && Tight(BoundingBox(ps), ps)
  {
    var xs, ys := Xs(ps), Ys(ps);
    var b := BoundingBox(ps);
    assert forall i :: 0 <= i < |ps| ==> ps[i].x == xs[i] && ps[i].y == ys[i];
    var i0 :| 0 <= i0 < |xs| && xs[i0] == b.minX;
    var i1 :| 0 <= i1 < |xs| && xs[i1] == b.maxX;
    var i2 :| 0 <= i2 < |ys| && ys[i2] == b.minY;
    var i3 :| 0 <= i3 < |ys| && ys[i3] == b.maxY;
    assert ps[i0].x == b.minX && ps[i1].x == b.maxX && ps[i2].y == b.minY && ps[i3].y == b.maxY;
  }

  /** A box that encloses the points and touches them on every side is the
      bounding box. */
  lemma BoundingBoxUnique(b: Box, ps: seq<Point>)
    requires |ps| > 0 && Encloses(b, ps) && Tight(b, ps)
    ensures b == BoundingBox(ps)
  {
    var c := BoundingBox(ps);
    BoundingBoxFits(ps);
    var i0 :| 0 <= i0 < |ps| && ps[i0].x == b.minX;
    var i1 :| 0 <= i1 < |ps| && ps[i1].x == b.maxX;
    var i2 :| 0 <= i2 < |ps| && ps[i2].y == b.minY;
    var i3 :| 0 <= i3 < |ps| && ps[i3].y == b.maxY;
    var j0 :| 0 <= j0 < |ps| && ps[j0].x == c.minX;
    var j1 :| 0 <= j1 < |ps| && ps[j1].x == c.maxX;
    var j2 :| 0 <= j2 < |ps| && ps[j2].y == c.minY;
    var j3 :| 0 <= j3 < |ps| && ps[j3].y == c.maxY;
    assert b.minX <= ps[j0].x && c.minX <= ps[i0].x;
    assert b.maxX >= ps[j1].x && c.maxX >= ps[i1].x;
    assert b.minY <= ps[j2].y && c.minY <= ps[i2].y;
    assert b.maxY >= ps[j3].y && c.maxY >= ps[i3].y;
  }

  /** `area_size`: the product of the box's width and height. */
  function AreaSize(ps: seq<Point>): (a: int)
    requires |ps| > 0
  {
    BoxArea(BoundingBox(ps))
  }

  /** The width of a box times its height, as `i64`. */
  function BoxArea(b: Box): int {
    (b.maxX - b.minX) * (b.maxY - b.minY)
  }

  /** The area is never negative, and it is zero exactly when all points
      share a column or all share a row. */
  lemma {:induction false} AreaZeroIffLine(ps: seq<Point>)
    requires |ps| > 0
    ensures AreaSize(ps) >= 0
    ensures AreaSize(ps) == 0 <==>
      (forall i :: 0 <= i < |ps| ==> ps[i].x == ps[0].x)
      || (forall i :: 0 <= i < |ps| ==> ps[i].y == ps[0].y)
  {
    var b := BoundingBox(ps);
    BoundingBoxFits(ps);
    var w, h := b.maxX - b.minX, b.maxY - b.minY;
    assert w >= 0 && h >= 0 by {
      assert b.minX <= ps[0].x <= b.maxX && b.minY <= ps[0].y <= b.maxY;
    }
    if w == 0 {
      assert forall i :: 0 <= i < |ps| ==> ps[i].x == ps[0].x by {
        assert b.minX <= ps[0].x <= b.maxX;
      }
    } else if h == 0 {
      assert forall i :: 0 <= i < |ps| ==> ps[i].y == ps[0].y by {
        assert b.minY <= ps[0].y <= b.maxY;
      }
    } else {
      assert w * h > 0 by {
        MulPositive(w, h);
      }
      var i0 :| 0 <= i0 < |ps| && ps[i0].x == b.minX;
      var i1 :| 0 <= i1 < |ps| && ps[i1].x == b.maxX;
      var i2 :| 0 <= i2 < |ps| && ps[i2].y == b.minY;
      var i3 :| 0 <= i3 < |ps| && ps[i3].y == b.maxY;
      assert ps[i0].x != ps[i1].x && ps[i2].y != ps[i3].y;
    }
    assert AreaSize(ps) == w * h;
    assert w * h >= 0 by {
      if w > 0 && h > 0 {
        MulPositive(w, h);
      }
    }
  }

  lemma MulPositive(a: int, b: int)
    requires a > 0 && b > 0
    ensures a * b > 0
  {
  }

  /** The coordinates of the points, as the `HashSet` `point_set`. */
  function PointSet(ps: seq<Point>): set<(int, int)> {
    set p | p in ps :: (p.x, p.y)
  }

  /** `(x, y)` is lit exactly when some point is there. */
  lemma PointSetHolds(ps: seq<Point>, x: int, y: int)
    ensures (x, y) in PointSet(ps) <==> exists i :: 0 <= i < |ps| && ps[i].x == x && ps[i].y == y
  {
    if (x, y) in PointSet(ps) {
      var p :| p in ps && (p.x, p.y) == (x, y);
      var i :| 0 <= i < |ps| && ps[i] == p;
    }
  }

  /** The character drawn for cell `(x, y)`. */
  function Cell(lit: set<(int, int)>, x: int, y: int): char {
    if (x, y) in lit then '#' else '.'
  }

  /** The first `k` cells of row `y`, from `minX`. */
  function Cells(lit: set<(int, int)>, minX: int, y: int, k: nat): (r: seq<char>)
    ensures |r| == k
  {
    seq(k, i requires 0 <= i < k => Cell(lit, minX + i, y))
  }

  lemma CellsStep(lit: set<(int, int)>, minX: int, y: int, k: nat, rest: nat)
    requires rest + 1 == k
    ensures Cells(lit, minX, y, k) == Cells(lit, minX, y, rest) + [Cell(lit, minX + rest, y)]
  {
    assert Cells(lit, minX, y, k)[..rest] == Cells(lit, minX, y, rest);
  }

  /** Row `y` of the picture: `width` cells from `minX`, then a newline. */
  function Line(lit: set<(int, int)>, minX: int, width: nat, y: int): (l: string)
    ensures |l| == width + 1
  {
    Cells(lit, minX, y, width) + ['\n']
  }

  /** `height` rows of the picture from row `minY`. */
  function LinesOf(lit: set<(int, int)>, minX: int, width: nat, minY: int, height: nat): (ls: seq<string>)
    ensures |ls| == height
    ensures forall r :: 0 <= r < height ==> ls[r] == Line(lit, minX, width, minY + r)
  {
    seq(height, r => Line(lit, minX, width, minY + r))
  }

  /** The rows of the picture of box `b`, from `min_y` to `max_y`. */
  function BoxLines(lit: set<(int, int)>, b: Box): (ls: seq<string>)
    requires b.minX <= b.maxX && b.minY <= b.maxY
  {
    LinesOf(lit, b.minX, b.maxX - b.minX + 1, b.minY, b.maxY - b.minY + 1)
  }

  /** The rows of the picture of the points. */
  function Lines(ps: seq<Point>): (ls: seq<string>)
    requires |ps| > 0
  {
    BoxLines(PointSet(ps), BoundingBox(ps))
  }

  /** The lines one after another. */
  function Concat(ls: seq<string>): string {
    if ls == [] then [] else Concat(ls[..|ls| - 1]) + ls[|ls| - 1]
  }

  lemma ConcatStep(ls: seq<string>, k: nat, rest: nat)
    requires rest + 1 == k <= |ls|
    ensures Concat(ls[..k]) == Concat(ls[..rest]) + ls[rest]
  {
    assert ls[..k][..rest] == ls[..rest];
  }

  /** The text `display_points` builds. */
  function Render(ps: seq<Point>): (s: string)
    requires |ps| > 0
  {
    Concat(Lines(ps))
  }

  /** The picture has one line per row of the box, each as wide as the box
      plus a newline. */
  lemma RenderLines(ps: seq<Point>, r: nat)
    requires |ps| > 0
    ensures var b := BoundingBox(ps);
      Render(ps) == Concat(Lines(ps)) && |Lines(ps)| == b.maxY - b.minY + 1
      && (r < |Lines(ps)| ==>
            |Lines(ps)[r]| == b.maxX - b.minX + 2 && Lines(ps)[r][b.maxX - b.minX + 1] == '\n')
  {
  }

  /** Cell `c` of line `r` of the picture of box `b`. */
  lemma BoxCell(lit: set<(int, int)>, b: Box, r: nat, c: nat)
    requires b.minX <= b.maxX && b.minY <= b.maxY
    requires r <= b.maxY - b.minY && c <= b.maxX - b.minX
    ensures BoxLines(lit, b)[r][c] == Cell(lit, b.minX + c, b.minY + r)
  {
    var width := b.maxX - b.minX + 1;
    var l := Line(lit, b.minX, width, b.minY + r);
    assert BoxLines(lit, b)[r] == l;
    assert l[c] == Cells(lit, b.minX, b.minY + r, width)[c];
  }

  /** In each line, '#' marks exactly the cells where a point is, and '.'
      every other cell. */
  lemma RenderCells(ps: seq<Point>, r: nat, c: nat)
    requires |ps| > 0
    requires r < |Lines(ps)| && c <= BoundingBox(ps).maxX - BoundingBox(ps).minX
    ensures Lines(ps)[r][c] == '#' || Lines(ps)[r][c] == '.'
    ensures Lines(ps)[r][c] == '#' <==>
      exists i :: 0 <= i < |ps| && ps[i].x == BoundingBox(ps).minX + c && ps[i].y == BoundingBox(ps).minY + r
  {
    var b := BoundingBox(ps);
    BoxCell(PointSet(ps), b, r, c);
    PointSetHolds(ps, b.minX + c, b.minY + r);
  }

  /** The inner loop of `display_points`: row `y`, cell by cell, then the
      newline. */
  method DrawRow(lit: set<(int, int)>, minX: int, maxX: int, y: int) returns (row: string)
    requires minX <= maxX
    ensures row == Line(lit, minX, maxX - minX + 1, y)
  {
    row := [];
    var x := minX;
    while x <= maxX
      invariant minX <= x <= maxX + 1
      invariant row == Cells(lit, minX, y, x - minX)
    {
      CellsStep(lit, minX, y, x - minX + 1, x - minX);
      if (x, y) in lit {
        row := row + ['#'];
      } else {
        row := row + ['.'];
      }
      x := x + 1;
    }
    row := row + ['\n'];
  }

  /** The outer loop of `display_points`: the rows of box `b`. */
  method DrawBox(lit: set<(int, int)>, b: Box) returns (s: string)
    requires b.minX <= b.maxX && b.minY <= b.maxY
    ensures s == Concat(BoxLines(lit, b))
  {
    var width := b.maxX - b.minX + 1;
    ghost var lines := BoxLines(lit, b);
    s := [];
    var k := 0;
    while k <= b.maxY - b.minY
      invariant 0 <= k <= b.maxY - b.minY + 1
      invariant s == Concat(lines[..k])
    {
      var y := b.minY + k;
      var row := DrawRow(lit, b.minX, b.maxX, y);
      assert lines[k] == Line(lit, b.minX, width, y);
      ConcatStep(lines, k + 1, k);
      s := s + row;
      k := k + 1;
    }
    assert lines[..k] == lines;
  }

  /** `display_points`: the rows from `min_y` to `max_y`, each the cells from
      `min_x` to `max_x` then a newline, '#' where the set of points holds
      the cell. */
  method DisplayPoints(ps: seq<Point>) returns (s: string)
    requires |ps| > 0
    ensures s == Render(ps)
  {
    var b := BoundingBox(ps);
    var lit := PointSet(ps);
    s := DrawBox(lit, b);
  }

  /** The area after `t` seconds; `solve` panics on an empty list, so the
      value for one is never used. */
  function AreaAt(ps: seq<Point>, t: nat): int {
    if |ps| == 0 then 0 else AreaSize(Advance(ps, t))
  }

  /** The area as time passes. */
  function AreaCurve(ps: seq<Point>): nat -> int {
    (t: nat) => AreaAt(ps, t)
  }

  /** The area does not grow from second `s` to the next. */
  predicate Shrinks(area: nat -> int, s: nat) {
    area(s + 1) <= area(s)
  }

  /** The second `solve` stops at, searching the seconds from `t` up to
      `limit`: the first `s` whose next second has a larger area. */
  function FirstGrowth(area: nat -> int, t: nat, limit: nat): (r: Option<nat>)
    decreases limit - t
    ensures r.Some? ==> t <= r.value < limit && !Shrinks(area, r.value)
    ensures r.Some? ==> forall s :: t <= s < r.value ==> Shrinks(area, s)
    ensures r.None? ==> forall s :: t <= s < limit ==> Shrinks(area, s)
  {
    if limit <= t then None
    else if area(t + 1) > area(t) then Some(t)
    else FirstGrowth(area, t + 1, limit)
  }

  /** `solve`: step every point until the area grows, undo that step, and
      return the picture and the number of seconds. The source loops until
      the area grows; here the search gives up at second `limit`. */
  method Solve(input: seq<Point>, limit: nat) returns (r: Option<(string, nat)>)
    requires |input| > 0
    ensures FirstGrowth(AreaCurve(input), 0, limit).None? ==> r.None?
    ensures FirstGrowth(AreaCurve(input), 0, limit).Some? ==>
      var s := FirstGrowth(AreaCurve(input), 0, limit).value;
      r == Some((Render(Advance(input, s)), s))
  {
    var points := new Point[|input|](i requires 0 <= i < |input| => input[i]);
    assert points[..] == input;
    var seconds: nat := 0;
    var prevArea := AreaSize(points[..]);
    ghost var area := AreaCurve(input);
    while seconds < limit
      invariant seconds <= limit
      invariant points[..] == Advance(input, seconds)
      invariant prevArea == area(seconds)
      invariant FirstGrowth(area, seconds, limit) == FirstGrowth(area, 0, limit)
    {
      ghost var before := points[..];
      StepAll(points);
      var next := seconds + 1;
      AdvanceStep(input, next, seconds);
      var currentArea := AreaSize(points[..]);
      assert currentArea == area(next);
      if currentArea > prevArea {
        StepBackAll(points);
        StepBackEachUndoes(before);
        var text := DisplayPoints(points[..]);
        return Some((text, seconds));
      }
      prevArea := currentArea;
      seconds := next;
    }
    return None;
  }

  /** `part1` and `part2` are the two halves of `solve`'s result. */
  method Parts(input: seq<Point>, limit: nat) returns (message: Option<string>, seconds: Option<nat>)
    requires |input| > 0
    ensures message.Some? <==> seconds.Some?
    ensures seconds == FirstGrowth(AreaCurve(input), 0, limit)
    ensures seconds.Some? ==> message == Some(Render(Advance(input, seconds.value)))
  {
    var r := Solve(input, limit);
    if r.Some? {
      message, seconds := Some(r.value.0), Some(r.value.1);
    } else {
      message, seconds := None, None;
    }
  }
}
