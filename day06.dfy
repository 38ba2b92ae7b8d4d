/** Chronal Coordinates (rust/src/day06.rs): Manhattan distance, the area of
    the bounding box credited to each strictly closest point, the largest area
    not touching the box's edge, and the size of the region whose summed
    distance to all points is below a limit. */
module Day06 {

  import opened Wrappers

  /** `i32::MAX`, the starting `min_dist`. */
  const I32_MAX: int := 0x7FFF_FFFF

  /** The widening of the box in `part2`. */
  const Margin: int := 100

  datatype Point = Point(x: int, y: int)

  function Abs(a: int): (r: int)
    ensures r >= 0 && (r == a || r == -a)
  {
    if a < 0 then -a else a
  }

  /** `manhattan_distance`. */
  function Dist(p: Point, q: Point): (d: int)
    ensures d >= 0
    ensures d == 0 <==> p == q
  {
    Abs(p.x - q.x) + Abs(p.y - q.y)
  }

  lemma DistSymmetric(p: Point, q: Point)
    ensures Dist(p, q) == Dist(q, p)
  {
  }

  lemma DistTriangle(p: Point, q: Point, r: Point)
    ensures Dist(p, r) <= Dist(p, q) + Dist(q, r)
  {
  }

  /** The variables of the scan for the closest point. */
  datatype Nearest = Nearest(minDist: int, closest: Option<nat>, tie: bool)

  /** The scan over the first `n` points for cell `c`. */
  function Scan(points: seq<Point>, c: Point, n: nat): (s: Nearest)
    requires n <= |points|
    ensures s.closest.Some? ==> s.closest.value < n
  {
    if n == 0 then Nearest(I32_MAX, None, false)
    else
      var s := Scan(points, c, n - 1);
      var d := Dist(c, points[n - 1]);
      if d < s.minDist then Nearest(d, Some(n - 1), false)
      else if d == s.minDist then s.(tie := true)
      else s
  }

  /** Every distance from `c` is below `i32::MAX`. */
  predicate Below32(points: seq<Point>, c: Point) {
    forall j :: 0 <= j < |points| ==> Dist(c, points[j]) < I32_MAX
  }

  /** After the scan, `closest` is the first point at the least distance and
      `tie` says that another point is at that distance too. */
  lemma {:induction false} ScanMeans(points: seq<Point>, c: Point, n: nat)
    requires 0 < n <= |points| && Below32(points, c)
    ensures Scan(points, c, n).closest.Some?
    ensures var s := Scan(points, c, n); var k := s.closest.value;
      && s.minDist == Dist(c, points[k])
      && (forall j :: 0 <= j < n ==> Dist(c, points[j]) >= s.minDist)
      && (forall j :: 0 <= j < k ==> Dist(c, points[j]) > s.minDist)
      && (s.tie <==> exists j :: 0 <= j < n && j != k && Dist(c, points[j]) == s.minDist)
  {
    if n > 1 {
      ScanMeans(points, c, n - 1);
    }
  }

  /** The loop over the points for one cell. */
  method ClosestPoint(points: seq<Point>, c: Point) returns (closest: Option<nat>, tie: bool)
    ensures closest == Scan(points, c, |points|).closest && tie == Scan(points, c, |points|).tie
  {
    var minDist := I32_MAX;
    closest := None;
    tie := false;
    for idx := 0 to |points|
      invariant Scan(points, c, idx) == Nearest(minDist, closest, tie)
    {
      var dist := Dist(c, points[idx]);
      if dist < minDist {
        minDist := dist;
        closest := Some(idx);
        tie := false;
      } else if dist == minDist {
        tie := true;
      }
    }
  }

  /** The point a cell is credited to, if any. */
  function Owner(points: seq<Point>, c: Point): Option<nat> {
    var s := Scan(points, c, |points|);
    if s.tie then None else s.closest
  }

  /** A cell is credited to a point exactly when that point is strictly
      closer than every other; ties credit nobody. */
  lemma OwnerIsStrictlyClosest(points: seq<Point>, c: Point, i: nat)
    requires i < |points| && Below32(points, c)
    ensures Owner(points, c) == Some(i) <==> forall j :: 0 <= j < |points| && j != i ==> Dist(c, points[j]) > Dist(c, points[i])
  {
    ScanMeans(points, c, |points|);
  }

  /** An inclusive rectangle of cells. */
  datatype Box = Box(minX: int, maxX: int, minY: int, maxY: int)

  predicate Inside(b: Box, p: Point) {
    b.minX <= p.x <= b.maxX && b.minY <= p.y <= b.maxY
  }

  /** The least and greatest coordinates of the points (the `min`/`max`
      over their x's and y's): every point lies inside, and each side is
      touched by some point. */
  function Hull(points: seq<Point>): (h: Box)
    requires |points| > 0
    ensures forall i :: 0 <= i < |points| ==> Inside(h, points[i])
    ensures exists i :: 0 <= i < |points| && points[i].x == h.minX
    ensures exists i :: 0 <= i < |points| && points[i].x == h.maxX
    ensures exists i :: 0 <= i < |points| && points[i].y == h.minY
    ensures exists i :: 0 <= i < |points| && points[i].y == h.maxY
  {
    var p := points[|points| - 1];
    if |points| == 1 then Box(p.x, p.x, p.y, p.y)
    else
      var init := points[..|points| - 1];
      var h := Hull(init);
      assert forall i :: 0 <= i < |init| ==> init[i] == points[i];
      Box(if p.x < h.minX then p.x else h.minX, if p.x > h.maxX then p.x else h.maxX,
          if p.y < h.minY then p.y else h.minY, if p.y > h.maxY then p.y else h.maxY)
  }

  /** The bounding box of the points, widened by `margin` on every side. */
  function Bounds(points: seq<Point>, margin: int): (b: Box)
    requires |points| > 0
    ensures forall i :: 0 <= i < |points| ==>
      b.minX + margin <= points[i].x <= b.maxX - margin && b.minY + margin <= points[i].y <= b.maxY - margin
  {
    var h := Hull(points);
    Box(h.minX - margin, h.maxX + margin, h.minY - margin, h.maxY + margin)
  }

  predicate OnEdge(b: Box, x: int, y: int) {
    x == b.minX || x == b.maxX || y == b.minY || y == b.maxY
  }

  /** Cell (x, y) is credited to point `i` (and, with `edge`, lies on the
      box's edge). */
  predicate Hit(points: seq<Point>, i: nat, b: Box, x: int, y: int, edge: bool) {
    Owner(points, Point(x, y)) == Some(i) && (!edge || OnEdge(b, x, y))
  }

  /** Hits in column `x` at rows `b.minY .. y - 1`. */
  function ColHits(points: seq<Point>, i: nat, b: Box, x: int, y: int, edge: bool): nat
    decreases y - b.minY
  {
    if y <= b.minY then 0
    else ColHits(points, i, b, x, y - 1, edge) + (if Hit(points, i, b, x, y - 1, edge) then 1 else 0)
  }

  /** Hits in the whole columns `b.minX .. x - 1`. */
  function RegionHits(points: seq<Point>, i: nat, b: Box, x: int, edge: bool): nat
    decreases x - b.minX
  {
    if x <= b.minX then 0
    else RegionHits(points, i, b, x - 1, edge) + ColHits(points, i, b, x - 1, b.maxY + 1, edge)
  }

  /** Hits among the cells the loops have visited before cell (x, y). */
  function Visited(points: seq<Point>, i: nat, b: Box, x: int, y: int, edge: bool): nat {
    RegionHits(points, i, b, x, edge) + ColHits(points, i, b, x, y, edge)
  }

  /** The cells of the box credited to point `i`. */
  function Area(points: seq<Point>, b: Box, i: nat): nat {
    RegionHits(points, i, b, b.maxX + 1, false)
  }

  /** The cells of the box's edge credited to point `i`. */
  function EdgeArea(points: seq<Point>, b: Box, i: nat): nat {
    RegionHits(points, i, b, b.maxX + 1, true)
  }

  /** `areas` holds, for every credited point, its credited cells so far. */
  ghost predicate AreasSoFar(areas: map<nat, nat>, points: seq<Point>, b: Box, x: int, y: int) {
    && (forall i :: i in areas ==> i < |points|)
    && forall i :: 0 <= i < |points| ==>
         && (i in areas <==> Visited(points, i, b, x, y, false) > 0)
         && (i in areas ==> areas[i] == Visited(points, i, b, x, y, false))
  }

  /** `infinite_areas` holds the points credited with an edge cell so far. */
  ghost predicate EdgesSoFar(infinite: set<nat>, points: seq<Point>, b: Box, x: int, y: int) {
    forall i :: i in infinite <==> 0 <= i < |points| && Visited(points, i, b, x, y, true) > 0
  }

  /** Visiting cell (x, y) adds its hit. */
  lemma VisitCell(points: seq<Point>, i: nat, b: Box, x: int, y: int, edge: bool)
    requires b.minY <= y
    ensures Visited(points, i, b, x, y + 1, edge) == Visited(points, i, b, x, y, edge) + (if Hit(points, i, b, x, y, edge) then 1 else 0)
  {
  }

  /** The end of a column is the start of the next one. */
  lemma NextColumn(points: seq<Point>, i: nat, b: Box, x: int, edge: bool)
    requires b.minX <= x
    ensures Visited(points, i, b, x + 1, b.minY, edge) == Visited(points, i, b, x, b.maxY + 1, edge)
  {
  }

  /** A column with no rows has no hits. */
  lemma EmptyColumn(points: seq<Point>, i: nat, b: Box, x: int, y: int, edge: bool)
    requires y <= b.minY && b.maxY + 1 <= b.minY
    ensures ColHits(points, i, b, x, y, edge) == ColHits(points, i, b, x, b.maxY + 1, edge) == 0
  {
  }

  /** One cell of `part1`'s loops: credit the cell, mark an edge cell. */
  method CreditCell(points: seq<Point>, b: Box, x: int, y: int, areas0: map<nat, nat>, infinite0: set<nat>)
    returns (areas: map<nat, nat>, infinite: set<nat>)
    requires b.minY <= y && AreasSoFar(areas0, points, b, x, y) && EdgesSoFar(infinite0, points, b, x, y)
    ensures AreasSoFar(areas, points, b, x, y + 1) && EdgesSoFar(infinite, points, b, x, y + 1)
  {
    areas, infinite := areas0, infinite0;
    var closest, tie := ClosestPoint(points, Point(x, y));
    if !tie {
      if closest.Some? {
        var idx := closest.value;
        areas := areas[idx := (if idx in areas then areas[idx] else 0) + 1];
        if x == b.minX || x == b.maxX || y == b.minY || y == b.maxY {
          infinite := infinite + {idx};
        }
      }
    }
    forall i | 0 <= i < |points|
      ensures && (i in areas <==> Visited(points, i, b, x, y + 1, false) > 0)
              && (i in areas ==> areas[i] == Visited(points, i, b, x, y + 1, false))
              && (i in infinite <==> Visited(points, i, b, x, y + 1, true) > 0)
    {
      VisitCell(points, i, b, x, y, false);
      VisitCell(points, i, b, x, y, true);
    }
  }

  /** One column of `part1`'s loops. */
  method CreditColumn(points: seq<Point>, b: Box, x: int, areas0: map<nat, nat>, infinite0: set<nat>)
    returns (areas: map<nat, nat>, infinite: set<nat>)
    requires b.minX <= x && AreasSoFar(areas0, points, b, x, b.minY) && EdgesSoFar(infinite0, points, b, x, b.minY)
    ensures AreasSoFar(areas, points, b, x + 1, b.minY) && EdgesSoFar(infinite, points, b, x + 1, b.minY)
  {
    areas, infinite := areas0, infinite0;
    var y := b.minY;
    while y <= b.maxY
      invariant b.minY <= y && (y <= b.maxY + 1 || y == b.minY)
      invariant AreasSoFar(areas, points, b, x, y) && EdgesSoFar(infinite, points, b, x, y)
      decreases b.maxY - y
    {
      areas, infinite := CreditCell(points, b, x, y, areas, infinite);
      y := y + 1;
    }
    var next, end := x + 1, b.maxY + 1;
    forall i | 0 <= i < |points|
      ensures Visited(points, i, b, next, b.minY, false) == Visited(points, i, b, x, y, false)
      ensures Visited(points, i, b, next, b.minY, true) == Visited(points, i, b, x, y, true)
    {
      NextColumn(points, i, b, x, false);
      NextColumn(points, i, b, x, true);
      if y != end {
        EmptyColumn(points, i, b, x, y, false);
        EmptyColumn(points, i, b, x, y, true);
      }
    }
  }

  /** The two loops of `part1` over the box: `areas` ends up holding every
      credited point's area and `infinite_areas` the points with an edge cell. */
  method CreditBox(points: seq<Point>, b: Box) returns (areas: map<nat, nat>, infinite: set<nat>)
    requires b.minX <= b.maxX && b.minY <= b.maxY
    ensures forall i :: i in areas ==> i < |points|
    ensures forall i :: 0 <= i < |points| ==>
              && (i in areas <==> Area(points, b, i) > 0)
              && (i in areas ==> areas[i] == Area(points, b, i))
    ensures forall i :: i in infinite <==> 0 <= i < |points| && EdgeArea(points, b, i) > 0
  {
    infinite := {};
    areas := map[];
    var x := b.minX;
    while x <= b.maxX
      invariant b.minX <= x <= b.maxX + 1
      invariant AreasSoFar(areas, points, b, x, b.minY) && EdgesSoFar(infinite, points, b, x, b.minY)
      decreases b.maxX - x
    {
      areas, infinite := CreditColumn(points, b, x, areas, infinite);
      x := x + 1;
    }
  }

  /** `part1`: the largest area credited to a point with no edge cell, 0 if
      there is none; no points make the bounding box `unwrap` panic (None). */
  method Part1(points: seq<Point>) returns (r: Option<nat>)
    ensures r.None? <==> |points| == 0
    ensures r.Some? ==> forall i :: 0 <= i < |points| && EdgeArea(points, Bounds(points, 0), i) == 0 ==>
      Area(points, Bounds(points, 0), i) <= r.value
    ensures r.Some? ==> (r.value == 0 ||
      exists i :: 0 <= i < |points| && EdgeArea(points, Bounds(points, 0), i) == 0 && Area(points, Bounds(points, 0), i) == r.value)
  {
    if |points| == 0 {
      return None;
    }
    var b := Bounds(points, 0);
    assert Inside(b, points[0]);
    var areas, infinite := CreditBox(points, b);
    var best := LargestFinite(areas, infinite);
    r := Some(best.GetOr(0));
  }

  /** The `filter`/`max` over `areas`: the largest value whose key is not in
      `infinite`, None when every key is. */
  method LargestFinite(areas: map<nat, nat>, infinite: set<nat>) returns (best: Option<nat>)
    ensures best.None? <==> forall k :: k in areas ==> k in infinite
    ensures best.Some? ==> forall k :: k in areas && k !in infinite ==> areas[k] <= best.value
    ensures best.Some? ==> exists k :: k in areas && k !in infinite && areas[k] == best.value
  {
    best := None;
    var keys := areas.Keys;
    while keys != {}
      invariant keys <= areas.Keys
      invariant best.None? <==> forall k :: k in areas && k !in keys ==> k in infinite
      invariant best.Some? ==> forall k :: k in areas && k !in keys && k !in infinite ==> areas[k] <= best.value
      invariant best.Some? ==> exists k :: k in areas && k !in keys && k !in infinite && areas[k] == best.value
      decreases keys
    {
      var k :| k in keys;
      if k !in infinite && (best.None? || areas[k] > best.value) {
        best := Some(areas[k]);
      }
      keys := keys - {k};
    }
  }

  /** The summed distance from `c` to every point. */
  function TotalDist(points: seq<Point>, c: Point): (t: int)
    ensures t >= 0
  {
    if points == [] then 0 else TotalDist(points[..|points| - 1], c) + Dist(c, points[|points| - 1])
  }

  /** Cells of column `x` at rows `b.minY .. y - 1` below the limit. */
  function ColSafe(points: seq<Point>, limit: int, b: Box, x: int, y: int): nat
    decreases y - b.minY
  {
    if y <= b.minY then 0
    else ColSafe(points, limit, b, x, y - 1) + (if TotalDist(points, Point(x, y - 1)) < limit then 1 else 0)
  }

  /** Cells of the whole columns `b.minX .. x - 1` below the limit. */
  function RegionSafe(points: seq<Point>, limit: int, b: Box, x: int): nat
    decreases x - b.minX
  {
    if x <= b.minX then 0
    else RegionSafe(points, limit, b, x - 1) + ColSafe(points, limit, b, x - 1, b.maxY + 1)
  }

  /** The inner loop of `part2`: the cells of column `x` below the limit. */
  method CountSafeColumn(points: seq<Point>, limit: int, b: Box, x: int) returns (count: nat)
    requires b.minY <= b.maxY
    ensures count == ColSafe(points, limit, b, x, b.maxY + 1)
  {
    count := 0;
    var y := b.minY;
    while y <= b.maxY
      invariant b.minY <= y <= b.maxY + 1
      invariant count == ColSafe(points, limit, b, x, y)
      decreases b.maxY - y
    {
      var totalDistance := TotalDist(points, Point(x, y));
      if totalDistance < limit {
        count := count + 1;
      }
      y := y + 1;
    }
  }

  /** `part2`: the cells of the box widened by 100 whose summed distance is
      below `max_distance`; no points make the `unwrap` panic (None). */
  method Part2(points: seq<Point>, maxDistance: int) returns (r: Option<nat>)
    ensures r.None? <==> |points| == 0
    ensures r.Some? ==> r.value == RegionSafe(points, maxDistance, Bounds(points, Margin), Bounds(points, Margin).maxX + 1)
  {
    if |points| == 0 {
      return None;
    }
    var b := Bounds(points, Margin);
    assert b.minX <= points[0].x <= b.maxX && b.minY <= points[0].y <= b.maxY;
    var safeRegionSize := 0;
    var x := b.minX;
    while x <= b.maxX
      invariant b.minX <= x <= b.maxX + 1
      invariant safeRegionSize == RegionSafe(points, maxDistance, b, x)
      decreases b.maxX - x
    {
      var column := CountSafeColumn(points, maxDistance, b, x);
      safeRegionSize := safeRegionSize + column;
      x := x + 1;
    }
    r := Some(safeRegionSize);
  }

  /** A column has at most as many safe cells as rows. */
  lemma {:induction false} ColSafeBounded(points: seq<Point>, limit: int, b: Box, x: int, y: int)
    ensures ColSafe(points, limit, b, x, y) <= if y <= b.minY then 0 else y - b.minY
    decreases y - b.minY
  {
    if y > b.minY {
      ColSafeBounded(points, limit, b, x, y - 1);
    }
  }

  /** The safe region has at most as many cells as the box. */
  lemma {:induction false} RegionSafeBounded(points: seq<Point>, limit: int, b: Box, x: int)
    requires b.minY <= b.maxY + 1
    ensures RegionSafe(points, limit, b, x) <= (if x <= b.minX then 0 else x - b.minX) * (b.maxY + 1 - b.minY)
    decreases x - b.minX
  {
    if x > b.minX {
      RegionSafeBounded(points, limit, b, x - 1);
      ColSafeBounded(points, limit, b, x - 1, b.maxY + 1);
      var h, w := b.maxY + 1 - b.minY, x - 1 - b.minX;
      assert (if x - 1 <= b.minX then 0 else x - 1 - b.minX) == w;
      assert (w + 1) * h == w * h + h;
    }
  }

  /** A larger limit never shrinks a column's safe count. */
  lemma {:induction false} ColSafeMonotone(points: seq<Point>, l1: int, l2: int, b: Box, x: int, y: int)
    requires l1 <= l2
    ensures ColSafe(points, l1, b, x, y) <= ColSafe(points, l2, b, x, y)
    decreases y - b.minY
  {
    if y > b.minY {
      ColSafeMonotone(points, l1, l2, b, x, y - 1);
    }
  }

  /** A larger `max_distance` never shrinks the safe region. */
  lemma {:induction false} RegionSafeMonotone(points: seq<Point>, l1: int, l2: int, b: Box, x: int)
    requires l1 <= l2
    ensures RegionSafe(points, l1, b, x) <= RegionSafe(points, l2, b, x)
    decreases x - b.minX
  {
    if x > b.minX {
      RegionSafeMonotone(points, l1, l2, b, x - 1);
      ColSafeMonotone(points, l1, l2, b, x - 1, b.maxY + 1);
    }
  }

  /** A limit no larger than 0 leaves the safe region empty. */
  lemma {:induction false} NothingBelowZero(points: seq<Point>, limit: int, b: Box, x: int)
    requires limit <= 0
    ensures RegionSafe(points, limit, b, x) == 0
    decreases x - b.minX
  {
    if x > b.minX {
      NothingBelowZero(points, limit, b, x - 1);
      ColSafeMonotone(points, limit, 0, b, x - 1, b.maxY + 1);
      ColNothingBelowZero(points, b, x - 1, b.maxY + 1);
    }
  }

  lemma {:induction false} ColNothingBelowZero(points: seq<Point>, b: Box, x: int, y: int)
    ensures ColSafe(points, 0, b, x, y) == 0
    decreases y - b.minY
  {
    if y > b.minY {
      ColNothingBelowZero(points, b, x, y - 1);
    }
  }
}
