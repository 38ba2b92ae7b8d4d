/** The safe region on a fixed grid (python/6/problem2.py): an N×N grid of
    zeros, a cell set to 1 when its summed distance to all points is below
    10000, and the number of cells set. */
module Day06Script {

  import Day06

  /** The grid size of the script (10 only in its debug branch). */
  const N: nat := 1000

  /** The summed-distance limit. */
  const Limit: int := 10000

  /** `Point(number, x, y)`. */
  datatype Point = Point(number: int, x: int, y: int)

  /** `Point.dist`: the Manhattan distance to (x, y). */
  function Dist(p: Point, x: int, y: int): (d: int)
    ensures d >= 0
  {
    (if p.x - x < 0 then x - p.x else p.x - x) + (if p.y - y < 0 then y - p.y else p.y - y)
  }

  /** It is the distance of rust/src/day06.rs. */
  lemma DistAgrees(p: Point, x: int, y: int)
    ensures Dist(p, x, y) == Day06.Dist(Day06.Point(p.x, p.y), Day06.Point(x, y))
  {
  }

  /** The points numbered from 1 in input order. */
  method ReadPoints(coords: seq<(int, int)>) returns (points: seq<Point>)
    ensures |points| == |coords|
    ensures forall k :: 0 <= k < |coords| ==> points[k] == Point(k + 1, coords[k].0, coords[k].1)
  {
    var number := 1;
    points := [];
    for k := 0 to |coords|
      invariant number == k + 1 && |points| == k
      invariant forall j :: 0 <= j < k ==> points[j] == Point(j + 1, coords[j].0, coords[j].1)
    {
      points := points + [Point(number, coords[k].0, coords[k].1)];
      number := number + 1;
    }
  }

  /** `total` for cell (x, y): the summed distance to the points. */
  function Total(points: seq<Point>, x: int, y: int): (t: int)
    ensures t >= 0
  {
    if points == [] then 0 else Total(points[..|points| - 1], x, y) + Dist(points[|points| - 1], x, y)
  }

  predicate Safe(points: seq<Point>, x: int, y: int) {
    Total(points, x, y) < Limit
  }

  /** The safe cells of row `y` at columns `0 .. x - 1`. */
  function RowSafe(points: seq<Point>, y: nat, x: nat): (c: nat)
    ensures c <= x
  {
    if x == 0 then 0 else RowSafe(points, y, x - 1) + (if Safe(points, x - 1, y) then 1 else 0)
  }

  /** The safe cells of rows `0 .. y - 1` of an `n`-wide grid. */
  function GridSafe(points: seq<Point>, n: nat, y: nat): (c: nat)
    ensures c <= y * n
  {
    if y == 0 then 0 else GridSafe(points, n, y - 1) + RowSafe(points, y - 1, n)
  }

  /** The grid marks exactly the safe cells. */
  ghost predicate Marked(area: seq<seq<int>>, points: seq<Point>, n: nat) {
    && |area| == n
    && (forall y :: 0 <= y < n ==> |area[y]| == n)
    && forall y, x :: 0 <= y < n && 0 <= x < n ==> area[y][x] == if Safe(points, x, y) then 1 else 0
  }

  /** The nested loops: a grid of zeros, then 1 on every safe cell. */
  method MarkArea(points: seq<Point>, n: nat) returns (area: seq<seq<int>>)
    ensures Marked(area, points, n)
  {
    area := [];
    for a := 0 to n
      invariant |area| == a && forall y :: 0 <= y < a ==> area[y] == seq(n, _ => 0)
    {
      area := area + [seq(n, _ => 0)];
    }
    for y := 0 to n
      invariant |area| == n && forall r :: 0 <= r < n ==> |area[r]| == n
      invariant forall r, x :: 0 <= r < y && 0 <= x < n ==> area[r][x] == if Safe(points, x, r) then 1 else 0
      invariant forall r, x :: y <= r < n && 0 <= x < n ==> area[r][x] == 0
    {
      for x := 0 to n
        invariant |area| == n && forall r :: 0 <= r < n ==> |area[r]| == n
        invariant forall r, c :: 0 <= r < y && 0 <= c < n ==> area[r][c] == if Safe(points, c, r) then 1 else 0
        invariant forall c :: 0 <= c < x ==> area[y][c] == if Safe(points, c, y) then 1 else 0
        invariant forall r, c :: 0 <= r < n && 0 <= c < n && (r > y || (r == y && c >= x)) ==> area[r][c] == 0
      {
        var total := Total(points, x, y);
        if total < Limit {
          area := area[y := area[y][x := 1]];
        }
      }
    }
  }

  /** Python's `sum` of a list. */
  function Sum(row: seq<int>): int {
    if row == [] then 0 else Sum(row[..|row| - 1]) + row[|row| - 1]
  }

  /** A marked row sums to its number of safe cells. */
  lemma {:induction false} RowSumIsCount(area: seq<seq<int>>, points: seq<Point>, n: nat, y: nat, x: nat)
    requires Marked(area, points, n) && y < n && x <= n
    ensures Sum(area[y][..x]) == RowSafe(points, y, x)
  {
    if x > 0 {
      assert area[y][..x][..x - 1] == area[y][..x - 1];
      RowSumIsCount(area, points, n, y, x - 1);
    }
  }

  /** The final loop adds up the rows. */
  method SumArea(area: seq<seq<int>>) returns (total: int)
    ensures total == SumRows(area)
  {
    total := 0;
    for y := 0 to |area|
      invariant total == SumRows(area[..y])
    {
      assert area[..y + 1][..y] == area[..y];
      total := total + Sum(area[y]);
    }
    assert area[..|area|] == area;
  }

  function SumRows(area: seq<seq<int>>): int {
    if area == [] then 0 else SumRows(area[..|area| - 1]) + Sum(area[|area| - 1])
  }

  /** The printed total is the number of cells set to 1, that is the
      number of safe cells of the grid. */
  lemma {:induction false} TotalIsSafeCount(area: seq<seq<int>>, points: seq<Point>, n: nat, y: nat)
    requires Marked(area, points, n) && y <= n
    ensures SumRows(area[..y]) == GridSafe(points, n, y)
  {
    if y > 0 {
      assert area[..y][..y - 1] == area[..y - 1];
      TotalIsSafeCount(area, points, n, y - 1);
      RowSumIsCount(area, points, n, y - 1, n);
      assert area[y - 1][..n] == area[y - 1];
    }
  }

  /** The script over the parsed coordinates. */
  method Script(coords: seq<(int, int)>) returns (total: int)
    ensures total == GridSafe(Points(coords), N, N)
  {
    var points := ReadPoints(coords);
    assert points == Points(coords);
    var area := MarkArea(points, N);
    total := SumArea(area);
    TotalIsSafeCount(area, points, N, N);
    assert area[..N] == area;
  }

  /** The points `ReadPoints` builds, as a value. */
  function Points(coords: seq<(int, int)>): seq<Point> {
    seq(|coords|, k requires 0 <= k < |coords| => Point(k + 1, coords[k].0, coords[k].1))
  }

  /** The summed distance is at least the distance to each point, so a cell
      10000 or more away from any one point is never set. */
  lemma {:induction false} TotalAtLeastEach(points: seq<Point>, x: int, y: int, k: nat)
    requires k < |points|
    ensures Total(points, x, y) >= Dist(points[k], x, y)
  {
    if k < |points| - 1 {
      TotalAtLeastEach(points[..|points| - 1], x, y, k);
    }
  }
}
