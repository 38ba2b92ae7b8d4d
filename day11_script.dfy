// Day 11, the Python script: the same power levels computed with Python's
// floor `%` and `//`, a grid of lists built by appending, and a scan of every
// 3x3 square that keeps the first strictly larger sum.

module Day11Script {
  import Day11

  /** Side of the grid. */
  const N: int := 300

  /** The starting answer (sum, x, y): a sum of -10 at no cell. */
  const Start: (int, int, int) := (-10, -1, -1)

  /** power_level with Python's operators: `%` and `//` by a positive number floor, so the digit is never negative. */
  function PowerLevel(x: int, y: int, serial: int): (p: int)
    ensures -5 <= p <= 4
  {
    var rackId := x + 10;
    (rackId * y + serial) * rackId % 1000 / 100 - 5
  }

  /** Where the product is not negative, the Python and Rust formulas agree. */
  lemma AgreesWithRust(x: int, y: int, serial: int)
    requires Day11.Charge(x, y, serial) >= 0
    ensures PowerLevel(x, y, serial) == Day11.PowerLevel(x, y, serial)
  {
    Day11.PowerLevelIsHundredsDigit(x, y, serial);
  }

  /** The puzzle's worked examples hold for the Python formula too. */
  lemma PowerLevelSamples()
    ensures PowerLevel(3, 5, 8) == 4
    ensures PowerLevel(122, 79, 57) == -5
    ensures PowerLevel(217, 196, 39) == 0
    ensures PowerLevel(101, 153, 71) == 4
  {
    assert 73 * 13 == 949;
    assert 10485 * 132 == 1384020;
    assert 44531 * 227 == 10108537;
    assert 17054 * 111 == 1892994;
  }

  /** `grid[j][i]` is the power level of cell (i + 1, j + 1). */
  ghost predicate IsGrid(grid: seq<seq<int>>, serial: int)
  {
    |grid| == N
    && (forall j :: 0 <= j < N ==> |grid[j]| == N)
    && forall j, i :: 0 <= j < N && 0 <= i < N ==> grid[j][i] == PowerLevel(i + 1, j + 1, serial)
  }

  /** The grid of the script: rows appended one by one, each built by appending cells. */
  method BuildGrid(serial: int) returns (grid: seq<seq<int>>)
    ensures IsGrid(grid, serial)
  {
    grid := [];
    for j := 0 to N
      invariant |grid| == j
      invariant forall jj :: 0 <= jj < j ==> |grid[jj]| == N
      invariant forall jj, i :: 0 <= jj < j && 0 <= i < N ==> grid[jj][i] == PowerLevel(i + 1, jj + 1, serial)
    {
      var y2 := j + 1;
      var line := [];
      for i := 0 to N
        invariant |line| == i
        invariant forall ii :: 0 <= ii < i ==> line[ii] == PowerLevel(ii + 1, y2, serial)
      {
        var x2 := i + 1;
        line := line + [PowerLevel(x2, y2, serial)];
      }
      grid := grid + [line];
    }
  }

  /** Python's `row[a:b]` for 0 <= a <= b: bounds past the end are cut back to it. */
  function Slice(row: seq<int>, a: nat, b: nat): (r: seq<int>)
    requires a <= b
    ensures |r| <= b - a
    ensures b <= |row| ==> r == row[a..b]
  {
    var lo := if a <= |row| then a else |row|;
    var hi := if b <= |row| then b else |row|;
    row[lo..hi]
  }

  /** Python's `sum`. */
  function Sum(s: seq<int>): int
  {
    if |s| == 0 then 0 else Sum(s[..|s| - 1]) + s[|s| - 1]
  }

  /** The slices x - 1 .. x + 2 of the first k of the rows y - 1, y, y + 1, summed. */
  function Rows(grid: seq<seq<int>>, x: int, y: int, k: nat): int
    requires 1 <= x && 1 <= y && y - 1 + k <= |grid|
  {
    if k == 0 then 0 else Rows(grid, x, y, k - 1) + Sum(Slice(grid[y - 2 + k], x - 1, x + 2))
  }

  /** The value sum_3x3 computes. */
  function Window(grid: seq<seq<int>>, x: int, y: int): int
    requires 1 <= x && 1 <= y && y + 1 < |grid|
  {
    Rows(grid, x, y, 3)
  }

  /** sum_3x3: adds up three slices of three rows, one row per turn of the loop. */
  method Sum3x3(grid: seq<seq<int>>, x: int, y: int) returns (s: int)
    requires 1 <= x && 1 <= y && y + 1 < |grid|
    ensures s == Window(grid, x, y)
  {
    s := 0;
    for j := 0 to 3
      invariant s == Rows(grid, x, y, j)
    {
      s := s + Sum(Slice(grid[y - 1 + j], x - 1, x + 2));
    }
  }

  lemma SumOfThree(a: int, b: int, c: int)
    ensures Sum([a, b, c]) == a + b + c
  {
    assert [a, b, c][..2] == [a, b];
    assert [a, b][..1] == [a];
    assert Sum([a]) == a by {
      assert [a][..0] == [];
    }
  }

  lemma RowsOfThree(grid: seq<seq<int>>, x: int, y: int)
    requires 1 <= x && 1 <= y && y + 1 < |grid|
    ensures Window(grid, x, y)
         == Sum(Slice(grid[y - 1], x - 1, x + 2)) + Sum(Slice(grid[y], x - 1, x + 2)) + Sum(Slice(grid[y + 1], x - 1, x + 2))
  {
    assert Rows(grid, x, y, 1) == Sum(Slice(grid[y - 1], x - 1, x + 2));
    assert Rows(grid, x, y, 2) == Rows(grid, x, y, 1) + Sum(Slice(grid[y], x - 1, x + 2));
  }

  lemma BlockOfThree(level: (int, int) -> int, x1: int, x2: int, y: int)
    requires x1 <= x2
    ensures Day11.Block(level, x1, x2, y, y + 3)
         == Day11.Span(level, y + 1, x1, x2) + Day11.Span(level, y + 2, x1, x2) + Day11.Span(level, y + 3, x1, x2)
  {
    assert Day11.Block(level, x1, x2, y, y + 1) == Day11.Span(level, y + 1, x1, x2);
    assert Day11.Block(level, x1, x2, y, y + 2) == Day11.Block(level, x1, x2, y, y + 1) + Day11.Span(level, y + 2, x1, x2);
  }

  lemma SpanOfThree(level: (int, int) -> int, y: int, a: int)
    ensures Day11.Span(level, y, a, a + 3) == level(a + 1, y) + level(a + 2, y) + level(a + 3, y)
  {
    var s2 := Day11.Span(level, y, a, a + 2);
    assert s2 == Day11.Span(level, y, a, a + 1) + level(a + 2, y);
  }

  /** Each grid entry is the Rust power level of its cell, for a non-negative serial. */
  lemma CellIsLevel(grid: seq<seq<int>>, serial: int, i: int, y: int)
    requires IsGrid(grid, serial) && serial >= 0
    requires 1 <= i <= N && 1 <= y <= N
    ensures grid[y - 1][i - 1] == Day11.Levels(serial)(i, y)
  {
    ChargeNonNegative(i, y, serial);
    AgreesWithRust(i, y, serial);
  }

  /** On the grid, a row slice of three cells totals the same cells' Rust power levels. */
  lemma SliceIsSpan(grid: seq<seq<int>>, serial: int, x: int, y: int)
    requires IsGrid(grid, serial) && serial >= 0
    requires 1 <= x <= N - 2 && 1 <= y <= N
    ensures Sum(Slice(grid[y - 1], x - 1, x + 2)) == Day11.Span(Day11.Levels(serial), y, x - 1, x + 2)
  {
    var row := grid[y - 1];
    assert Slice(row, x - 1, x + 2) == [row[x - 1], row[x], row[x + 1]];
    SumOfThree(row[x - 1], row[x], row[x + 1]);
    SpanOfThree(Day11.Levels(serial), y, x - 1);
    CellIsLevel(grid, serial, x, y);
    CellIsLevel(grid, serial, x + 1, y);
    CellIsLevel(grid, serial, x + 2, y);
  }

  lemma ChargeNonNegative(x: int, y: int, serial: int)
    requires x >= 1 && y >= 1 && serial >= 0
    ensures Day11.Charge(x, y, serial) >= 0
  {
    assert (x + 10) * y >= 0;
  }

  /** With a non-negative serial, sum_3x3 at (x, y) is the total of the 3x3 square the Rust solver examines there. */
  lemma WindowIsSquare(grid: seq<seq<int>>, serial: int, x: int, y: int)
    requires IsGrid(grid, serial) && serial >= 0
    requires 1 <= x <= N - 2 && 1 <= y <= N - 2
    ensures Window(grid, x, y) == Day11.Square(Day11.Levels(serial), x, y, 3)
  {
    SliceIsSpan(grid, serial, x, y);
    SliceIsSpan(grid, serial, x, y + 1);
    SliceIsSpan(grid, serial, x, y + 2);
    RowsOfThree(grid, x, y);
    BlockOfThree(Day11.Levels(serial), x - 1, x + 2, y - 1);
  }

  // ---------------------------------------------------------------------
  // The scan

  predicate OnGrid(x: int, y: int)
  {
    1 <= x <= N - 2 && 1 <= y <= N - 2
  }

  /** Row-major scan order. */
  predicate Earlier(x: int, y: int, x': int, y': int)
  {
    y < y' || (y == y' && x < x')
  }

  /**
   * Every window before (x, y) has been summed: none exceeds the kept sum,
   * and the kept answer is either the start or the first window to reach it.
   */
  ghost predicate Kept(grid: seq<seq<int>>, ans: (int, int, int), x: int, y: int)
    requires |grid| == N
  {
    (forall x', y' :: OnGrid(x', y') && Earlier(x', y', x, y) ==> Window(grid, x', y') <= ans.0)
    && (ans == Start
        || (ans.0 > Start.0 && OnGrid(ans.1, ans.2) && Earlier(ans.1, ans.2, x, y)
            && Window(grid, ans.1, ans.2) == ans.0
            && forall x', y' :: OnGrid(x', y') && Earlier(x', y', ans.1, ans.2) ==> Window(grid, x', y') < ans.0))
  }

  /** What the scan finally promises: the largest window when one beats -10, the start otherwise. */
  ghost predicate Answer(grid: seq<seq<int>>, ans: (int, int, int))
    requires |grid| == N
  {
    (forall x, y :: OnGrid(x, y) ==> Window(grid, x, y) <= ans.0)
    && (ans == Start <==> forall x, y :: OnGrid(x, y) ==> Window(grid, x, y) <= Start.0)
    && (ans != Start ==>
          OnGrid(ans.1, ans.2) && Window(grid, ans.1, ans.2) == ans.0
          && forall x', y' :: OnGrid(x', y') && Earlier(x', y', ans.1, ans.2) ==> Window(grid, x', y') < ans.0)
  }

  method Consider(grid: seq<seq<int>>, ans: (int, int, int), x: int, y: int) returns (ans': (int, int, int))
    requires |grid| == N && OnGrid(x, y)
    requires Kept(grid, ans, x, y)
    ensures Kept(grid, ans', x + 1, y)
  {
    var s := Sum3x3(grid, x, y);
    if s > ans.0 {
      ans' := (s, x, y);
    } else {
      ans' := ans;
    }
  }

  lemma KeptNextRow(grid: seq<seq<int>>, ans: (int, int, int), y: int)
    requires |grid| == N && Kept(grid, ans, N - 1, y)
    ensures Kept(grid, ans, 1, y + 1)
  {
  }

  lemma KeptAnswer(grid: seq<seq<int>>, ans: (int, int, int))
    requires |grid| == N && Kept(grid, ans, 1, N - 1)
    ensures Answer(grid, ans)
  {
  }

  /** The double loop over dy, dx in range(N - 2). */
  method Scan(grid: seq<seq<int>>) returns (ans: (int, int, int))
    requires |grid| == N
    ensures Answer(grid, ans)
  {
    ans := Start;
    for dy := 0 to N - 2
      invariant Kept(grid, ans, 1, dy + 1)
    {
      var y := dy + 1;
      for dx := 0 to N - 2
        invariant Kept(grid, ans, dx + 1, y)
      {
        var x := dx + 1;
        ans := Consider(grid, ans, x, y);
      }
      KeptNextRow(grid, ans, y);
    }
    KeptAnswer(grid, ans);
  }

  /** The script: build the grid for a serial number, then scan it. */
  method Run(serial: int) returns (ans: (int, int, int))
    ensures forall grid :: IsGrid(grid, serial) ==> Answer(grid, ans)
  {
    var grid := BuildGrid(serial);
    ans := Scan(grid);
    GridUnique(grid, serial);
  }

  /** The grid is determined by the serial number. */
  lemma GridUnique(grid: seq<seq<int>>, serial: int)
    requires IsGrid(grid, serial)
    ensures forall g :: IsGrid(g, serial) ==> g == grid
  {
    forall g | IsGrid(g, serial)
      ensures g == grid
    {
      assert forall j :: 0 <= j < N ==> g[j] == grid[j];
    }
  }

  /** When some square beats -10, the script answers the square the Rust part1 answers. */
  lemma AnswerIsPart1(grid: seq<seq<int>>, serial: int, ans: (int, int, int))
    requires IsGrid(grid, serial) && serial >= 0
    requires Answer(grid, ans) && ans != Start
    ensures Day11.Winner(Day11.Levels(serial), 3, 3, Day11.Cand(3, ans.2, ans.1))
  {
    var level := Day11.Levels(serial);
    forall c: Day11.Cand | Day11.Fits(c) && c.size == 3
      ensures Day11.Total(level, c) == Window(grid, c.x, c.y)
    {
      WindowIsSquare(grid, serial, c.x, c.y);
    }
  }
}
