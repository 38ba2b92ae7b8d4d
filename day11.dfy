// Day 11: Chronal Charge. A 300x300 grid of fuel cells, each with a power
// level derived from its coordinates and a grid serial number; the solver
// builds a summed-area table and looks for the square of largest total power.

module Day11 {

  /** Side of the fuel-cell grid. */
  const GridSize: int := 300

  /** i32::MIN, the starting "best so far" of both parts. */
  const I32Min: int := -0x8000_0000

  /** Rust's `/` on a positive divisor: truncates toward zero. */
  function Quot(a: int, d: int): int
    requires d > 0
  {
    if a >= 0 then a / d else -((-a) / d)
  }

  /** Rust's `%` on a positive divisor: the remainder takes the sign of `a`. */
  function Rem(a: int, d: int): int
    requires d > 0
  {
    if a >= 0 then a % d else -((-a) % d)
  }

  /** Rust's quotient and remainder: a = d * q + r, with |r| < d and r never of the opposite sign to a. */
  lemma QuotRem(a: int, d: int)
    requires d > 0
    ensures a == d * Quot(a, d) + Rem(a, d)
    ensures -d < Rem(a, d) < d
    ensures a >= 0 ==> Rem(a, d) >= 0
    ensures a <= 0 ==> Rem(a, d) <= 0
  {
    if a < 0 {
      assert -a == d * ((-a) / d) + (-a) % d;
    }
  }

  /** The power level of the fuel cell at (x, y), with Rust's truncating `/` and `%`. */
  function PowerLevel(x: int, y: int, serial: int): (p: int)
    ensures -14 <= p <= 4
  {
    var rackId := x + 10;
    var power := (rackId * y + serial) * rackId;
    Rem(Quot(power, 100), 10) - 5
  }

  /** The intermediate product whose hundreds digit gives the power level. */
  function Charge(x: int, y: int, serial: int): int
  {
    ((x + 10) * y + serial) * (x + 10)
  }

  /** When the intermediate product is not negative, the power level is its hundreds digit minus five. */
  lemma PowerLevelIsHundredsDigit(x: int, y: int, serial: int)
    requires Charge(x, y, serial) >= 0
    ensures PowerLevel(x, y, serial) == Charge(x, y, serial) % 1000 / 100 - 5
    ensures -5 <= PowerLevel(x, y, serial) <= 4
  {
    var rackId := x + 10;
    var power := (rackId * y + serial) * rackId;
    assert power == Charge(x, y, serial);
    assert Quot(power, 100) == power / 100;
    HundredsDigit(power);
  }

  lemma HundredsDigit(n: int)
    requires n >= 0
    ensures n / 100 % 10 == n % 1000 / 100
  {
    var q := n / 1000;
    var r := n % 1000;
    assert n == 1000 * q + r;
    assert n / 100 == 10 * q + r / 100;
  }

  /** On the grid (coordinates from 1) with a non-negative serial every power level lies in [-5, 4]. */
  lemma GridPowerInRange(x: int, y: int, serial: int)
    requires x >= 1 && y >= 1 && serial >= 0
    ensures -5 <= PowerLevel(x, y, serial) <= 4
  {
    var rackId := x + 10;
    assert rackId * y >= 0;
    assert (rackId * y + serial) * rackId >= 0;
    assert Charge(x, y, serial) >= 0;
    PowerLevelIsHundredsDigit(x, y, serial);
  }

  /** The worked examples of the puzzle. */
  lemma PowerLevelSamples()
    ensures PowerLevel(3, 5, 8) == 4
    ensures PowerLevel(122, 79, 57) == -5
    ensures PowerLevel(217, 196, 39) == 0
    ensures PowerLevel(101, 153, 71) == 4
  {
    assert 73 * 13 == 949;
    assert 10485 * 132 == 1384020;
    assert 44531 * 227 == 10108537;
    assert 17054 * 111 == 1892994;
  }

  // ---------------------------------------------------------------------
  // Sums over rectangles of cells, for any assignment of levels to cells

  /** The power levels of the grid with this serial number. */
  function Levels(serial: int): (level: (int, int) -> int)
    ensures forall x, y :: level(x, y) == PowerLevel(x, y, serial)
  {
    (x, y) => PowerLevel(x, y, serial)
  }

  /** No cell's level is below -14, the least Rust's truncating digit allows. */
  ghost predicate Bounded(level: (int, int) -> int)
  {
    forall x, y :: level(x, y) >= -14
  }

  lemma LevelsBounded(serial: int)
    ensures Bounded(Levels(serial))
  {
  }

  /** Total power of the cells x1 < x <= x2 of row y. */
  function Span(level: (int, int) -> int, y: int, x1: int, x2: int): int
    requires x1 <= x2
    decreases x2 - x1
  {
    if x2 == x1 then 0 else Span(level, y, x1, x2 - 1) + level(x2, y)
  }

  /** Total power of the cells x1 < x <= x2, y1 < y <= y2. */
  function Block(level: (int, int) -> int, x1: int, x2: int, y1: int, y2: int): int
    requires x1 <= x2 && y1 <= y2
    decreases y2 - y1
  {
    if y2 == y1 then 0 else Block(level, x1, x2, y1, y2 - 1) + Span(level, y2, x1, x2)
  }

  /** What a summed-area table holds at (x, y): the power of every cell in 1..=x by 1..=y. */
  function Corner(level: (int, int) -> int, x: int, y: int): int
    requires x >= 0 && y >= 0
  {
    Block(level, 0, x, 0, y)
  }

  /** The total power of the size-by-size square whose top-left cell is (x, y). */
  function Square(level: (int, int) -> int, x: int, y: int, size: int): int
    requires size >= 0
  {
    Block(level, x - 1, x + size - 1, y - 1, y + size - 1)
  }

  lemma {:induction false} BlockEmpty(level: (int, int) -> int, x: int, y1: int, y2: int)
    requires y1 <= y2
    ensures Block(level, x, x, y1, y2) == 0
    decreases y2 - y1
  {
    if y2 != y1 {
      BlockEmpty(level, x, y1, y2 - 1);
    }
  }

  /** The table's first row and column are zero. */
  lemma CornerEdges(level: (int, int) -> int, x: int, y: int)
    requires x >= 0 && y >= 0
    ensures Corner(level, x, 0) == 0 && Corner(level, 0, y) == 0
  {
    BlockEmpty(level, 0, 0, y);
  }

  /** The recurrence build_sat fills the table with. */
  lemma CornerStep(level: (int, int) -> int, x: int, y: int)
    requires x >= 1 && y >= 1
    ensures Corner(level, x, y)
         == level(x, y) + Corner(level, x, y - 1) + Corner(level, x - 1, y) - Corner(level, x - 1, y - 1)
  {
  }

  lemma {:induction false} SpanSplit(level: (int, int) -> int, y: int, x0: int, x1: int, x2: int)
    requires x0 <= x1 <= x2
    ensures Span(level, y, x0, x2) == Span(level, y, x0, x1) + Span(level, y, x1, x2)
    decreases x2 - x1
  {
    if x2 != x1 {
      SpanSplit(level, y, x0, x1, x2 - 1);
    }
  }

  lemma {:induction false} BlockSplitX(level: (int, int) -> int, x0: int, x1: int, x2: int, y1: int, y2: int)
    requires x0 <= x1 <= x2 && y1 <= y2
    ensures Block(level, x0, x2, y1, y2) == Block(level, x0, x1, y1, y2) + Block(level, x1, x2, y1, y2)
    decreases y2 - y1
  {
    if y2 != y1 {
      BlockSplitX(level, x0, x1, x2, y1, y2 - 1);
      SpanSplit(level, y2, x0, x1, x2);
    }
  }

  lemma {:induction false} BlockSplitY(level: (int, int) -> int, x1: int, x2: int, y0: int, y1: int, y2: int)
    requires x1 <= x2 && y0 <= y1 <= y2
    ensures Block(level, x1, x2, y0, y2) == Block(level, x1, x2, y0, y1) + Block(level, x1, x2, y1, y2)
    decreases y2 - y1
  {
    if y2 != y1 {
      BlockSplitY(level, x1, x2, y0, y1, y2 - 1);
    }
  }

  /** Inclusion-exclusion: any rectangle's total from four table entries. */
  lemma RectangleFromCorners(level: (int, int) -> int, x1: int, x2: int, y1: int, y2: int)
    requires 0 <= x1 <= x2 && 0 <= y1 <= y2
    ensures Block(level, x1, x2, y1, y2)
         == Corner(level, x2, y2) - Corner(level, x1, y2) - Corner(level, x2, y1) + Corner(level, x1, y1)
  {
    BlockSplitY(level, 0, x2, 0, y1, y2);
    BlockSplitY(level, 0, x1, 0, y1, y2);
    BlockSplitX(level, 0, x1, x2, y1, y2);
  }

  lemma {:induction false} SpanAbove(level: (int, int) -> int, y: int, x1: int, x2: int)
    requires Bounded(level) && x1 <= x2
    ensures Span(level, y, x1, x2) >= -14 * (x2 - x1)
    decreases x2 - x1
  {
    if x2 != x1 {
      SpanAbove(level, y, x1, x2 - 1);
    }
  }

  lemma {:induction false} BlockAbove(level: (int, int) -> int, x1: int, x2: int, y1: int, y2: int)
    requires Bounded(level) && x1 <= x2 <= x1 + GridSize && y1 <= y2
    ensures Block(level, x1, x2, y1, y2) >= -4200 * (y2 - y1)
    decreases y2 - y1
  {
    if y2 != y1 {
      BlockAbove(level, x1, x2, y1, y2 - 1);
      SpanAbove(level, y2, x1, x2);
    }
  }

  /** Every square on the grid has a total above i32::MIN, so the first one examined always becomes the best. */
  lemma SquareAboveMin(level: (int, int) -> int, x: int, y: int, size: int)
    requires Bounded(level) && 0 <= size <= GridSize
    ensures Square(level, x, y, size) > I32Min
  {
    BlockAbove(level, x - 1, x + size - 1, y - 1, y + size - 1);
  }

  // ---------------------------------------------------------------------
  // The summed-area table

  /** `sat` is the 301x301 summed-area table of these levels. */
  ghost predicate IsSat(sat: array2<int>, level: (int, int) -> int)
    reads sat
  {
    sat.Length0 == GridSize + 1 && sat.Length1 == GridSize + 1
    && forall y, x :: 0 <= y <= GridSize && 0 <= x <= GridSize ==> sat[y, x] == Corner(level, x, y)
  }

  /** Rows before y are complete, row y is complete left of x, and column 0 below row y is still zero. */
  ghost predicate Filled(sat: array2<int>, level: (int, int) -> int, y: int, x: int)
    reads sat
    requires sat.Length0 == GridSize + 1 && sat.Length1 == GridSize + 1
    requires 1 <= y <= GridSize && 1 <= x <= GridSize + 1
  {
    (forall j, i :: 0 <= j < y && 0 <= i <= GridSize ==> sat[j, i] == Corner(level, i, j))
    && (forall i :: 0 <= i < x ==> sat[y, i] == Corner(level, i, y))
    && (forall j :: y < j <= GridSize ==> sat[j, 0] == 0)
  }

  /** One step of build_sat: the entry at (x, y) from its three neighbours already filled. */
  method FillCell(sat: array2<int>, ghost level: (int, int) -> int, serial: int, y: int, x: int)
    requires sat.Length0 == GridSize + 1 && sat.Length1 == GridSize + 1
    requires 1 <= y <= GridSize && 1 <= x <= GridSize
    requires level(x, y) == PowerLevel(x, y, serial)
    requires Filled(sat, level, y, x)
    modifies sat
    ensures Filled(sat, level, y, x + 1)
  {
    CornerStep(level, x, y);
    sat[y, x] := PowerLevel(x, y, serial) + sat[y - 1, x] + sat[y, x - 1] - sat[y - 1, x - 1];
  }

  /** Fills a zeroed 301x301 table row by row with the summed-area recurrence. */
  method BuildSat(serial: int) returns (sat: array2<int>)
    ensures fresh(sat)
    ensures IsSat(sat, Levels(serial))
  {
    ghost var level := Levels(serial);
    sat := new int[GridSize + 1, GridSize + 1]((_, _) => 0);
    for y := 1 to GridSize + 1
      invariant forall j, i :: 0 <= j < y && 0 <= i <= GridSize ==> sat[j, i] == Corner(level, i, j)
      invariant forall j :: y <= j <= GridSize ==> sat[j, 0] == 0
    {
      CornerEdges(level, 0, y);
      for x := 1 to GridSize + 1
        invariant Filled(sat, level, y, x)
      {
        FillCell(sat, level, serial, y, x);
      }
    }
  }

  /** square_sum: the total of a square read off the table with four lookups. */
  function SquareSum(sat: array2<int>, x: int, y: int, size: int): int
    reads sat
    requires sat.Length0 == GridSize + 1 && sat.Length1 == GridSize + 1
    requires 1 <= x <= GridSize + 1 && 1 <= y <= GridSize + 1
    requires 0 <= x + size - 1 <= GridSize && 0 <= y + size - 1 <= GridSize
  {
    var x1 := x - 1;
    var y1 := y - 1;
    var x2 := x + size - 1;
    var y2 := y + size - 1;
    sat[y2, x2] - sat[y1, x2] - sat[y2, x1] + sat[y1, x1]
  }

  /** Over a summed-area table, square_sum is the square's total power. */
  lemma SquareSumIsSquare(sat: array2<int>, level: (int, int) -> int, x: int, y: int, size: int)
    requires IsSat(sat, level)
    requires 1 <= x && 1 <= y && 0 <= size && x + size - 1 <= GridSize && y + size - 1 <= GridSize
    ensures SquareSum(sat, x, y, size) == Square(level, x, y, size)
  {
    RectangleFromCorners(level, x - 1, x + size - 1, y - 1, y + size - 1);
  }

  // ---------------------------------------------------------------------
  // Searching for the best square

  /** A square examined by the search: its size and top-left cell. */
  datatype Cand = Cand(size: int, y: int, x: int)

  /** The square fits on the grid. */
  predicate Fits(c: Cand)
  {
    1 <= c.size <= GridSize && 1 <= c.y <= GridSize + 1 - c.size && 1 <= c.x <= GridSize + 1 - c.size
  }

  /** Scan order: by size, then row, then column. */
  predicate Before(a: Cand, b: Cand)
  {
    a.size < b.size || (a.size == b.size && (a.y < b.y || (a.y == b.y && a.x < b.x)))
  }

  function Total(level: (int, int) -> int, c: Cand): int
    requires Fits(c)
  {
    Square(level, c.x, c.y, c.size)
  }

  /**
   * The search has examined every fitting square of size at least `lo` that
   * comes before `next`: none beats `power`, and unless nothing has been
   * examined yet, `best` is the first of them that reaches `power`.
   */
  ghost predicate Leads(level: (int, int) -> int, lo: int, best: Cand, power: int, next: Cand)
  {
    (forall c :: Fits(c) && lo <= c.size && Before(c, next) ==> Total(level, c) <= power)
    && (power == I32Min
        || (Fits(best) && lo <= best.size && Before(best, next) && Total(level, best) == power
            && forall c :: Fits(c) && lo <= c.size && Before(c, best) ==> Total(level, c) < power))
  }

  /** Examines one square and keeps it when its total is strictly larger. */
  method Examine(sat: array2<int>, ghost level: (int, int) -> int, lo: int, cur: Cand, best: Cand, power: int)
    returns (best': Cand, power': int)
    requires IsSat(sat, level)
    requires Fits(cur) && lo <= cur.size
    requires Leads(level, lo, best, power, cur)
    ensures Leads(level, lo, best', power', Cand(cur.size, cur.y, cur.x + 1))
  {
    SquareSumIsSquare(sat, level, cur.x, cur.y, cur.size);
    var s := SquareSum(sat, cur.x, cur.y, cur.size);
    if s > power {
      best', power' := cur, s;
      LeadsTake(level, lo, best, power, cur);
    } else {
      best', power' := best, power;
      LeadsKeep(level, lo, best, power, cur);
    }
  }

  lemma LeadsTake(level: (int, int) -> int, lo: int, best: Cand, power: int, cur: Cand)
    requires Fits(cur) && lo <= cur.size
    requires Leads(level, lo, best, power, cur) && Total(level, cur) > power
    ensures Leads(level, lo, cur, Total(level, cur), Cand(cur.size, cur.y, cur.x + 1))
  {
  }

  lemma LeadsKeep(level: (int, int) -> int, lo: int, best: Cand, power: int, cur: Cand)
    requires Fits(cur) && lo <= cur.size
    requires Leads(level, lo, best, power, cur) && Total(level, cur) <= power
    ensures Leads(level, lo, best, power, Cand(cur.size, cur.y, cur.x + 1))
  {
  }

  /** Past the last column of a row, the next square is the first of the following row. */
  lemma RowEnd(level: (int, int) -> int, lo: int, best: Cand, power: int, size: int, y: int)
    requires Leads(level, lo, best, power, Cand(size, y, GridSize + 2 - size))
    ensures Leads(level, lo, best, power, Cand(size, y + 1, 1))
  {
  }

  /** Past the last row of a size, the next square is the first of the next size. */
  lemma SizeEnd(level: (int, int) -> int, lo: int, best: Cand, power: int, size: int)
    requires Leads(level, lo, best, power, Cand(size, GridSize + 2 - size, 1))
    ensures Leads(level, lo, best, power, Cand(size + 1, 1, 1))
  {
  }

  /** Examines every square of one size, keeping the first strictly larger total. */
  method ScanSize(sat: array2<int>, ghost level: (int, int) -> int, lo: int, size: int, best: Cand, power: int)
    returns (best': Cand, power': int)
    requires IsSat(sat, level)
    requires 1 <= lo <= size <= GridSize
    requires Leads(level, lo, best, power, Cand(size, 1, 1))
    ensures Leads(level, lo, best', power', Cand(size + 1, 1, 1))
  {
    best', power' := best, power;
    for y := 1 to GridSize + 2 - size
      invariant Leads(level, lo, best', power', Cand(size, y, 1))
    {
      for x := 1 to GridSize + 2 - size
        invariant Leads(level, lo, best', power', Cand(size, y, x))
      {
        best', power' := Examine(sat, level, lo, Cand(size, y, x), best', power');
      }
      RowEnd(level, lo, best', power', size, y);
    }
    SizeEnd(level, lo, best', power', size);
  }

  /** Among the fitting squares of sizes lo..=hi, `best` has the largest total and is the first in scan order to reach it. */
  ghost predicate Winner(level: (int, int) -> int, lo: int, hi: int, best: Cand)
  {
    Fits(best) && lo <= best.size <= hi
    && (forall c :: Fits(c) && lo <= c.size <= hi ==> Total(level, c) <= Total(level, best))
    && (forall c :: Fits(c) && lo <= c.size <= hi && Before(c, best) ==> Total(level, c) < Total(level, best))
  }

  /** Once every size lo..=hi has been scanned, the square the search leads with is the winner. */
  lemma LeadsToWinner(level: (int, int) -> int, lo: int, hi: int, best: Cand, power: int)
    requires Bounded(level) && 1 <= lo <= hi <= GridSize
    requires Leads(level, lo, best, power, Cand(hi + 1, 1, 1))
    ensures Winner(level, lo, hi, best)
  {
    SquareAboveMin(level, 1, 1, lo);
    assert Total(level, Cand(lo, 1, 1)) <= power;
  }

  /** Scans the sizes lo..=hi in increasing order, starting from i32::MIN. */
  method BestOfSizes(sat: array2<int>, ghost level: (int, int) -> int, lo: int, hi: int) returns (best: Cand)
    requires IsSat(sat, level) && Bounded(level)
    requires 1 <= lo <= hi <= GridSize
    ensures Winner(level, lo, hi, best)
  {
    var power;
    best, power := Cand(0, 0, 0), I32Min;
    for s := lo to hi + 1
      invariant Leads(level, lo, best, power, Cand(s, 1, 1))
    {
      best, power := ScanSize(sat, level, lo, s, best, power);
    }
    LeadsToWinner(level, lo, hi, best, power);
  }

  /** part1: the top-left cell of the 3x3 square of largest total, first in scan order on ties. */
  method Part1(serial: int) returns (x: int, y: int)
    ensures Winner(Levels(serial), 3, 3, Cand(3, y, x))
  {
    var sat := BuildSat(serial);
    LevelsBounded(serial);
    var best := BestOfSizes(sat, Levels(serial), 3, 3);
    x, y := best.x, best.y;
  }

  /** part2: the square of any size with the largest total, first in scan order on ties. */
  method Part2(serial: int) returns (x: int, y: int, size: int)
    ensures Winner(Levels(serial), 1, GridSize, Cand(size, y, x))
  {
    var sat := BuildSat(serial);
    LevelsBounded(serial);
    var best := BestOfSizes(sat, Levels(serial), 1, GridSize);
    x, y, size := best.x, best.y, best.size;
  }
}
