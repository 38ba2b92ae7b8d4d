/** rust/src/day18.rs: the lumber collection area, where each minute every
    acre of open ground, trees or lumberyard changes by the count of its
    neighbours. */
module Day18 {

  import opened Wrappers
  import opened Tokens

  datatype Acre = Open | Trees | Lumberyard

  /** Rows of acres, top to bottom. */
  type Grid = seq<seq<Acre>>

  /** The minutes `part1` runs. */
  const Minutes: nat := 10

  /** The minute `part2` asks about. */
  const Target: nat := 1_000_000_000

  // ---------------------------------------------------------------------
  // Text

  /** The acre a character stands for: '.', '|' and '#'; any other
      character makes `parse_input` panic. */
  function AcreOf(ch: char): Option<Acre> {
    match ch
    case '.' => Some(Open)
    case '|' => Some(Trees)
    case '#' => Some(Lumberyard)
    case _ => None
  }

  /** The character `grid_to_string` writes for an acre: the one that
      parses back to it, never a line break. */
  function Glyph(a: Acre): (ch: char)
    ensures AcreOf(ch) == Some(a)
    ensures ch != '\n' && ch != '\r'
  {
    match a
    case Open => '.'
    case Trees => '|'
    case Lumberyard => '#'
  }

  /** One line of `parse_input`: an acre per character, or None at the
      first character that is none of the three. */
  function ParseRow(line: string): (r: Option<seq<Acre>>)
    ensures r.Some? ==> |r.value| == |line| && forall i :: 0 <= i < |line| ==> AcreOf(line[i]) == Some(r.value[i])
    ensures r.None? ==> exists i :: 0 <= i < |line| && AcreOf(line[i]).None?
  {
    if line == [] then Some([])
    else
      match AcreOf(line[0])
      case None => None
      case Some(a) =>
        match ParseRow(line[1..])
        case None => None
        case Some(rest) => Some([a] + rest)
  }

  /** Every line parsed, or None when one of them fails. */
  function ParseRows(lines: seq<string>): (r: Option<Grid>)
    ensures r.Some? ==> |r.value| == |lines| && forall k :: 0 <= k < |lines| ==> ParseRow(lines[k]) == Some(r.value[k])
    ensures r.None? ==> exists k :: 0 <= k < |lines| && ParseRow(lines[k]).None?
  {
    if lines == [] then Some([])
    else
      match ParseRow(lines[0])
      case None => None
      case Some(row) =>
        match ParseRows(lines[1..])
        case None => None
        case Some(rest) => Some([row] + rest)
  }

  /** `parse_input`: one row per line of the text. */
  function ParseInput(input: string): Option<Grid> {
    ParseRows(Lines(input))
  }

  /** A row written out, one character per acre. */
  function ShowRow(row: seq<Acre>): string {
    seq(|row|, i requires 0 <= i < |row| => Glyph(row[i]))
  }

  /** The written rows of a grid. */
  function ShowRows(g: Grid): (ws: seq<string>)
    ensures |ws| == |g|
  {
    seq(|g|, k requires 0 <= k < |g| => ShowRow(g[k]))
  }

  /** `grid_to_string`: the rows joined with '\n'. */
  function ShowGrid(g: Grid): string {
    if g == [] then "" else JoinOn(ShowRows(g), '\n')
  }

  /** Parsing a written row gives it back. */
  lemma ParseShowRow(row: seq<Acre>)
    ensures ParseRow(ShowRow(row)) == Some(row)
  {
    var r := ParseRow(ShowRow(row));
    assert r.Some?;
    assert r.value == row;
  }

  /** Parsing written rows gives them back. */
  lemma ParseShowRows(g: Grid)
    ensures ParseRows(ShowRows(g)) == Some(g)
  {
    forall k | 0 <= k < |g| {
      ParseShowRow(g[k]);
    }
    assert ParseRows(ShowRows(g)).value == g;
  }

  /** `parse_input` undoes `grid_to_string` on a grid whose last row is not
      empty (a final empty row would read as a trailing line break). */
  lemma ParseShowGrid(g: Grid)
    requires g != [] && g[|g| - 1] != []
    ensures ParseInput(ShowGrid(g)) == Some(g)
  {
    var ws := ShowRows(g);
    forall k | 0 <= k < |ws|
      ensures '\n' !in ws[k] && '\r' !in ws[k]
    {
    }
    LinesOfJoin(ws);
    ParseShowRows(g);
  }

  /** Two grids written the same are the same grid. */
  lemma ShowInjective(a: Grid, b: Grid)
    requires a != [] && b != [] && ShowGrid(a) == ShowGrid(b)
    ensures a == b
  {
    var wa, wb := ShowRows(a), ShowRows(b);
    forall k | 0 <= k < |wa|
      ensures '\n' !in wa[k]
    {
    }
    forall k | 0 <= k < |wb|
      ensures '\n' !in wb[k]
    {
    }
    SplitJoinOn(wa, '\n');
    SplitJoinOn(wb, '\n');
    ParseShowRows(a);
    ParseShowRows(b);
  }

  // ---------------------------------------------------------------------
  // Neighbours

  /** The grids `simulate_minute` runs on without panicking: at least one
      row, and no row shorter than the first, whose length is the width
      the source works with. */
  predicate Fits(g: Grid) {
    |g| >= 1 && forall r :: 0 <= r < |g| ==> |g[r]| >= |g[0]|
  }

  /** Whether the acre at offset (dr, dc) from (row, col) is a neighbour of
      the kind: not the acre itself, and inside the grid. */
  predicate Matches(g: Grid, row: int, col: int, kind: Acre, dr: int, dc: int)
    requires Fits(g)
  {
    var nr, nc := row + dr, col + dc;
    !(dr == 0 && dc == 0) && 0 <= nr < |g| && 0 <= nc < |g[0]| && g[nr][nc] == kind
  }

  /** Matching neighbours at row offset dr and column offsets -1 .. upto-1. */
  function RowCount(g: Grid, row: int, col: int, kind: Acre, dr: int, upto: int): nat
    requires Fits(g) && -1 <= upto <= 2
    decreases upto + 1
  {
    if upto == -1 then 0
    else RowCount(g, row, col, kind, dr, upto - 1) + (if Matches(g, row, col, kind, dr, upto - 1) then 1 else 0)
  }

  /** Matching neighbours at row offsets -1 .. upto-1. */
  function AreaCount(g: Grid, row: int, col: int, kind: Acre, upto: int): nat
    requires Fits(g) && -1 <= upto <= 2
    decreases upto + 1
  {
    if upto == -1 then 0
    else AreaCount(g, row, col, kind, upto - 1) + RowCount(g, row, col, kind, upto - 1, 2)
  }

  /** The number of neighbours of the kind, as `count_adjacent` finds it. */
  function Adjacent(g: Grid, row: int, col: int, kind: Acre): nat
    requires Fits(g)
  {
    AreaCount(g, row, col, kind, 2)
  }

  /** The neighbours of the kind, as a set of offsets. */
  ghost function Neighbours(g: Grid, row: int, col: int, kind: Acre): set<(int, int)>
    requires Fits(g)
  {
    set dr: int, dc: int | -1 <= dr <= 1 && -1 <= dc <= 1 && Matches(g, row, col, kind, dr, dc) :: (dr, dc)
  }

  /** Matching offsets of row dr, among columns -1 .. upto-1. */
  ghost function RowSet(g: Grid, row: int, col: int, kind: Acre, dr: int, upto: int): set<(int, int)>
    requires Fits(g) && -1 <= upto <= 2
    decreases upto + 1
  {
    if upto == -1 then {}
    else RowSet(g, row, col, kind, dr, upto - 1) + (if Matches(g, row, col, kind, dr, upto - 1) then {(dr, upto - 1)} else {})
  }

  /** Matching offsets of rows -1 .. upto-1. */
  ghost function AreaSet(g: Grid, row: int, col: int, kind: Acre, upto: int): set<(int, int)>
    requires Fits(g) && -1 <= upto <= 2
    decreases upto + 1
  {
    if upto == -1 then {}
    else AreaSet(g, row, col, kind, upto - 1) + RowSet(g, row, col, kind, upto - 1, 2)
  }

  lemma {:induction false} RowSetMembers(g: Grid, row: int, col: int, kind: Acre, dr: int, upto: int)
    requires Fits(g) && -1 <= upto <= 2
    ensures forall o :: o in RowSet(g, row, col, kind, dr, upto) <==>
      o.0 == dr && -1 <= o.1 < upto && Matches(g, row, col, kind, dr, o.1)
    decreases upto + 1
  {
    if upto != -1 {
      RowSetMembers(g, row, col, kind, dr, upto - 1);
    }
  }

  lemma {:induction false} AreaSetMembers(g: Grid, row: int, col: int, kind: Acre, upto: int)
    requires Fits(g) && -1 <= upto <= 2
    ensures forall o :: o in AreaSet(g, row, col, kind, upto) <==>
      -1 <= o.0 < upto && -1 <= o.1 <= 1 && Matches(g, row, col, kind, o.0, o.1)
    decreases upto + 1
  {
    if upto != -1 {
      AreaSetMembers(g, row, col, kind, upto - 1);
      RowSetMembers(g, row, col, kind, upto - 1, 2);
    }
  }

  lemma {:induction false} RowCountIsSize(g: Grid, row: int, col: int, kind: Acre, dr: int, upto: int)
    requires Fits(g) && -1 <= upto <= 2
    ensures RowCount(g, row, col, kind, dr, upto) == |RowSet(g, row, col, kind, dr, upto)|
    decreases upto + 1
  {
    if upto != -1 {
      RowCountIsSize(g, row, col, kind, dr, upto - 1);
      RowSetMembers(g, row, col, kind, dr, upto - 1);
      assert (dr, upto - 1) !in RowSet(g, row, col, kind, dr, upto - 1);
    }
  }

  lemma {:induction false} AreaCountIsSize(g: Grid, row: int, col: int, kind: Acre, upto: int)
    requires Fits(g) && -1 <= upto <= 2
    ensures AreaCount(g, row, col, kind, upto) == |AreaSet(g, row, col, kind, upto)|
    decreases upto + 1
  {
    if upto == -1 {
      assert AreaSet(g, row, col, kind, upto) == {};
    } else {
      var dr := upto - 1;
      AreaCountIsSize(g, row, col, kind, dr);
      AreaStep(g, row, col, kind, dr);
      assert AreaCount(g, row, col, kind, dr + 1) == |AreaSet(g, row, col, kind, dr + 1)|;
    }
  }

  /** One more row offset adds its matches to both the count and the set. */
  lemma AreaStep(g: Grid, row: int, col: int, kind: Acre, dr: int)
    requires Fits(g) && -1 <= dr <= 1
    requires AreaCount(g, row, col, kind, dr) == |AreaSet(g, row, col, kind, dr)|
    ensures AreaCount(g, row, col, kind, dr + 1) == |AreaSet(g, row, col, kind, dr + 1)|
  {
    var above, last := AreaSet(g, row, col, kind, dr), RowSet(g, row, col, kind, dr, 2);
    assert AreaSet(g, row, col, kind, dr + 1) == above + last;
    RowCountIsSize(g, row, col, kind, dr, 2);
    RowBelowArea(g, row, col, kind, dr);
    DisjointSize(above, last);
  }

  /** The offsets of row dr are none of those of the rows above it. */
  lemma RowBelowArea(g: Grid, row: int, col: int, kind: Acre, dr: int)
    requires Fits(g) && -1 <= dr <= 1
    ensures AreaSet(g, row, col, kind, dr) !! RowSet(g, row, col, kind, dr, 2)
  {
    RowSetMembers(g, row, col, kind, dr, 2);
    AreaSetMembers(g, row, col, kind, dr);
    forall o | o in RowSet(g, row, col, kind, dr, 2)
      ensures o !in AreaSet(g, row, col, kind, dr)
    {
    }
  }

  /** Two sets without a common element: the union's size is the sum. */
  lemma DisjointSize<T>(a: set<T>, b: set<T>)
    requires a !! b
    ensures |a + b| == |a| + |b|
  {
    assert a * b == {};
  }

  /** `count_adjacent` counts exactly the in-grid neighbours of the kind
      among the eight around the acre, never the acre itself. */
  lemma AdjacentIsNeighbours(g: Grid, row: int, col: int, kind: Acre)
    requires Fits(g)
    ensures Adjacent(g, row, col, kind) == |Neighbours(g, row, col, kind)|
    ensures (0, 0) !in Neighbours(g, row, col, kind)
  {
    AreaCountIsSize(g, row, col, kind, 2);
    AreaSetIsNeighbours(g, row, col, kind);
  }

  /** The offsets collected row by row are the neighbours. */
  lemma AreaSetIsNeighbours(g: Grid, row: int, col: int, kind: Acre)
    requires Fits(g)
    ensures AreaSet(g, row, col, kind, 2) == Neighbours(g, row, col, kind)
  {
    AreaSetMembers(g, row, col, kind, 2);
    forall o | o in Neighbours(g, row, col, kind)
      ensures o in AreaSet(g, row, col, kind, 2)
    {
    }
  }

  /** At most eight neighbours match. */
  lemma AdjacentAtMost8(g: Grid, row: int, col: int, kind: Acre)
    requires Fits(g)
    ensures Adjacent(g, row, col, kind) <= 8
  {
    RowAtMost(g, row, col, kind, -1, 2);
    RowAtMost(g, row, col, kind, 0, 2);
    RowAtMost(g, row, col, kind, 1, 2);
    assert AreaCount(g, row, col, kind, 2) ==
      RowCount(g, row, col, kind, -1, 2) + RowCount(g, row, col, kind, 0, 2) + RowCount(g, row, col, kind, 1, 2);
  }

  /** A row offset has at most upto + 1 matches among its columns, one
      fewer in the middle row, where the acre itself is skipped. */
  lemma {:induction false} RowAtMost(g: Grid, row: int, col: int, kind: Acre, dr: int, upto: int)
    requires Fits(g) && -1 <= upto <= 2
    ensures RowCount(g, row, col, kind, dr, upto) <= upto + 1
    ensures dr == 0 && upto == 2 ==> RowCount(g, row, col, kind, dr, upto) <= 2
    decreases upto + 1
  {
    if upto != -1 {
      RowAtMost(g, row, col, kind, dr, upto - 1);
      if dr == 0 && upto == 2 {
        assert !Matches(g, row, col, kind, 0, 0);
        assert RowCount(g, row, col, kind, dr, 1) <= 1;
      }
    }
  }

  /** `count_adjacent`: the loop over the row offsets. */
  method CountAdjacent(g: Grid, row: nat, col: nat, kind: Acre) returns (count: nat)
    requires Fits(g)
    ensures count == Adjacent(g, row, col, kind)
  {
    count := 0;
    var dr := -1;
    while dr <= 1
      invariant -1 <= dr <= 2
      invariant count == AreaCount(g, row, col, kind, dr)
    {
      var n := CountRowOffsets(g, row, col, kind, dr);
      count := count + n;
      dr := dr + 1;
    }
  }

  /** The inner loop of `count_adjacent`, over the column offsets of one
      row offset, skipping the acre itself. */
  method CountRowOffsets(g: Grid, row: nat, col: nat, kind: Acre, dr: int) returns (count: nat)
    requires Fits(g)
    ensures count == RowCount(g, row, col, kind, dr, 2)
  {
    count := 0;
    var dc := -1;
    while dc <= 1
      invariant -1 <= dc <= 2
      invariant count == RowCount(g, row, col, kind, dr, dc)
    {
      if !(dr == 0 && dc == 0) {
        var nr, nc := row + dr, col + dc;
        if 0 <= nr < |g| && 0 <= nc < |g[0]| {
          if g[nr][nc] == kind {
            count := count + 1;
          }
        }
      }
      dc := dc + 1;
    }
  }

  // ---------------------------------------------------------------------
  // One minute

  /** The acre each kind turns into when it changes. */
  function Succ(a: Acre): Acre {
    match a
    case Open => Trees
    case Trees => Lumberyard
    case Lumberyard => Open
  }

  /** The rules of `simulate_minute`, given the numbers of neighbouring
      trees and lumberyards: open ground grows trees next to three or more
      trees, trees become a lumberyard next to three or more lumberyards,
      and a lumberyard lasts only next to a lumberyard and trees. An acre
      either stays or turns into the next kind of the cycle. */
  function Rule(a: Acre, trees: nat, yards: nat): (b: Acre)
    ensures b == a || b == Succ(a)
    ensures b != a <==> (a == Open && trees >= 3) || (a == Trees && yards >= 3) || (a == Lumberyard && (yards == 0 || trees == 0))
  {
    match a
    case Open => if trees >= 3 then Trees else Open
    case Trees => if yards >= 3 then Lumberyard else Trees
    case Lumberyard => if yards >= 1 && trees >= 1 then Lumberyard else Open
  }

  /** The new acre at (r, c): the rule within the width of the first row,
      the old acre (kept by the clone) beyond it. */
  function NextCell(g: Grid, r: nat, c: nat): Acre
    requires Fits(g) && r < |g| && c < |g[r]|
  {
    if c < |g[0]| then Rule(g[r][c], Adjacent(g, r, c, Trees), Adjacent(g, r, c, Lumberyard))
    else g[r][c]
  }

  /** Grids of the same dimensions, row by row. */
  predicate SameShape(a: Grid, b: Grid) {
    |a| == |b| && forall r :: 0 <= r < |a| ==> |a[r]| == |b[r]|
  }

  /** The grid one minute later, every acre computed from the old grid
      only; it has the same dimensions. */
  function Next(g: Grid): (n: Grid)
    requires Fits(g)
    ensures SameShape(n, g) && Fits(n)
  {
    seq(|g|, r requires 0 <= r < |g| => seq(|g[r]|, c requires 0 <= c < |g[r]| => NextCell(g, r, c)))
  }

  /** In a grid with neither trees nor lumberyards nothing ever grows. */
  lemma OpenStays(g: Grid)
    requires Fits(g)
    requires forall r, c :: 0 <= r < |g| && 0 <= c < |g[r]| ==> g[r][c] == Open
    ensures Next(g) == g
  {
    forall r, c | 0 <= r < |g| && 0 <= c < |g[r]|
      ensures Next(g)[r][c] == g[r][c]
    {
      AdjacentIsNeighbours(g, r, c, Trees);
      assert Neighbours(g, r, c, Trees) == {};
    }
    assert forall r :: 0 <= r < |g| ==> Next(g)[r] == g[r];
  }

  /** The new acre at (r, c), with the counts the source takes for it. */
  method NewAcre(g: Grid, r: nat, c: nat) returns (a: Acre)
    requires Fits(g) && r < |g| && c < |g[0]|
    ensures a == NextCell(g, r, c)
  {
    match g[r][c]
    case Open =>
      var trees := CountAdjacent(g, r, c, Trees);
      a := if trees >= 3 then Trees else Open;
    case Trees =>
      var yards := CountAdjacent(g, r, c, Lumberyard);
      a := if yards >= 3 then Lumberyard else Trees;
    case Lumberyard =>
      var yards := CountAdjacent(g, r, c, Lumberyard);
      var trees := CountAdjacent(g, r, c, Trees);
      a := if yards >= 1 && trees >= 1 then Lumberyard else Open;
  }

  /** The acres of rows before r, and of row r before column c, are new;
      the others are still the old ones. */
  ghost predicate DoneTo(n: Grid, g: Grid, r: int, c: int)
    requires Fits(g)
  {
    SameShape(n, g)
    && forall i, j :: 0 <= i < |g| && 0 <= j < |g[i]| ==>
      n[i][j] == if i < r || (i == r && j < c) then NextCell(g, i, j) else g[i][j]
  }

  /** `simulate_minute`: a copy of the grid, overwritten acre by acre from
      the old one. */
  method SimulateMinute(g: Grid) returns (n: Grid)
    requires Fits(g)
    ensures n == Next(g)
  {
    n := g;
    var r := 0;
    while r < |g|
      invariant 0 <= r <= |g|
      invariant DoneTo(n, g, r, 0)
    {
      var c := 0;
      while c < |g[0]|
        invariant 0 <= c <= |g[0]|
        invariant DoneTo(n, g, r, c)
      {
        var a := NewAcre(g, r, c);
        n := n[r := n[r][c := a]];
        c := c + 1;
      }
      assert DoneTo(n, g, r + 1, 0);
      r := r + 1;
    }
    assert forall i :: 0 <= i < |g| ==> n[i] == Next(g)[i];
  }

  // ---------------------------------------------------------------------
  // Resource value

  /** Acres of the kind in a row. */
  function CountRow(row: seq<Acre>, kind: Acre): nat {
    if row == [] then 0
    else CountRow(row[..|row| - 1], kind) + (if row[|row| - 1] == kind then 1 else 0)
  }

  /** Acres of the kind in the grid. */
  function Count(g: Grid, kind: Acre): nat {
    if g == [] then 0 else Count(g[..|g| - 1], kind) + CountRow(g[|g| - 1], kind)
  }

  /** The number of acres of the grid. */
  function Size(g: Grid): nat {
    if g == [] then 0 else Size(g[..|g| - 1]) + |g[|g| - 1]|
  }

  lemma {:induction false} RowPartition(row: seq<Acre>)
    ensures CountRow(row, Open) + CountRow(row, Trees) + CountRow(row, Lumberyard) == |row|
  {
    if row != [] {
      RowPartition(row[..|row| - 1]);
    }
  }

  /** Every acre is of exactly one of the three kinds. */
  lemma {:induction false} CountPartition(g: Grid)
    ensures Count(g, Open) + Count(g, Trees) + Count(g, Lumberyard) == Size(g)
  {
    if g != [] {
      CountPartition(g[..|g| - 1]);
      RowPartition(g[|g| - 1]);
    }
  }

  /** The total resource value: trees times lumberyards. */
  function Value(g: Grid): nat {
    Count(g, Trees) * Count(g, Lumberyard)
  }

  /** An area without trees, or without lumberyards, is worth nothing. */
  lemma ValueZero(g: Grid)
    ensures Value(g) == 0 <==> Count(g, Trees) == 0 || Count(g, Lumberyard) == 0
  {
  }

  /** `count_resource_value`: one pass over every acre counting the trees
      and the lumberyards. */
  method ResourceValue(g: Grid) returns (v: nat)
    ensures v == Value(g)
  {
    var trees, yards := 0, 0;
    var i := 0;
    while i < |g|
      invariant 0 <= i <= |g|
      invariant trees == Count(g[..i], Trees) && yards == Count(g[..i], Lumberyard)
    {
      var row := g[i];
      var j := 0;
      while j < |row|
        invariant 0 <= j <= |row|
        invariant trees == Count(g[..i], Trees) + CountRow(row[..j], Trees)
        invariant yards == Count(g[..i], Lumberyard) + CountRow(row[..j], Lumberyard)
      {
        assert row[..j + 1][..j] == row[..j];
        if row[j] == Trees {
          trees := trees + 1;
        } else if row[j] == Lumberyard {
          yards := yards + 1;
        }
        j := j + 1;
      }
      assert row[..j] == row;
      assert g[..i + 1][..i] == g[..i];
      i := i + 1;
    }
    assert g[..i] == g;
    v := trees * yards;
  }

  // ---------------------------------------------------------------------
  // Many minutes

  /** One minute on any grid: `Next` where it is defined. */
  function Step(g: Grid): (r: Grid)
    ensures Fits(g) ==> r == Next(g)
  {
    if Fits(g) then Next(g) else g
  }

  /** n applications of any step function. The cycle arithmetic below is
      stated over it, so that it does not depend on what one minute does. */
  function Repeat<T>(f: T -> T, x: T, n: nat): T
  {
    if n == 0 then x else f(Repeat(f, x, n - 1))
  }

  /** The grid after n minutes. */
  function Iterate(g: Grid, n: nat): Grid
  {
    Repeat(Step, g, n)
  }

  /** Every minute keeps the grid's dimensions. */
  lemma {:induction false} IterateShape(g: Grid, n: nat)
    requires Fits(g)
    ensures Fits(Iterate(g, n)) && SameShape(Iterate(g, n), g)
  {
    if n > 0 {
      IterateShape(g, n - 1);
    }
  }

  /** a + b steps are a steps, then b more. */
  lemma {:induction false} RepeatAdd<T>(f: T -> T, x: T, a: nat, b: nat)
    ensures Repeat(f, x, a + b) == Repeat(f, Repeat(f, x, a), b)
  {
    if b > 0 {
      RepeatAdd(f, x, a, b - 1);
    }
  }

  /** a + b minutes are a minutes, then b more. */
  lemma IterateAdd(g: Grid, a: nat, b: nat)
    requires Fits(g)
    ensures Iterate(g, a + b) == Iterate(Iterate(g, a), b)
  {
    RepeatAdd(Step, g, a, b);
  }

  /** k whole cycles after step m the state is the one at step m again,
      once step m repeats step p < m. */
  lemma {:induction false} Cycles<T>(f: T -> T, x: T, p: nat, m: nat, k: nat, r: nat)
    requires p < m && Repeat(f, x, p) == Repeat(f, x, m)
    ensures Repeat(f, x, m + k * (m - p) + r) == Repeat(f, x, m + r)
    decreases k
  {
    if k > 0 {
      var d := m - p;
      var j := (k - 1) * d + r;
      assert m + k * d + r == m + d + j;
      RepeatAdd(f, x, m, d + j);
      RepeatAdd(f, x, p, d + j);
      assert p + (d + j) == m + j;
      Cycles(f, x, p, m, k - 1, r);
    }
  }

  /** Skipping whole cycles: with step m repeating step p < m, step
      t >= m gives the state of step m + (t - m) mod (m - p). */
  lemma RepeatSkip<T>(f: T -> T, x: T, p: nat, m: nat, t: nat)
    requires p < m <= t && Repeat(f, x, p) == Repeat(f, x, m)
    ensures Repeat(f, x, t) == Repeat(f, x, m + (t - m) % (m - p))
  {
    var d := m - p;
    var k, r := (t - m) / d, (t - m) % d;
    assert t == m + k * d + r;
    Cycles(f, x, p, m, k, r);
  }

  /** The cycle skip of `part2`: with the grid at minute m equal to the one
      at minute p < m, minute t >= m shows the same grid as minute
      m + (t - m) mod (m - p). */
  lemma CycleSkip(g: Grid, p: nat, m: nat, t: nat)
    requires Fits(g) && p < m <= t && Iterate(g, p) == Iterate(g, m)
    ensures Iterate(g, t) == Iterate(g, m + (t - m) % (m - p))
  {
    RepeatSkip(Step, g, p, m, t);
  }


  // ---------------------------------------------------------------------
  // The two parts

  /** `part1`: the resource value after ten minutes; None when the text
      does not parse or the grid makes `simulate_minute` panic. */
  method Part1(input: string) returns (r: Option<nat>)
    ensures r == match ParseInput(input)
                 case None => None
                 case Some(g) => if Fits(g) then Some(Value(Iterate(g, Minutes))) else None
  {
    var parsed := ParseInput(input);
    if parsed.None? || !Fits(parsed.value) {
      return None;
    }
    var grid := Run(parsed.value, Minutes);
    var v := ResourceValue(grid);
    return Some(v);
  }

  /** Minute one billion is the remainder of the cycle run on from
      minute m. */
  lemma SkipTo(start: Grid, p: nat, m: nat, offset: nat)
    requires Fits(start) && p < m <= Target && Iterate(start, p) == Iterate(start, m)
    requires offset == (Target - m) % (m - p)
    ensures Fits(Iterate(start, m))
    ensures Iterate(start, Target) == Iterate(Iterate(start, m), offset)
  {
    CycleSkip(start, p, m, Target);
    IterateAdd(start, m, offset);
    IterateShape(start, m);
  }

  /** The end of `part2` once the grid at minute m repeats the one at
      minute p: only the remainder of the minutes left, modulo the cycle
      length, is run, and the value is the one at minute one billion. */
  method SkipCycle(start: Grid, grid: Grid, p: nat, m: nat) returns (v: nat)
    requires Fits(start) && p < m <= Target
    requires grid == Iterate(start, m) && Iterate(start, p) == grid
    ensures v == Value(Iterate(start, Target))
  {
    var offset := (Target - m) % (m - p);
    SkipTo(start, p, m, offset);
    var last := Run(grid, offset);
    v := ResourceValue(last);
  }


  /** The minute loops of `part1` and `part2`: n minutes, one after the
      other. */
  method Run(g: Grid, n: nat) returns (h: Grid)
    requires Fits(g)
    ensures h == Iterate(g, n)
  {
    h := g;
    var i := 0;
    while i < n
      invariant 0 <= i <= n
      invariant h == Iterate(g, i) && Fits(h)
    {
      h := SimulateMinute(h);
      i := i + 1;
    }
  }

  /** `part2`: the resource value after a billion minutes. The grid of each
      minute is remembered by its text; at the first repeat the remaining
      minutes are cut down to their remainder modulo the cycle length, and
      the result is still the value at minute one billion. */
  method Part2(input: string) returns (r: Option<nat>)
    ensures r == match ParseInput(input)
                 case None => None
                 case Some(g) => if Fits(g) then Some(Value(Iterate(g, Target))) else None
  {
    var parsed := ParseInput(input);
    if parsed.None? || !Fits(parsed.value) {
      return None;
    }
    var start := parsed.value;
    var grid := start;
    var seen: map<string, nat> := map[];
    var minute := 0;
    while minute < Target
      invariant 0 <= minute <= Target
      invariant grid == Iterate(start, minute) && Fits(grid)
      invariant forall s :: s in seen ==> seen[s] < minute && ShowGrid(Iterate(start, seen[s])) == s
    {
      var state := ShowGrid(grid);
      if state in seen {
        var prev := seen[state];
        IterateShape(start, prev);
        ShowInjective(Iterate(start, prev), grid);
        var v := SkipCycle(start, grid, prev, minute);
        return Some(v);
      }
      seen := seen[state := minute];
      grid := SimulateMinute(grid);
      minute := minute + 1;
    }
    var v := ResourceValue(grid);
    return Some(v);
  }
}
