// Day 13: Mine Cart Madness. Carts run along a track of '-', '|', '/', '\',
// and '+' cells; every tick they move in reading order, and two carts on the
// same cell crash and are removed.

module Day13 {
  import opened Wrappers

  datatype Dir = Up | Down | Left | Right

  function TurnLeft(d: Dir): Dir
  {
    match d
    case Up => Left
    case Left => Down
    case Down => Right
    case Right => Up
  }

  function TurnRight(d: Dir): Dir
  {
    match d
    case Up => Right
    case Right => Down
    case Down => Left
    case Left => Up
  }

  /** Turning left and turning right undo each other. */
  lemma TurnsInverse(d: Dir)
    ensures TurnRight(TurnLeft(d)) == d && TurnLeft(TurnRight(d)) == d
  {
  }

  /** Four turns the same way bring a cart back to where it faced, and no fewer do. */
  lemma FourTurns(d: Dir)
    ensures TurnLeft(TurnLeft(TurnLeft(TurnLeft(d)))) == d
    ensures TurnRight(TurnRight(TurnRight(TurnRight(d)))) == d
    ensures TurnLeft(d) != d && TurnLeft(TurnLeft(d)) != d && TurnLeft(TurnLeft(TurnLeft(d))) != d
  {
  }

  /** A cart: its cell, heading, which turn it takes at the next '+' (0 left, 1 straight, 2 right), and whether it is still running. */
  datatype Cart = Cart(x: int, y: int, dir: Dir, turnState: nat, alive: bool)

  type Grid = seq<seq<char>>

  // ---------------------------------------------------------------------
  // parse

  /** The heading an arrow character shows, if it is one. */
  function ArrowDir(c: char): Option<Dir>
  {
    match c
    case '^' => Some(Up)
    case 'v' => Some(Down)
    case '<' => Some(Left)
    case '>' => Some(Right)
    case _ => None
  }

  /** The track under a cart: '|' for a vertical heading, '-' for a horizontal one. */
  function TrackUnder(d: Dir): char
  {
    if d == Up || d == Down then '|' else '-'
  }

  /** The cell with every cart arrow replaced by the track under it. */
  function Cleared(c: char): char
  {
    if ArrowDir(c).Some? then TrackUnder(ArrowDir(c).value) else c
  }

  /** Reading order: by row, then by column. */
  predicate Earlier(a: Cart, b: Cart)
  {
    a.y < b.y || (a.y == b.y && a.x < b.x)
  }

  /** The carts are those the arrows of the grid show, running, with turn state 0, one per arrow, in reading order. */
  ghost predicate CartsOf(grid0: Grid, carts: seq<Cart>)
  {
    (forall k :: 0 <= k < |carts| ==>
      var c := carts[k];
      0 <= c.y < |grid0| && 0 <= c.x < |grid0[c.y]| && ArrowDir(grid0[c.y][c.x]) == Some(c.dir)
      && c.turnState == 0 && c.alive)
    && (forall k, l :: 0 <= k < l < |carts| ==> Earlier(carts[k], carts[l]))
    && (forall y, x :: 0 <= y < |grid0| && 0 <= x < |grid0[y]| && ArrowDir(grid0[y][x]).Some? ==> Listed(carts, x, y))
  }

  /** Some cart of the list stands on (x, y). */
  ghost predicate Listed(carts: seq<Cart>, x: int, y: int)
  {
    exists k :: 0 <= k < |carts| && carts[k].x == x && carts[k].y == y
  }

  lemma ListedAppend(carts: seq<Cart>, c: Cart)
    ensures forall x, y :: Listed(carts, x, y) ==> Listed(carts + [c], x, y)
    ensures Listed(carts + [c], c.x, c.y)
  {
    forall x, y | Listed(carts, x, y)
      ensures Listed(carts + [c], x, y)
    {
      var k :| 0 <= k < |carts| && carts[k].x == x && carts[k].y == y;
      assert (carts + [c])[k] == carts[k];
    }
    assert (carts + [c])[|carts|] == c;
  }

  /** parse: replaces every cart arrow by its track and makes a running cart, with turn state 0, for each, in reading order. */
  method Parse(grid0: Grid) returns (grid: Grid, carts: seq<Cart>)
    ensures |grid| == |grid0|
    ensures forall y :: 0 <= y < |grid| ==> |grid[y]| == |grid0[y]|
    ensures forall y, x :: 0 <= y < |grid| && 0 <= x < |grid[y]| ==> grid[y][x] == Cleared(grid0[y][x])
    ensures CartsOf(grid0, carts)
  {
    grid := grid0;
    carts := [];
    for y := 0 to |grid0|
      invariant |grid| == |grid0|
      invariant forall j :: 0 <= j < |grid| ==> |grid[j]| == |grid0[j]|
      invariant forall j, x :: 0 <= j < y && 0 <= x < |grid[j]| ==> grid[j][x] == Cleared(grid0[j][x])
      invariant forall j :: y <= j < |grid| ==> grid[j] == grid0[j]
      invariant forall k :: 0 <= k < |carts| ==>
        var c := carts[k];
        0 <= c.y < y && 0 <= c.x < |grid0[c.y]| && ArrowDir(grid0[c.y][c.x]) == Some(c.dir) && c.turnState == 0 && c.alive
      invariant forall k, l :: 0 <= k < l < |carts| ==> Earlier(carts[k], carts[l])
      invariant forall j, x :: 0 <= j < y && 0 <= x < |grid0[j]| && ArrowDir(grid0[j][x]).Some? ==> Listed(carts, x, j)
    {
      var row := grid[y];
      for x := 0 to |row|
        invariant |row| == |grid0[y]|
        invariant forall i :: 0 <= i < x ==> row[i] == Cleared(grid0[y][i])
        invariant forall i :: x <= i < |row| ==> row[i] == grid0[y][i]
        invariant forall k :: 0 <= k < |carts| ==>
          var c := carts[k];
          (c.y < y || (c.y == y && c.x < x)) && 0 <= c.y <= y && 0 <= c.x < |grid0[c.y]|
          && ArrowDir(grid0[c.y][c.x]) == Some(c.dir) && c.turnState == 0 && c.alive
        invariant forall k, l :: 0 <= k < l < |carts| ==> Earlier(carts[k], carts[l])
        invariant forall j, i :: 0 <= j < y && 0 <= i < |grid0[j]| && ArrowDir(grid0[j][i]).Some? ==> Listed(carts, i, j)
        invariant forall i :: 0 <= i < x && ArrowDir(grid0[y][i]).Some? ==> Listed(carts, i, y)
      {
        var dir := ArrowDir(row[x]);
        if dir.Some? {
          row := row[x := TrackUnder(dir.value)];
          ListedAppend(carts, Cart(x, y, dir.value, 0, true));
          carts := carts + [Cart(x, y, dir.value, 0, true)];
        }
      }
      grid := grid[y := row];
    }
  }

  // ---------------------------------------------------------------------
  // step_cart

  /** The cell one step ahead. */
  function Ahead(c: Cart): (m: Cart)
    ensures m.dir == c.dir && m.turnState == c.turnState && m.alive == c.alive
  {
    match c.dir
    case Up => c.(y := c.y - 1)
    case Down => c.(y := c.y + 1)
    case Left => c.(x := c.x - 1)
    case Right => c.(x := c.x + 1)
  }

  /** The heading after a '/' bend. */
  function Slash(d: Dir): Dir
  {
    match d
    case Up => Right
    case Down => Left
    case Left => Down
    case Right => Up
  }

  /** The heading after a '\' bend. */
  function Backslash(d: Dir): Dir
  {
    match d
    case Up => Left
    case Down => Right
    case Left => Up
    case Right => Down
  }

  /** Each bend sends a cart back the way it came when met from the other side: both are involutions. */
  lemma BendsAreInvolutions(d: Dir)
    ensures Slash(Slash(d)) == d && Backslash(Backslash(d)) == d
    ensures Slash(d) != d && Backslash(d) != d
  {
  }

  /** The heading and turn state after an intersection. */
  function Cross(c: Cart): (r: Cart)
    ensures r.x == c.x && r.y == c.y && r.alive == c.alive && r.turnState < 3
  {
    var dir := if c.turnState == 0 then TurnLeft(c.dir) else if c.turnState == 1 then c.dir else TurnRight(c.dir);
    c.(dir := dir, turnState := (c.turnState + 1) % 3)
  }

  /** Three intersections in a row take a left, a straight and a right, whatever the turn state: the cart ends up facing the way it started. */
  lemma ThreeCrossings(c: Cart)
    requires c.turnState < 3
    ensures Cross(Cross(Cross(c))) == c
  {
  }

  /** step_cart: one cell ahead, then the track there sets the heading; None where the Rust code panics (off the grid or off the track). */
  function StepCart(c: Cart, grid: Grid): (r: Option<Cart>)
    ensures r.Some? ==> r.value.alive == c.alive
    ensures r.Some? ==> (r.value.x - c.x) * (r.value.x - c.x) + (r.value.y - c.y) * (r.value.y - c.y) == 1
    ensures r.Some? && c.turnState < 3 ==> r.value.turnState < 3
  {
    var m := Ahead(c);
    if !(0 <= m.y < |grid| && 0 <= m.x < |grid[m.y]|) then None
    else
      match grid[m.y][m.x]
      case '/' => Some(m.(dir := Slash(m.dir)))
      case '\\' => Some(m.(dir := Backslash(m.dir)))
      case '+' => Some(Cross(m))
      case '-' => Some(m)
      case '|' => Some(m)
      case _ => None
  }

  /** The cart moves one cell in its heading, then turns only as the track under it says. */
  lemma StepCartFollowsTrack(c: Cart, grid: Grid)
    requires StepCart(c, grid).Some?
    ensures var r := StepCart(c, grid).value;
      r.x == Ahead(c).x && r.y == Ahead(c).y
      && var track := grid[r.y][r.x];
      (track == '-' || track == '|' ==> r.dir == c.dir && r.turnState == c.turnState)
      && (track == '/' ==> r.dir == Slash(c.dir) && r.turnState == c.turnState)
      && (track == '\\' ==> r.dir == Backslash(c.dir) && r.turnState == c.turnState)
      && (track == '+' ==> r == Cross(Ahead(c)))
  {
  }

  /** step_cart panics exactly when the cell ahead is off the grid or is not track. */
  lemma StepCartPanics(c: Cart, grid: Grid)
    ensures StepCart(c, grid).None? <==>
      var m := Ahead(c);
      !(0 <= m.y < |grid| && 0 <= m.x < |grid[m.y]|) || grid[m.y][m.x] !in {'/', '\\', '+', '-', '|'}
  {
  }

  // ---------------------------------------------------------------------
  // Counting carts

  /** How many carts of s satisfy f. */
  function Count(s: seq<Cart>, f: Cart -> bool): (n: nat)
    ensures n <= |s|
  {
    if s == [] then 0 else Count(s[..|s| - 1], f) + (if f(s[|s| - 1]) then 1 else 0)
  }

  lemma {:induction false} CountUpdate(s: seq<Cart>, f: Cart -> bool, i: int, c: Cart)
    requires 0 <= i < |s|
    ensures Count(s[i := c], f) == Count(s, f) - (if f(s[i]) then 1 else 0) + (if f(c) then 1 else 0)
    decreases |s|
  {
    var t := s[i := c];
    if i < |s| - 1 {
      assert t[..|t| - 1] == s[..|s| - 1][i := c];
      CountUpdate(s[..|s| - 1], f, i, c);
    } else {
      assert t[..|t| - 1] == s[..|s| - 1];
    }
  }

  lemma {:induction false} CountAppend(s: seq<Cart>, t: seq<Cart>, f: Cart -> bool)
    ensures Count(s + t, f) == Count(s, f) + Count(t, f)
    decreases |t|
  {
    if t == [] {
      assert s + t == s;
    } else {
      assert (s + t)[..|s + t| - 1] == s + t[..|t| - 1];
      CountAppend(s, t[..|t| - 1], f);
    }
  }

  /** Some cart of s satisfies f exactly when the count is positive. */
  lemma {:induction false} CountPositive(s: seq<Cart>, f: Cart -> bool)
    ensures Count(s, f) > 0 <==> exists k :: 0 <= k < |s| && f(s[k])
    decreases |s|
  {
    if s != [] {
      var front := s[..|s| - 1];
      CountPositive(front, f);
      if exists k :: 0 <= k < |front| && f(front[k]) {
        var k :| 0 <= k < |front| && f(front[k]);
        assert f(s[k]);
      }
      if exists k :: 0 <= k < |s| && f(s[k]) {
        var k :| 0 <= k < |s| && f(s[k]);
        if k < |front| {
          assert f(front[k]);
        }
      }
    }
  }

  function IsAlive(): Cart -> bool
  {
    (c: Cart) => c.alive
  }

  /** Dead carts standing on cell p. */
  function DeadAt(p: (int, int)): Cart -> bool
  {
    (c: Cart) => !c.alive && c.x == p.0 && c.y == p.1
  }

  // ---------------------------------------------------------------------
  // Sorting by position

  /** Inserts a cart after every cart not later than it in reading order (a stable insertion). */
  function Insert(c: Cart, s: seq<Cart>): (r: seq<Cart>)
    ensures |r| == |s| + 1
    ensures multiset(r) == multiset(s) + multiset{c}
  {
    if s == [] then [c]
    else if Earlier(c, s[|s| - 1]) then
      assert s == s[..|s| - 1] + [s[|s| - 1]];
      Insert(c, s[..|s| - 1]) + [s[|s| - 1]]
    else s + [c]
  }

  /** `sort_by` on (y, x): a stable insertion sort. */
  function SortByPos(s: seq<Cart>): (r: seq<Cart>)
    ensures |r| == |s|
    ensures multiset(r) == multiset(s)
  {
    if s == [] then []
    else
      assert s == s[..|s| - 1] + [s[|s| - 1]];
      Insert(s[|s| - 1], SortByPos(s[..|s| - 1]))
  }

  /** No cart comes before an earlier-positioned one. */
  predicate Sorted(s: seq<Cart>)
  {
    forall k, l :: 0 <= k < l < |s| ==> !Earlier(s[l], s[k])
  }

  lemma {:induction false} InsertSorted(c: Cart, s: seq<Cart>)
    requires Sorted(s)
    ensures Sorted(Insert(c, s))
    ensures forall k :: 0 <= k < |Insert(c, s)| ==> Insert(c, s)[k] == c || Insert(c, s)[k] in s
    decreases |s|
  {
    if s != [] && Earlier(c, s[|s| - 1]) {
      var front := s[..|s| - 1];
      assert Sorted(front);
      InsertSorted(c, front);
      var r := Insert(c, front);
      forall k | 0 <= k < |r|
        ensures !Earlier(s[|s| - 1], r[k])
      {
        if r[k] != c {
          assert r[k] in front;
        }
      }
    }
  }

  /** The sort puts the carts in reading order. */
  lemma {:induction false} SortByPosSorted(s: seq<Cart>)
    ensures Sorted(SortByPos(s))
    decreases |s|
  {
    if s != [] {
      SortByPosSorted(s[..|s| - 1]);
      InsertSorted(s[|s| - 1], SortByPos(s[..|s| - 1]));
    }
  }

  lemma {:induction false} InsertCount(c: Cart, s: seq<Cart>, f: Cart -> bool)
    ensures Count(Insert(c, s), f) == Count(s, f) + (if f(c) then 1 else 0)
    decreases |s|
  {
    if s != [] && Earlier(c, s[|s| - 1]) {
      InsertCount(c, s[..|s| - 1], f);
      CountAppend(Insert(c, s[..|s| - 1]), [s[|s| - 1]], f);
      CountAppend(s[..|s| - 1], [s[|s| - 1]], f);
      assert s[..|s| - 1] + [s[|s| - 1]] == s;
    } else {
      CountAppend(s, [c], f);
    }
  }

  /** Sorting keeps every count. */
  lemma {:induction false} SortCount(s: seq<Cart>, f: Cart -> bool)
    ensures Count(SortByPos(s), f) == Count(s, f)
    decreases |s|
  {
    if s != [] {
      SortCount(s[..|s| - 1], f);
      InsertCount(s[|s| - 1], SortByPos(s[..|s| - 1]), f);
    }
  }

  // ---------------------------------------------------------------------
  // simulate

  /** How a simulation ends: with the first crash site and the last cart standing, in a panic, or out of ticks. */
  datatype Outcome = Done(first: Option<(int, int)>, last: Option<(int, int)>) | Panic | OutOfTicks

  /** Every turn state is 0, 1 or 2. */
  predicate TurnStatesOk(s: seq<Cart>)
  {
    forall k :: 0 <= k < |s| ==> s[k].turnState < 3
  }

  /**
   * What the loop keeps: the cart count, valid turn states, running carts lost
   * only in pairs, and once there has been a crash, at least two dead carts
   * on its cell.
   */
  ghost predicate Invariant(carts0: seq<Cart>, carts: seq<Cart>, first: Option<(int, int)>)
  {
    |carts| == |carts0| && TurnStatesOk(carts)
    && Tally(Count(carts0, IsAlive()), Count(carts, IsAlive()), first.None?,
             if first.Some? then Count(carts, DeadAt(first.value)) else 2)
  }

  /** n0 carts ran at the start and n run now, losing them in pairs and only after a crash, whose cell holds `dead` dead carts. */
  predicate Tally(n0: nat, n: nat, noCrash: bool, dead: nat)
  {
    n <= n0 && (n0 - n) % 2 == 0 && (noCrash ==> n == n0) && dead >= 2
  }

  /** A crash takes two running carts and leaves the tally a crash one. */
  lemma TallyCrash(n0: nat, n: nat, noCrash: bool, dead: nat, dead': nat)
    requires Tally(n0, n, noCrash, dead) && n >= 2 && dead' >= 2
    ensures Tally(n0, n - 2, false, dead')
  {
  }

  /** Sorting the carts keeps what the loop keeps. */
  lemma SortKeeps(carts0: seq<Cart>, carts: seq<Cart>, first: Option<(int, int)>)
    requires Invariant(carts0, carts, first)
    ensures Invariant(carts0, SortByPos(carts), first)
  {
    var sorted := SortByPos(carts);
    SortCount(carts, IsAlive());
    SortTurnStates(carts);
    if first.Some? {
      SortCount(carts, DeadAt(first.value));
    }
  }

  lemma SortTurnStates(carts: seq<Cart>)
    requires TurnStatesOk(carts)
    ensures TurnStatesOk(SortByPos(carts))
  {
    var sorted := SortByPos(carts);
    forall k | 0 <= k < |sorted|
      ensures sorted[k].turnState < 3
    {
      assert sorted[k] in multiset(carts);
    }
  }

  // ---------------------------------------------------------------------
  // One cart's move

  /** Cart j, not cart i, is running and stands on cart i's cell. */
  predicate Hits(carts: seq<Cart>, i: int, j: int)
  {
    0 <= i < |carts| && 0 <= j < |carts| && j != i && carts[j].alive
    && carts[j].x == carts[i].x && carts[j].y == carts[i].y
  }

  /** The first index from j on of a running cart other than i on cart i's cell, if any. */
  function FirstHit(carts: seq<Cart>, i: int, j: nat): (hit: Option<nat>)
    requires 0 <= i < |carts|
    ensures hit.Some? ==> j <= hit.value < |carts| && Hits(carts, i, hit.value)
    ensures forall k :: j <= k < |carts| && (hit.None? || k < hit.value) ==> !Hits(carts, i, k)
    decreases |carts| - j
  {
    if j >= |carts| then None
    else if Hits(carts, i, j) then Some(j)
    else FirstHit(carts, i, j + 1)
  }

  /** The inner loop over j: the first other running cart on the same cell as cart i, if any. */
  method FindCrash(carts: seq<Cart>, i: int) returns (hit: Option<nat>)
    requires 0 <= i < |carts|
    ensures hit == FirstHit(carts, i, 0)
  {
    for j := 0 to |carts|
      invariant FirstHit(carts, i, j) == FirstHit(carts, i, 0)
    {
      if i == j || !carts[j].alive {
        continue;
      }
      if carts[i].x == carts[j].x && carts[i].y == carts[j].y {
        return Some(j);
      }
    }
    return None;
  }

  /**
   * The move of running cart i: None where step_cart panics; otherwise the
   * carts after it, the first crash site, and whether it crashed. A crash
   * stops cart i and the first running cart on its new cell.
   */
  function MoveF(grid: Grid, carts: seq<Cart>, first: Option<(int, int)>, i: int)
    : (r: Option<(seq<Cart>, Option<(int, int)>, bool)>)
    requires 0 <= i < |carts|
    ensures r.None? <==> StepCart(carts[i], grid).None?
    ensures r.Some? ==> |r.value.0| == |carts|
    ensures r.Some? && (first.Some? || !r.value.2) ==> r.value.1 == first
    ensures r.Some? && r.value.2 ==> r.value.1.Some?
  {
    match StepCart(carts[i], grid)
    case None => None
    case Some(c) =>
      var moved := carts[i := c];
      match FirstHit(moved, i, 0)
      case None => Some((moved, first, false))
      case Some(j) =>
        Some((moved[i := c.(alive := false)][j := moved[j].(alive := false)],
              if first.None? then Some((c.x, c.y)) else first, true))
  }

  /**
   * A move that does not panic either leaves every other cart as it was, or
   * crashes into a running cart on the new cell: then exactly those two stop,
   * at that cell, and the crash is the first one unless there was one before.
   */
  lemma MoveOutcome(grid: Grid, carts: seq<Cart>, first: Option<(int, int)>, i: int)
    requires 0 <= i < |carts| && MoveF(grid, carts, first, i).Some?
    ensures var (after, first', crashed) := MoveF(grid, carts, first, i).value;
      var c := StepCart(carts[i], grid).value;
      var moved := carts[i := c];
      (crashed <==> exists j :: Hits(moved, i, j))
      && (!crashed ==> after == moved)
      && (crashed ==>
            first' == (if first.None? then Some((c.x, c.y)) else first)
            && (exists j :: Hits(moved, i, j) && after == moved[i := c.(alive := false)][j := carts[j].(alive := false)]))
  {
    var c := StepCart(carts[i], grid).value;
    var hit := FirstHit(carts[i := c], i, 0);
    if hit.Some? {
      var j := hit.value;
      assert carts[i := c][j] == carts[j];
      assert carts[i := c][i := c.(alive := false)] == carts[i := c.(alive := false)];
    }
  }

  /** Cart i, running, moves; if it lands on another running cart both stop, and the first crash site is kept. */
  method MoveCart(grid: Grid, carts: seq<Cart>, first: Option<(int, int)>, i: int)
    returns (carts': seq<Cart>, first': Option<(int, int)>, crashed: bool, panicked: bool)
    requires 0 <= i < |carts| && carts[i].alive
    ensures MoveF(grid, carts, first, i) == if panicked then None else Some((carts', first', crashed))
  {
    var moved := StepCart(carts[i], grid);
    if moved.None? {
      return carts, first, false, true;
    }
    var c := moved.value;
    carts' := carts[i := c];
    var hit := FindCrash(carts', i);
    if hit.None? {
      return carts', first, false, false;
    }
    var j := hit.value;
    first' := if first.None? then Some((c.x, c.y)) else first;
    carts' := carts'[i := c.(alive := false)][j := carts'[j].(alive := false)];
    return carts', first', true, false;
  }

  /** A running cart that moves, still running and with a valid turn state, keeps what the loop keeps. */
  lemma MoveKeeps(carts0: seq<Cart>, carts: seq<Cart>, first: Option<(int, int)>, i: int, c: Cart)
    requires 0 <= i < |carts| && carts[i].alive && c.alive && c.turnState < 3
    requires Invariant(carts0, carts, first)
    ensures Invariant(carts0, carts[i := c], first)
    ensures Count(carts[i := c], IsAlive()) == Count(carts, IsAlive())
  {
    CountUpdate(carts, IsAlive(), i, c);
    if first.Some? {
      CountUpdate(carts, DeadAt(first.value), i, c);
    }
  }

  /** Two running carts i and j on one cell both stop: two fewer run, and the first crash site, this one if there was none, has two more dead carts. */
  lemma CrashKeeps(carts0: seq<Cart>, carts: seq<Cart>, first: Option<(int, int)>, i: int, j: int)
    requires 0 <= i < |carts| && 0 <= j < |carts| && i != j
    requires carts[i].alive && carts[j].alive && carts[i].x == carts[j].x && carts[i].y == carts[j].y
    requires Invariant(carts0, carts, first)
    ensures var first' := if first.None? then Some((carts[i].x, carts[i].y)) else first;
      var killed := carts[i := carts[i].(alive := false)][j := carts[j].(alive := false)];
      Invariant(carts0, killed, first') && Count(killed, IsAlive()) == Count(carts, IsAlive()) - 2
  {
    var first' := if first.None? then Some((carts[i].x, carts[i].y)) else first;
    var a := carts[i := carts[i].(alive := false)];
    var b := a[j := carts[j].(alive := false)];
    CountUpdate(carts, IsAlive(), i, a[i]);
    CountUpdate(a, IsAlive(), j, b[j]);
    assert Count(b, IsAlive()) == Count(carts, IsAlive()) - 2;
    var site := DeadAt(first'.value);
    CountUpdate(carts, site, i, a[i]);
    CountUpdate(a, site, j, b[j]);
    assert !site(carts[i]) && !site(a[j]);
    assert Count(b, site) >= Count(carts, site);
    if first.None? {
      assert site(a[i]) && site(b[j]);
    }
    TallyCrash(Count(carts0, IsAlive()), Count(carts, IsAlive()), first.None?,
               if first.Some? then Count(carts, site) else 2, Count(b, site));
    assert TurnStatesOk(b) by {
      forall k | 0 <= k < |b|
        ensures b[k].turnState < 3
      {
        assert b[k].turnState == carts[k].turnState;
      }
    }
  }

  /** A move keeps what the loop keeps: a crash takes two running carts, and otherwise none stops. */
  lemma MoveFKeeps(grid: Grid, carts0: seq<Cart>, carts: seq<Cart>, first: Option<(int, int)>, i: int)
    requires 0 <= i < |carts| && carts[i].alive && Invariant(carts0, carts, first)
    requires MoveF(grid, carts, first, i).Some?
    ensures var (after, first', crashed) := MoveF(grid, carts, first, i).value;
      Invariant(carts0, after, first')
      && Count(after, IsAlive()) == Count(carts, IsAlive()) - (if crashed then 2 else 0)
  {
    var c := StepCart(carts[i], grid).value;
    MoveKeeps(carts0, carts, first, i, c);
    var moved := carts[i := c];
    var hit := FirstHit(moved, i, 0);
    if hit.Some? {
      CrashKeeps(carts0, moved, first, i, hit.value);
    }
  }

  // ---------------------------------------------------------------------
  // One tick

  /** The moves of the running carts from index i on, in order: None on a panic; the flag says the tick stopped at a crash. */
  function MovesFrom(grid: Grid, carts: seq<Cart>, first: Option<(int, int)>, stop: bool, i: nat)
    : Option<(seq<Cart>, Option<(int, int)>, bool)>
    decreases |carts| - i
  {
    if i >= |carts| then Some((carts, first, false))
    else if !carts[i].alive then MovesFrom(grid, carts, first, stop, i + 1)
    else
      match MoveF(grid, carts, first, i)
      case None => None
      case Some((after, first', crashed)) =>
        if crashed && stop then Some((after, first', true))
        else MovesFrom(grid, after, first', stop, i + 1)
  }

  /** One tick of simulate: the carts sorted by position, then each running one moved in that order. */
  function TickF(grid: Grid, carts: seq<Cart>, first: Option<(int, int)>, stop: bool): Option<(seq<Cart>, Option<(int, int)>, bool)>
  {
    MovesFrom(grid, SortByPos(carts), first, stop, 0)
  }

  /** The moves keep what the loop keeps; a tick that stops has lost exactly the two carts of the first crash. */
  lemma {:induction false} MovesKeep(grid: Grid, carts0: seq<Cart>, carts: seq<Cart>, first: Option<(int, int)>, stop: bool, i: nat)
    requires Invariant(carts0, carts, first) && (stop ==> first.None?)
    ensures var r := MovesFrom(grid, carts, first, stop, i);
      r.Some? ==>
        Invariant(carts0, r.value.0, r.value.1)
        && (r.value.2 ==> stop && r.value.1.Some? && Count(r.value.0, IsAlive()) == Count(carts0, IsAlive()) - 2)
        && (!r.value.2 && stop ==> r.value.1.None?)
    decreases |carts| - i
  {
    if i < |carts| {
      if !carts[i].alive {
        MovesKeep(grid, carts0, carts, first, stop, i + 1);
      } else if MoveF(grid, carts, first, i).Some? {
        var (after, first', crashed) := MoveF(grid, carts, first, i).value;
        MoveFKeeps(grid, carts0, carts, first, i);
        if !(crashed && stop) {
          MovesKeep(grid, carts0, after, first', stop, i + 1);
        }
      }
    }
  }

  /** One tick: sort by position, then move each running cart in turn. */
  method Tick(grid: Grid, carts: seq<Cart>, first: Option<(int, int)>, stop: bool)
    returns (carts': seq<Cart>, first': Option<(int, int)>, stopped: bool, panicked: bool)
    ensures TickF(grid, carts, first, stop) == if panicked then None else Some((carts', first', stopped))
  {
    carts' := SortByPos(carts);
    first' := first;
    var n := |carts'|;
    for i := 0 to n
      invariant |carts'| == n
      invariant MovesFrom(grid, carts', first', stop, i) == TickF(grid, carts, first, stop)
    {
      if !carts'[i].alive {
        continue;
      }
      var crashed;
      carts', first', crashed, panicked := MoveCart(grid, carts', first', i);
      if panicked {
        return carts', first', false, true;
      }
      if crashed && stop {
        return carts', first', true, false;
      }
    }
    return carts', first', false, false;
  }

  /** A tick keeps what the loop keeps. */
  lemma TickKeeps(grid: Grid, carts0: seq<Cart>, carts: seq<Cart>, first: Option<(int, int)>, stop: bool)
    requires Invariant(carts0, carts, first) && (stop ==> first.None?)
    ensures var r := TickF(grid, carts, first, stop);
      r.Some? ==>
        Invariant(carts0, r.value.0, r.value.1)
        && (r.value.2 ==> stop && r.value.1.Some? && Count(r.value.0, IsAlive()) == Count(carts0, IsAlive()) - 2)
        && (!r.value.2 && stop ==> r.value.1.None?)
  {
    SortKeeps(carts0, carts, first);
    MovesKeep(grid, carts0, SortByPos(carts), first, stop, 0);
  }

  // ---------------------------------------------------------------------
  // simulate

  /** The position of the first running cart, the one `alive.first()` gives. */
  function Last(carts: seq<Cart>): (last: Option<(int, int)>)
    ensures last.Some? <==> exists k :: 0 <= k < |carts| && carts[k].alive
    ensures last.Some? ==> exists k :: 0 <= k < |carts| && carts[k].alive && (carts[k].x, carts[k].y) == last.value
                                       && forall j :: 0 <= j < k ==> !carts[j].alive
  {
    if carts == [] then None
    else if carts[0].alive then Some((carts[0].x, carts[0].y))
    else
      var rest := Last(carts[1..]);
      assert forall k :: 1 <= k < |carts| ==> carts[k] == carts[1..][k - 1];
      rest
  }

  /** Position of the first running cart, or None when none runs. */
  method LastCart(carts: seq<Cart>) returns (last: Option<(int, int)>)
    ensures last == Last(carts)
  {
    for k := 0 to |carts|
      invariant Last(carts) == Last(carts[k..])
    {
      assert carts[k..][1..] == carts[k + 1..];
      if carts[k].alive {
        return Some((carts[k].x, carts[k].y));
      }
    }
    return None;
  }

  /** The running carts, counted the way `filter(...).collect()` does. */
  method CountAlive(carts: seq<Cart>) returns (n: nat)
    ensures n == Count(carts, IsAlive())
  {
    n := 0;
    for k := 0 to |carts|
      invariant n == Count(carts[..k], IsAlive())
    {
      assert carts[..k + 1][..k] == carts[..k];
      if carts[k].alive {
        n := n + 1;
      }
    }
    assert carts[..|carts|] == carts;
  }

  /** simulate for at most `ticks` ticks: the outcome, and the carts it ends with (those before the tick that panics). */
  function SimF(grid: Grid, carts: seq<Cart>, first: Option<(int, int)>, stop: bool, ticks: nat): (Outcome, seq<Cart>)
    decreases ticks
  {
    if ticks == 0 then (OutOfTicks, carts)
    else
      match TickF(grid, carts, first, stop)
      case None => (Panic, carts)
      case Some((after, first', stopped)) =>
        if stopped then (Done(first', None), after)
        else if Count(after, IsAlive()) <= 1 then (Done(first', Last(after)), after)
        else SimF(grid, after, first', stop, ticks - 1)
  }

  /** simulate, run for at most `ticks` ticks. */
  method Simulate(grid: Grid, carts0: seq<Cart>, stop: bool, ticks: nat) returns (r: Outcome, carts: seq<Cart>)
    ensures (r, carts) == SimF(grid, carts0, None, stop, ticks)
  {
    carts := carts0;
    var first: Option<(int, int)> := None;
    var t := 0;
    while t < ticks
      invariant t <= ticks
      invariant SimF(grid, carts, first, stop, ticks - t) == SimF(grid, carts0, None, stop, ticks)
    {
      var after, first', stopped, panicked := Tick(grid, carts, first, stop);
      if panicked {
        return Panic, carts;
      }
      carts, first := after, first';
      if stopped {
        return Done(first, None), carts;
      }
      var alive := CountAlive(carts);
      if alive <= 1 {
        var last := LastCart(carts);
        return Done(first, last), carts;
      }
      t := t + 1;
    }
    return OutOfTicks, carts;
  }

  /**
   * What a finished simulation promises: with `stop`, the first crash site
   * holds two dead carts and every other cart still runs; otherwise at most
   * one cart runs, and the last position is that cart's.
   */
  ghost predicate Finished(carts0: seq<Cart>, stop: bool, r: Outcome, fin: seq<Cart>)
  {
    r.Done? ==>
      Invariant(carts0, fin, r.first)
      && (stop && r.first.Some? ==> Count(fin, IsAlive()) == Count(carts0, IsAlive()) - 2 && r.last.None?)
      && (!stop || r.first.None? ==>
            Count(fin, IsAlive()) <= 1 && (r.last.Some? <==> Count(fin, IsAlive()) == 1)
            && (r.last.Some? ==> exists k :: 0 <= k < |fin| && fin[k].alive && (fin[k].x, fin[k].y) == r.last.value))
  }

  /** Every simulation that finishes keeps its promise. */
  lemma {:induction false} SimFKeeps(grid: Grid, carts0: seq<Cart>, carts: seq<Cart>, first: Option<(int, int)>, stop: bool, ticks: nat)
    requires Invariant(carts0, carts, first) && (stop ==> first.None?)
    ensures Finished(carts0, stop, SimF(grid, carts, first, stop, ticks).0, SimF(grid, carts, first, stop, ticks).1)
    decreases ticks
  {
    if ticks > 0 {
      TickKeeps(grid, carts0, carts, first, stop);
      var t := TickF(grid, carts, first, stop);
      if t.Some? {
        var after, first', stopped := t.value.0, t.value.1, t.value.2;
        if stopped {
          assert Finished(carts0, stop, Done(first', None), after);
        } else if Count(after, IsAlive()) <= 1 {
          CountPositive(after, IsAlive());
          assert Finished(carts0, stop, Done(first', Last(after)), after);
        } else {
          SimFKeeps(grid, carts0, after, first', stop, ticks - 1);
        }
      }
    }
  }

  /** Moves and ticks with a first crash already recorded keep it. */
  lemma {:induction false} MovesKeepFirst(grid: Grid, carts: seq<Cart>, first: Option<(int, int)>, stop: bool, i: nat)
    requires first.Some?
    ensures var r := MovesFrom(grid, carts, first, stop, i); r.Some? ==> r.value.1 == first
    decreases |carts| - i
  {
    if i < |carts| {
      if !carts[i].alive {
        MovesKeepFirst(grid, carts, first, stop, i + 1);
      } else if MoveF(grid, carts, first, i).Some? {
        var (after, first', crashed) := MoveF(grid, carts, first, i).value;
        MovesKeepFirst(grid, after, first', stop, i + 1);
      }
    }
  }

  lemma {:induction false} SimFKeepsFirst(grid: Grid, carts: seq<Cart>, first: Option<(int, int)>, stop: bool, ticks: nat)
    requires first.Some?
    ensures var r := SimF(grid, carts, first, stop, ticks).0; r.Done? ==> r.first == first
    decreases ticks
  {
    if ticks > 0 {
      MovesKeepFirst(grid, SortByPos(carts), first, stop, 0);
      match TickF(grid, carts, first, stop)
      case None =>
      case Some((after, first', stopped)) =>
        if !stopped && Count(after, IsAlive()) > 1 {
          SimFKeepsFirst(grid, after, first', stop, ticks - 1);
        }
    }
  }

  /**
   * Stopping at the first crash changes nothing before it: until then both
   * runs move alike, and the run that goes on records the same first crash.
   */
  lemma {:induction false} MovesAgree(grid: Grid, carts: seq<Cart>, i: nat)
    ensures var a := MovesFrom(grid, carts, None, true, i);
      var b := MovesFrom(grid, carts, None, false, i);
      (a.None? ==> b.None?)
      && (a.Some? && !a.value.2 ==> b == a && a.value.1.None?)
      && (a.Some? && a.value.2 ==> a.value.1.Some? && (b.Some? ==> b.value.1 == a.value.1))
    decreases |carts| - i
  {
    if i < |carts| {
      if !carts[i].alive {
        MovesAgree(grid, carts, i + 1);
      } else if MoveF(grid, carts, None, i).Some? {
        var (after, first', crashed) := MoveF(grid, carts, None, i).value;
        if crashed {
          MovesKeepFirst(grid, after, first', false, i + 1);
        } else {
          MovesAgree(grid, after, i + 1);
        }
      }
    }
  }

  /** The first crash a stopping run reports is the first crash of the run that goes on, when that run finishes. */
  lemma {:induction false} FirstCrashAgrees(grid: Grid, carts: seq<Cart>, ticks: nat)
    ensures var a := SimF(grid, carts, None, true, ticks).0;
      var b := SimF(grid, carts, None, false, ticks).0;
      a.Done? && a.first.Some? && b.Done? ==> b.first == a.first
    decreases ticks
  {
    var ta := TickF(grid, carts, None, true);
    if ticks == 0 || ta.None? {
      assert !SimF(grid, carts, None, true, ticks).0.Done?;
    } else if ta.value.2 {
      CrashTickAgrees(grid, carts, ticks);
    } else if Count(ta.value.0, IsAlive()) > 1 {
      QuietTickAgrees(grid, carts, ticks);
      FirstCrashAgrees(grid, ta.value.0, ticks - 1);
    } else {
      QuietTickAgrees(grid, carts, ticks);
    }
  }

  /**
   * A tick without a crash is the same whether or not the run would stop at
   * one: both runs end, with no crash, or both go on from the same carts.
   */
  lemma QuietTickAgrees(grid: Grid, carts: seq<Cart>, ticks: nat)
    requires ticks > 0
    requires var ta := TickF(grid, carts, None, true); ta.Some? && !ta.value.2
    ensures var after := TickF(grid, carts, None, true).value.0;
      if Count(after, IsAlive()) > 1 then
        SimF(grid, carts, None, true, ticks) == SimF(grid, after, None, true, ticks - 1)
        && SimF(grid, carts, None, false, ticks) == SimF(grid, after, None, false, ticks - 1)
      else SimF(grid, carts, None, true, ticks).0.first.None?
  {
    MovesAgree(grid, SortByPos(carts), 0);
  }

  /** The tick in which the stopping run meets its crash records the same crash in the run that goes on. */
  lemma CrashTickAgrees(grid: Grid, carts: seq<Cart>, ticks: nat)
    requires ticks > 0
    requires var ta := TickF(grid, carts, None, true); ta.Some? && ta.value.2
    ensures var a := SimF(grid, carts, None, true, ticks).0;
      var b := SimF(grid, carts, None, false, ticks).0;
      a.first.Some? && (b.Done? ==> b.first == a.first)
  {
    MovesAgree(grid, SortByPos(carts), 0);
    var tb := TickF(grid, carts, None, false);
    if tb.Some? {
      var after, first', stopped := tb.value.0, tb.value.1, tb.value.2;
      if !stopped && Count(after, IsAlive()) > 1 {
        SimFKeepsFirst(grid, after, first', false, ticks - 1);
      }
    }
  }

  /** Count of a sequence all of whose carts satisfy f. */
  lemma {:induction false} CountAll(s: seq<Cart>, f: Cart -> bool)
    requires forall k :: 0 <= k < |s| ==> f(s[k])
    ensures Count(s, f) == |s|
    decreases |s|
  {
    if s != [] {
      CountAll(s[..|s| - 1], f);
    }
  }

  // ---------------------------------------------------------------------
  // part1 and part2

  /** The first crash site of a simulation that stops at it, None where part1's expect panics. */
  function FirstCrash(grid: Grid, carts: seq<Cart>, ticks: nat): Option<(int, int)>
  {
    var r := SimF(grid, carts, None, true, ticks).0;
    if r.Done? then r.first else None
  }

  /** Where the last cart standing is, None where part2's expect panics. */
  function LastStanding(grid: Grid, carts: seq<Cart>, ticks: nat): Option<(int, int)>
  {
    var r := SimF(grid, carts, None, false, ticks).0;
    if r.Done? then r.last else None
  }

  /** The map with every cart arrow replaced by its track. */
  ghost predicate ClearedOf(grid0: Grid, grid: Grid)
  {
    |grid| == |grid0|
    && (forall y :: 0 <= y < |grid| ==> |grid[y]| == |grid0[y]|)
    && forall y, x :: 0 <= y < |grid| && 0 <= x < |grid[y]| ==> grid[y][x] == Cleared(grid0[y][x])
  }

  /** The first crash leaves two dead carts on its site and every other cart of the map running. */
  lemma FirstCrashSite(grid0: Grid, grid: Grid, carts: seq<Cart>, ticks: nat)
    requires CartsOf(grid0, carts)
    ensures var r := SimF(grid, carts, None, true, ticks);
      FirstCrash(grid, carts, ticks).Some? ==>
        Count(r.1, DeadAt(r.0.first.value)) >= 2 && Count(r.1, IsAlive()) == |carts| - 2
  {
    CountAll(carts, IsAlive());
    SimFKeeps(grid, carts, carts, None, true, ticks);
  }

  /** The last cart standing is the one running cart at the end, of an odd number on the map. */
  lemma LastStandingCart(grid0: Grid, grid: Grid, carts: seq<Cart>, ticks: nat)
    requires CartsOf(grid0, carts)
    ensures var (r, fin) := SimF(grid, carts, None, false, ticks);
      LastStanding(grid, carts, ticks).Some? ==>
        Count(fin, IsAlive()) == 1 && |carts| % 2 == 1
        && exists k :: 0 <= k < |fin| && fin[k].alive && (fin[k].x, fin[k].y) == r.last.value
  {
    CountAll(carts, IsAlive());
    SimFKeeps(grid, carts, carts, None, false, ticks);
    var (r, fin) := SimF(grid, carts, None, false, ticks);
    if r.Done? && r.last.Some? {
      LastOfOdd(carts, fin, r.first);
    }
  }

  /** part1: the site of the first crash of the carts on the map. */
  method Part1(grid0: Grid, ticks: nat) returns (site: Option<(int, int)>, grid: Grid, carts: seq<Cart>)
    ensures ClearedOf(grid0, grid) && CartsOf(grid0, carts)
    ensures site == FirstCrash(grid, carts, ticks)
  {
    grid, carts := Parse(grid0);
    var r, final := Simulate(grid, carts, true, ticks);
    site := if r.Done? then r.first else None;
  }

  /** part2: where the last cart standing is once every other cart has crashed. */
  method Part2(grid0: Grid, ticks: nat) returns (site: Option<(int, int)>, grid: Grid, carts: seq<Cart>)
    ensures ClearedOf(grid0, grid) && CartsOf(grid0, carts)
    ensures site == LastStanding(grid, carts, ticks)
  {
    grid, carts := Parse(grid0);
    var r, final := Simulate(grid, carts, false, ticks);
    site := if r.Done? then r.last else None;
  }

  /** When all carts ran at the start and one runs at the end, there was an odd number of them. */
  lemma LastOfOdd(carts0: seq<Cart>, carts: seq<Cart>, first: Option<(int, int)>)
    requires forall k :: 0 <= k < |carts0| ==> carts0[k].alive
    requires Invariant(carts0, carts, first) && Count(carts, IsAlive()) == 1
    ensures |carts0| % 2 == 1
  {
    CountAll(carts0, IsAlive());
  }
}
