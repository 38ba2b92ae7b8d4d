// Day 15, first solver: the move is found by a search from the unit that
// steps only onto floor no unit stands on, dead or alive, then by a search
// back from the chosen square to the unit; the step is the first neighbour,
// up, left, right, down, one closer.

module Day15V1 {
  import opened Wrappers
  import opened Day15Units

  /** The four directions a search looks in: up, left, right, down. */
  function Dirs(): (r: seq<Pos>)
    ensures |r| == 4
  {
    [(0, -1), (-1, 0), (1, 0), (0, 1)]
  }

  /** The cell one step from p in direction j. */
  function Toward(p: Pos, j: int): (n: Pos)
    requires 0 <= j < 4
    ensures Adjacent(p, n)
  {
    (p.0 + Dirs()[j].0, p.1 + Dirs()[j].1)
  }

  /** The four directions cover every adjacent cell, and go in reading order. */
  lemma TowardIff(p: Pos, n: Pos)
    ensures Adjacent(p, n) <==> exists j :: 0 <= j < 4 && n == Toward(p, j)
    ensures forall j, l :: 0 <= j < l < 4 ==> Before(Toward(p, j), Toward(p, l))
  {
    if Adjacent(p, n) {
      if n.1 < p.1 {
        assert n == Toward(p, 0);
      } else if n.0 < p.0 {
        assert n == Toward(p, 1);
      } else if n.0 > p.0 {
        assert n == Toward(p, 2);
      } else {
        assert n == Toward(p, 3);
      }
    }
  }

  /** The bounds check of the searches: within the map's rows and the first row's width. */
  predicate InBounds(grid: Grid, p: Pos)
  {
    |grid| > 0 && 0 <= p.1 < |grid| && 0 <= p.0 < |grid[0]|
  }

  /** A floor cell of the map. */
  predicate Floor(grid: Grid, p: Pos)
  {
    0 <= p.1 < |grid| && 0 <= p.0 < |grid[p.1]| && grid[p.1][p.0] == '.'
  }

  /** Some unit stands there, dead or alive. */
  predicate Holds(units: seq<Unit>, p: Pos)
  {
    exists k :: 0 <= k < |units| && units[k].pos == p
  }

  /** A live unit stands there. */
  predicate Occupied(units: seq<Unit>, p: Pos)
  {
    exists k :: 0 <= k < |units| && units[k].hp > 0 && units[k].pos == p
  }

  /**
   * Whether a search may enter p. The first search (back = None) enters
   * floor that no unit stands on, dead or alive; the search back to the
   * unit at f (back = Some(f)) enters floor or f itself, where no live
   * unit other than the one at f stands.
   */
  predicate Enterable(grid: Grid, units: seq<Unit>, p: Pos, back: Option<Pos>)
  {
    InBounds(grid, p)
    && match back
       case None => Floor(grid, p) && !Holds(units, p)
       case Some(f) => (Floor(grid, p) || p == f) && !(Occupied(units, p) && p != f)
  }

  /** The cells a search may enter. */
  ghost function Enterables(grid: Grid, units: seq<Unit>, back: Option<Pos>): (r: set<Pos>)
    ensures forall p :: p in r <==> Enterable(grid, units, p, back)
  {
    set p | p in Cells(grid) + (if back.Some? then {back.value} else {}) && Enterable(grid, units, p, back)
  }

  /** A square in range: a floor cell within bounds, next to a live enemy of `kind`, where no live unit stands. */
  ghost predicate IsTarget(grid: Grid, units: seq<Unit>, kind: Kind, p: Pos)
  {
    InBounds(grid, p) && Floor(grid, p) && !Occupied(units, p)
    && exists k :: 0 <= k < |units| && units[k].hp > 0 && units[k].kind == Enemy(kind) && Adjacent(units[k].pos, p)
  }

  /**
   * A neighbour of `from` a walk of the search back from `to` reaches
   * in d steps, one fewer than the shortest walk to `from`, while every
   * neighbour before it in reading order needs more than d.
   */
  ghost predicate Closer(grid: Grid, units: seq<Unit>, from: Pos, to: Pos, next: Pos, d: nat)
  {
    InBounds(grid, next) && Adjacent(from, next)
    && Reaches(Enterables(grid, units, Some(from)), {}, to, next, d)
    && Reaches(Enterables(grid, units, Some(from)), {}, to, from, d + 1)
    && (forall k: nat :: Reaches(Enterables(grid, units, Some(from)), {}, to, from, k) ==> d + 1 <= k)
    && forall m, k: nat ::
         (InBounds(grid, m) && Adjacent(from, m) && Before(m, next) && Reaches(Enterables(grid, units, Some(from)), {}, to, m, k)) ==> d < k
  }

  /**
   * The square a unit of `kind` at `from` heads for: in range of an
   * enemy, reachable by the first search in d steps, and the first in
   * reading order among the nearest.
   */
  ghost predicate Goal(grid: Grid, units: seq<Unit>, from: Pos, kind: Kind, t: Pos, d: nat)
  {
    IsTarget(grid, units, kind, t) && Reaches(Enterables(grid, units, None), {}, from, t, d)
    && forall u, k: nat :: IsTarget(grid, units, kind, u) && Reaches(Enterables(grid, units, None), {}, from, u, k) ==>
         d <= k && (d == k ==> !Before(u, t))
  }

  /** The step from `from` towards `t`: a closer neighbour, or staying put when the search back never reaches `from`. */
  ghost predicate StepToward(grid: Grid, units: seq<Unit>, from: Pos, t: Pos, to: Pos)
  {
    if to == from then from == t || forall k: nat :: !Reaches(Enterables(grid, units, Some(from)), {}, t, from, k)
    else exists d: nat :: Closer(grid, units, from, t, to, d)
  }

  /** The move of a unit of `kind` at `from`: the step get_next_step gives towards the square bfs chose. */
  ghost predicate MoveToward(grid: Grid, units: seq<Unit>, from: Pos, kind: Kind, to: Pos)
  {
    exists t, d: nat :: Goal(grid, units, from, kind, t, d) && StepToward(grid, units, from, t, to)
  }

  /** No square in range of an enemy of `kind` is reachable by the first search from `from`. */
  ghost predicate Cornered(grid: Grid, units: seq<Unit>, from: Pos, kind: Kind)
  {
    forall t, k: nat :: IsTarget(grid, units, kind, t) ==> !Reaches(Enterables(grid, units, None), {}, from, t, k)
  }

  /** Some live unit of the other kind stands next to unit i. */
  ghost predicate EnemyNear(units: seq<Unit>, i: int)
    requires 0 <= i < |units|
  {
    exists k :: LiveEnemyNear(units, units[i].kind, units[i].pos, k)
  }

  /**
   * The step unit i takes on its turn: none when an enemy already stands
   * next to it, otherwise the step towards the square bfs chose, or none
   * when no square in range can be reached.
   */
  ghost predicate Moves(grid: Grid, units: seq<Unit>, i: int, to: Pos)
    requires 0 <= i < |units|
  {
    var u := units[i];
    if EnemyNear(units, i) then to == u.pos
    else MoveToward(grid, units, u.pos, u.kind, to) || (to == u.pos && Cornered(grid, units, u.pos, u.kind))
  }

  /** A turn of unit i on the map: a step this solver's movement allows, then the attack from there. */
  ghost predicate Turn(grid: Grid, units: seq<Unit>, i: int, after: seq<Unit>)
  {
    0 <= i < |units| && exists to :: Moves(grid, units, i, to) && after == Attack(units[i := units[i].(pos := to)], i)
  }

  /** This solver's rule of turns on the map. */
  ghost function Rule(grid: Grid): TurnRule
  {
    (units: seq<Unit>, i: int, after: seq<Unit>) => Turn(grid, units, i, after)
  }

  class State {
    var grid: Grid
    var units: seq<Unit>

    /** Every unit stands on a floor cell of the map, and no two live units share a cell. */
    ghost predicate Valid()
      reads this
    {
      Placement(grid, units)
    }

    /** from_input: the cleared map and the units read from it. */
    constructor FromInput(lines: Grid, elfAttack: int)
      ensures Valid()
      ensures grid == Clear(lines)
      ensures UnitsOf(lines, elfAttack, units)
    {
      var g, u := Parse(lines, elfAttack);
      ClearIs(lines, g);
      UnitsOfApart(lines, elfAttack, u);
      grid, units := g, u;
    }

    /**
     * The direction loop of a search: each cell one step from pos that the
     * search may enter and has not reached gets one more than the distance
     * of pos and joins the queue, with pos recorded as its parent.
     */
    method Visit(pos: Pos, back: Option<Pos>, queue: seq<Pos>, dist: map<Pos, int>, ghost parent: map<Pos, Pos>)
      returns (queue': seq<Pos>, dist': map<Pos, int>, ghost parent': map<Pos, Pos>, ghost added: seq<Pos>)
      requires pos in dist
      ensures forall c :: c in added ==> c !in dist && Enterable(grid, units, c, back) && Adjacent(pos, c)
      ensures queue' == queue + added
      ensures forall c :: c in dist' <==> c in dist || c in added
      ensures forall c :: c in dist ==> dist'[c] == dist[c]
      ensures forall c :: c in added ==> dist'[c] == dist[pos] + 1
      ensures forall c :: c in parent && c !in added ==> c in parent' && parent'[c] == parent[c]
      ensures forall c :: c in added ==> c in parent' && parent'[c] == pos
      ensures forall j :: 0 <= j < 4 && Enterable(grid, units, Toward(pos, j), back) ==> Toward(pos, j) in dist'
    {
      added := [];
      queue', dist', parent' := queue, dist, parent;
      for j := 0 to 4
        invariant forall c :: c in added ==> c !in dist && Enterable(grid, units, c, back) && Adjacent(pos, c)
        invariant queue' == queue + added
        invariant forall c :: c in dist' <==> c in dist || c in added
        invariant forall c :: c in dist ==> dist'[c] == dist[c]
        invariant forall c :: c in added ==> dist'[c] == dist[pos] + 1
        invariant forall c :: c in parent && c !in added ==> c in parent' && parent'[c] == parent[c]
        invariant forall c :: c in added ==> c in parent' && parent'[c] == pos
        invariant forall l :: 0 <= l < j && Enterable(grid, units, Toward(pos, l), back) ==> Toward(pos, l) in dist'
      {
        var n := Toward(pos, j);
        if InBounds(grid, n) && Enterable(grid, units, n, back) && n !in dist' {
          dist' := dist'[n := dist[pos] + 1];
          parent' := parent'[n := pos];
          queue' := queue' + [n];
          added := added + [n];
        }
      }
    }

    /** A search from `root` over the cells it may enter, which never stops at a cell. */
    ghost predicate Layered(back: Option<Pos>, root: Pos, queue: seq<Pos>, dist: map<Pos, int>,
                            parent: map<Pos, Pos>, popped: set<Pos>, cur: int)
      reads this
    {
      Search(Enterables(grid, units, back), Enterables(grid, units, back), root, {}, queue, dist, parent, popped, cur)
    }

    /** Popping a cell and expanding it keeps the search state, and reaches more or shortens the queue. */
    method Advance(back: Option<Pos>, root: Pos, pos: Pos, queue: seq<Pos>, dist: map<Pos, int>,
                   ghost parent: map<Pos, Pos>, ghost popped: set<Pos>, ghost cur: int)
      returns (queue': seq<Pos>, dist': map<Pos, int>, ghost parent': map<Pos, Pos>)
      requires Layered(back, root, [pos] + queue, dist, parent, popped, cur) && pos in dist
      ensures Layered(back, root, queue', dist', parent', popped + {pos}, dist[pos])
      ensures forall c :: c in dist ==> c in dist' && dist'[c] == dist[c]
      ensures Enterables(grid, units, back) + {root} - dist'.Keys < Enterables(grid, units, back) + {root} - dist.Keys
              || (dist'.Keys == dist.Keys && |queue'| <= |queue|)
    {
      assert ([pos] + queue)[0] == pos;
      ghost var added;
      queue', dist', parent', added := Visit(pos, back, queue, dist, parent);
      TreeExtend(dist, parent, root, Enterables(grid, units, back), {}, pos, added, dist', parent');
      QueuedStep(pos, queue, dist, cur, added, dist');
      CoveredStep(pos, queue, dist, popped, cur, added, dist');
      forall n | n in Enterables(grid, units, back) && Adjacent(pos, n)
        ensures n in dist'
      {
        TowardIff(pos, n);
      }
      ExpandedStep(Enterables(grid, units, back), {}, pos, dist, popped, cur, dist');
      if added == [] {
        assert dist'.Keys == dist.Keys;
      } else {
        assert added[0] in Enterables(grid, units, back) + {root} - dist.Keys;
      }
    }

    /** Some live enemy of `kind` among the first n units stands next to p. */
    ghost predicate EnemyAmong(kind: Kind, p: Pos, n: int)
      reads this
    {
      exists m :: 0 <= m < n && m < |units| && units[m].hp > 0 && units[m].kind == Enemy(kind) && Adjacent(units[m].pos, p)
    }

    /**
     * The squares in range simulate_round lists for a unit of `kind`: the
     * four cells around each live enemy, kept when within bounds, floor,
     * and free of live units; a cell may be listed more than once.
     */
    method TargetsOf(kind: Kind) returns (targets: seq<Pos>)
      ensures forall p :: p in targets <==> IsTarget(grid, units, kind, p)
    {
      targets := [];
      for k := 0 to |units|
        invariant forall p :: p in targets <==> InBounds(grid, p) && Floor(grid, p) && !Occupied(units, p) && EnemyAmong(kind, p, k)
      {
        var u := units[k];
        if u.hp > 0 && u.kind == Enemy(kind) {
          for j := 0 to 4
            invariant forall p :: p in targets <==>
              InBounds(grid, p) && Floor(grid, p) && !Occupied(units, p)
              && (EnemyAmong(kind, p, k) || exists l :: 0 <= l < j && p == Toward(u.pos, l))
          {
            var n := Toward(u.pos, j);
            if InBounds(grid, n) && Floor(grid, n) && !Occupied(units, n) {
              targets := targets + [n];
            }
          }
          forall p | Adjacent(u.pos, p)
            ensures exists l :: 0 <= l < 4 && p == Toward(u.pos, l)
          {
            TowardIff(u.pos, p);
          }
        }
      }
    }

    /**
     * The loop of bfs: a search from `start` through every cell it may
     * enter, run to the end, listing each popped square of `targets` with
     * its distance.
     */
    method Sweep(start: Pos, targets: seq<Pos>)
      returns (reach: seq<(int, Pos)>, ghost dist: map<Pos, int>, ghost parent: map<Pos, Pos>, ghost popped: set<Pos>, ghost cur: int)
      ensures Layered(None, start, [], dist, parent, popped, cur)
      ensures forall c :: c in reach <==> c.1 in popped && c.1 in targets && c.1 in dist && c.0 == dist[c.1]
    {
      var queue := [start];
      var seen := map[start := 0];
      parent, popped, cur := map[], {}, 0;
      reach := [];
      SearchStart(Enterables(grid, units, None), Enterables(grid, units, None), start, {});
      while queue != []
        invariant Layered(None, start, queue, seen, parent, popped, cur)
        invariant forall c :: c in reach <==> c.1 in popped && c.1 in targets && c.1 in seen && c.0 == seen[c.1]
        decreases Enterables(grid, units, None) + {start} - seen.Keys, |queue|
      {
        var pos := queue[0];
        var d := seen[pos];
        assert queue == [pos] + queue[1..];
        if pos in targets {
          reach := reach + [(d, pos)];
        }
        queue, seen, parent := Advance(None, start, pos, queue[1..], seen, parent, popped, cur);
        popped, cur := popped + {pos}, d;
      }
      dist := seen;
    }

    /**
     * bfs: of the squares of `targets` reachable from `start`, the one at
     * the least distance, then the least (y, x); None when none is.
     */
    method Bfs(start: Pos, targets: seq<Pos>) returns (r: Option<Pos>, ghost d: nat)
      ensures r.Some? ==> r.value in targets && Reaches(Enterables(grid, units, None), {}, start, r.value, d)
      ensures r.Some? ==> forall t, k: nat :: t in targets && Reaches(Enterables(grid, units, None), {}, start, t, k) ==>
                            d <= k && (d == k ==> !Before(t, r.value))
      ensures r.None? ==> forall t, k: nat :: t in targets ==> !Reaches(Enterables(grid, units, None), {}, start, t, k)
    {
      var reach, dist, parent, popped, cur := Sweep(start, targets);
      HeadPopped(Enterables(grid, units, None), Enterables(grid, units, None), start, {}, [], dist, parent, popped, cur);
      forall t, k: nat | t in targets && Reaches(Enterables(grid, units, None), {}, start, t, k)
        ensures t in dist && (dist[t], t) in reach && dist[t] <= k
      {
        Exhausted(Enterables(grid, units, None), Enterables(grid, units, None), start, {}, dist, parent, popped, cur, t, k);
      }
      if reach == [] {
        return None, 0;
      }
      var c := Least(reach);
      TreeReaches(dist, parent, start, Enterables(grid, units, None), {}, c.1);
      r, d := Some(c.1), c.0;
    }

    /**
     * The loop of get_next_step: a search back from `to` through the cells
     * it may enter on the way to the unit at `from`, until it pops `from` or
     * runs dry.
     */
    method Retrace(from: Pos, to: Pos)
      returns (dist: map<Pos, int>, ghost queue: seq<Pos>, ghost parent: map<Pos, Pos>, ghost popped: set<Pos>, ghost cur: int)
      ensures Layered(Some(from), to, queue, dist, parent, popped, cur)
      ensures from in dist ==> queue != [] && queue[0] == from
      ensures from !in dist ==> queue == [] && from !in popped
    {
      var q := [to];
      var seen := map[to := 0];
      parent, popped, cur := map[], {}, 0;
      SearchStart(Enterables(grid, units, Some(from)), Enterables(grid, units, Some(from)), to, {});
      while q != [] && q[0] != from
        invariant Layered(Some(from), to, q, seen, parent, popped, cur)
        invariant from !in popped
        decreases Enterables(grid, units, Some(from)) + {to} - seen.Keys, |q|
      {
        var pos := q[0];
        var d := seen[pos];
        assert q == [pos] + q[1..];
        q, seen, parent := Advance(Some(from), to, pos, q[1..], seen, parent, popped, cur);
        popped, cur := popped + {pos}, d;
      }
      dist, queue := seen, q;
    }

    /**
     * The direction loop of get_next_step: the first neighbour of `from`,
     * up, left, right, down, within bounds and at distance target - 1.
     */
    method FirstCloser(from: Pos, dist: map<Pos, int>, target: int) returns (next: Pos, found: bool)
      ensures found ==> InBounds(grid, next) && Adjacent(from, next) && next in dist && dist[next] == target - 1
      ensures found ==> forall m :: InBounds(grid, m) && Adjacent(from, m) && Before(m, next) ==>
                          !(m in dist && dist[m] == target - 1)
      ensures !found ==> next == from && forall m :: InBounds(grid, m) && Adjacent(from, m) ==>
                           !(m in dist && dist[m] == target - 1)
    {
      for j := 0 to 4
        invariant forall l :: 0 <= l < j && InBounds(grid, Toward(from, l)) ==>
                    !(Toward(from, l) in dist && dist[Toward(from, l)] == target - 1)
      {
        var n := Toward(from, j);
        if InBounds(grid, n) && n in dist && dist[n] == target - 1 {
          forall m | Adjacent(from, m) && Before(m, n)
            ensures exists l :: 0 <= l < j && m == Toward(from, l)
          {
            TowardIff(from, m);
            TowardIff(from, n);
          }
          return n, true;
        }
      }
      forall m | Adjacent(from, m)
        ensures exists l :: 0 <= l < 4 && m == Toward(from, l)
      {
        TowardIff(from, m);
      }
      return from, false;
    }

    /** A closer neighbour the direction loop finds, once the search back has popped `from`, is a step of Closer. */
    /** The neighbour one layer nearer `to` puts `from` at least one layer out. */
    lemma CloserLayer(from: Pos, to: Pos, queue: seq<Pos>, dist: map<Pos, int>, parent: map<Pos, Pos>,
                      popped: set<Pos>, cur: int, next: Pos)
      requires Layered(Some(from), to, queue, dist, parent, popped, cur) && queue != [] && queue[0] == from
      requires next in dist && dist[next] == dist[from] - 1
      ensures dist[from] >= 1
    {
      ghost var cells := Enterables(grid, units, Some(from));
      HeadShortest(cells, cells, to, {}, queue, dist, parent, popped, cur);
    }

    lemma CloserFound(from: Pos, to: Pos, queue: seq<Pos>, dist: map<Pos, int>, parent: map<Pos, Pos>,
                      popped: set<Pos>, cur: int, next: Pos, d: nat)
      requires Layered(Some(from), to, queue, dist, parent, popped, cur) && queue != [] && queue[0] == from
      requires InBounds(grid, next) && Adjacent(from, next) && next in dist && dist[next] == dist[from] - 1
      requires forall m :: InBounds(grid, m) && Adjacent(from, m) && Before(m, next) ==> !(m in dist && dist[m] == dist[from] - 1)
      requires d + 1 == dist[from]
      ensures next != from && Closer(grid, units, from, to, next, d)
      ensures next == to || (Floor(grid, next) && !Occupied(units, next))
    {
      AdjacentIff(from, next);
      ghost var cells := Enterables(grid, units, Some(from));
      HeadShortest(cells, cells, to, {}, queue, dist, parent, popped, cur);
      TreeReaches(dist, parent, to, cells, {}, next);
      assert from == to || from in cells by {
        if from != to {
          assert parent[from] in dist;
        }
      }
      forall m, k: nat | InBounds(grid, m) && Adjacent(from, m) && Before(m, next) && Reaches(cells, {}, to, m, k)
        ensures dist[from] - 1 < k
      {
        if k < dist[from] {
          NeighbourLayer(cells, cells, to, {}, queue, dist, parent, popped, cur, from, m, k);
        }
      }
      if next != to {
        assert parent[next] in dist;
      }
    }

    /** When the search back has popped `from` and no neighbour within bounds is one closer, `from` is `to` or `to` is out of bounds. */
    lemma NoneCloser(from: Pos, to: Pos, queue: seq<Pos>, dist: map<Pos, int>, parent: map<Pos, Pos>,
                     popped: set<Pos>, cur: int)
      requires Layered(Some(from), to, queue, dist, parent, popped, cur) && queue != [] && queue[0] == from
      requires forall m :: InBounds(grid, m) && Adjacent(from, m) ==> !(m in dist && dist[m] == dist[from] - 1)
      ensures from == to || !InBounds(grid, to)
    {
      if from != to {
        var via := parent[from];
        assert via in dist && dist[via] == dist[from] - 1 && Adjacent(via, from);
        assert via == to || via in Enterables(grid, units, Some(from));
        AdjacentIff(via, from);
      }
    }

    /**
     * get_next_step: the search back from `to`, then the first neighbour of
     * `from`, up, left, right, down, that lies one closer to `to`; `from`
     * itself when the search never reaches it or no neighbour is closer.
     */
    method GetNextStep(from: Pos, to: Pos) returns (next: Pos, ghost d: nat)
      ensures next != from ==> Closer(grid, units, from, to, next, d)
      ensures next != from ==> next == to || (Floor(grid, next) && !Occupied(units, next))
      ensures next == from ==> from == to || !InBounds(grid, to) || forall k: nat :: !Reaches(Enterables(grid, units, Some(from)), {}, to, from, k)
    {
      var dist, queue, parent, popped, cur := Retrace(from, to);
      if from !in dist {
        Unreached(Enterables(grid, units, Some(from)), Enterables(grid, units, Some(from)), to, {}, dist, parent, popped, cur, from);
        return from, 0;
      }
      next, d := StepBack(from, to, dist, queue, parent, popped, cur);
    }

    /** The neighbour of `from` one layer nearer `to` in a search from `to` that reached `from`. */
    method StepBack(from: Pos, to: Pos, dist: map<Pos, int>, ghost queue: seq<Pos>, ghost parent: map<Pos, Pos>,
                    ghost popped: set<Pos>, ghost cur: int) returns (next: Pos, ghost d: nat)
      requires Layered(Some(from), to, queue, dist, parent, popped, cur) && queue != [] && queue[0] == from
      requires from in dist
      ensures next != from ==> Closer(grid, units, from, to, next, d)
      ensures next != from ==> next == to || (Floor(grid, next) && !Occupied(units, next))
      ensures next == from ==> from == to || !InBounds(grid, to)
    {
      var found;
      next, found := FirstCloser(from, dist, dist[from]);
      if found {
        CloserLayer(from, to, queue, dist, parent, popped, cur, next);
        d := dist[from] - 1;
        CloserFound(from, to, queue, dist, parent, popped, cur, next, d);
      } else {
        NoneCloser(from, to, queue, dist, parent, popped, cur);
        d := 0;
      }
    }

    /** The move of simulate_round for a unit of `kind` at `from`: the squares in range, bfs, then get_next_step. */
    method NextStep(from: Pos, kind: Kind) returns (to: Pos)
      ensures MoveToward(grid, units, from, kind, to) || (to == from && Cornered(grid, units, from, kind))
      ensures to != from ==> Floor(grid, to) && !Occupied(units, to)
    {
      var targets := TargetsOf(kind);
      to := from;
      if targets == [] {
        return;
      }
      var r, d := Bfs(from, targets);
      if r.None? {
        return;
      }
      var t := r.value;
      ghost var sd;
      to, sd := GetNextStep(from, t);
      assert Goal(grid, units, from, kind, t, d);
      assert StepToward(grid, units, from, t, to);
    }

    /**
     * The move of live unit i: unless an enemy is already next to it, the
     * step bfs and get_next_step give towards the squares in range of an
     * enemy, if any.
     */
    method Move(i: int) returns (to: Pos)
      requires Valid() && 0 <= i < |units| && units[i].hp > 0
      modifies this
      ensures grid == old(grid) && Valid()
      ensures units == old(units)[i := old(units)[i].(pos := to)]
      ensures old(EnemyNear(units, i)) ==> to == old(units[i].pos)
      ensures !old(EnemyNear(units, i)) ==>
                old(MoveToward(grid, units, units[i].pos, units[i].kind, to))
                || (to == old(units[i].pos) && old(Cornered(grid, units, units[i].pos, units[i].kind)))
    {
      var u := units[i];
      var near := EnemiesNear(units, u.kind, u.pos, |units|);
      to := u.pos;
      if |near| == 0 {
        to := NextStep(u.pos, u.kind);
        if to != u.pos {
          PlacementMove(grid, units, i, to);
          units := units[i := u.(pos := to)];
          return;
        }
      } else {
        assert near[0] in near;
      }
      assert units == units[i := u.(pos := to)];
    }

    /** The turn of live unit i: its move, then its attack from where it stands. */
    method TakeTurn(i: int) returns (to: Pos)
      requires Valid() && 0 <= i < |units| && units[i].hp > 0
      modifies this
      ensures grid == old(grid) && Valid()
      ensures units == Attack(old(units)[i := old(units)[i].(pos := to)], i)
      ensures old(Moves(grid, units, i, to))
    {
      to := Move(i);
      PlacementAttack(grid, units, i);
      units := Attack(units, i);
    }
 
    /**
     * simulate_round: every unit, in the reading order of where the units
     * stood when the round began, takes its turn unless it is dead; the round
     * ends early, reporting false, when a live unit finds no live enemy,
     * and otherwise purges the dead and reports true. `mid` is the roster
     * before the purge.
     */
    method SimulateRound() returns (going: bool, ghost mid: seq<Unit>)
      requires Valid()
      modifies this
      ensures grid == old(grid) && Valid()
      ensures Roster(old(units), mid) && Round(Rule(grid), old(units), mid, going)
      ensures going ==> units == Live(mid)
      ensures !going ==> units == mid && exists k :: Stopped(mid, k)
    {
      var order := TurnOrder(units);
      SlotsBegin(Rule(grid), grid, units);
      var j; ghost var trail;
      going, j, trail := PlaySlots(Rule(grid), order);
      mid := units;
      RoundOf(Rule(grid), old(units), trail, mid, going);
      if going {
        Settle();
      } else {
        assert Stopped(mid, order[j]);
      }
    }

    /** The turns of a round, slot by slot in `order`, until one stops it. */
    method PlaySlots(ghost rule: TurnRule, order: seq<int>) returns (going: bool, j: int, ghost trail: seq<seq<Unit>>)
      requires rule == Rule(grid) && Slots(rule, order, [units], units, grid, units)
      modifies this
      ensures grid == old(grid) && Slots(rule, order, trail, old(units), grid, units) && j == |trail| - 1
      ensures going ==> j == |order|
      ensures !going ==> j < |order| && Stopped(units, order[j])
    {
      ghost var start := units;
      trail := [units];
      j := 0;
      while j < |order|
        invariant grid == old(grid) && Slots(rule, order, trail, start, grid, units) && j == |trail| - 1
      {
        var stop;
        stop, trail := PlaySlot(rule, order, j, trail, start);
        if stop {
          return false, j, trail;
        }
        j := j + 1;
      }
      going := true;
    }

    /**
     * The turn in the next slot of a round begun from `start`: the unit skips it
     * when dead, stops the round when it finds no enemy, and otherwise
     * takes it.
     */
    method PlaySlot(ghost rule: TurnRule, order: seq<int>, j: int, ghost trail: seq<seq<Unit>>, ghost start: seq<Unit>)
      returns (stop: bool, ghost trail': seq<seq<Unit>>)
      requires rule == Rule(grid) && Slots(rule, order, trail, start, grid, units) && j == |trail| - 1 < |order|
      modifies this
      ensures grid == old(grid) && Slots(rule, order, trail', start, grid, units)
      ensures stop ==> trail' == trail && Stopped(units, order[j])
      ensures !stop ==> trail' == trail + [units]
    {
      var i := order[j];
      ghost var before := units;
      if units[i].hp > 0 {
        if !HasEnemies(units, units[i].kind) {
          return true, trail;
        }
        var to := TakeTurn(i);
        RosterTurn(start, before, i, to);
        assert Turn(grid, before, i, units);
      }
      assert Slot(rule, before, i, units);
      TracedStep(rule, order, start, trail, units);
      trail' := trail + [units];
      stop := false;
    }

    /** retain(|u| u.hp > 0): drops the dead from the roster. */
    method Settle()
      requires Valid()
      modifies this
      ensures grid == old(grid) && Valid()
      ensures units == Live(old(units))
    {
      PlacementLive(grid, units);
      units := Live(units);
    }
  }

  /**
   * part1: the battle with elves of attack power 3, until a round ends
   * early; the answer is the number of full rounds times the outcome of the
   * roster that round leaves, the dead of that round included. `history`
   * lists the rosters the full rounds began from and left. None when the
   * battle is not over within maxRounds rounds (the source loops until it is).
   */
  method Part1(lines: Grid, maxRounds: nat)
    returns (r: Option<int>, rounds: nat, final: seq<Unit>, ghost start: seq<Unit>, ghost history: seq<seq<Unit>>)
    ensures UnitsOf(lines, 3, start) && Fought(Rule(Clear(lines)), start, history, 0)
    ensures r.Some? ==> rounds < maxRounds && |history| == rounds + 1
                        && Round(Rule(Clear(lines)), history[rounds], final, false) && r.value == rounds * HpSum(final)
    ensures r.None? ==> |history| == maxRounds + 1
  {
    var state := new State.FromInput(lines, 3);
    ghost var rule := Rule(Clear(lines));
    start, history := state.units, [state.units];
    rounds := 0;
    final := state.units;
    while rounds < maxRounds
      invariant state.Valid() && state.grid == Clear(lines) && rounds <= maxRounds
      invariant |history| == rounds + 1 && history[rounds] == state.units && Fought(rule, start, history, 0)
    {
      var going, mid := state.SimulateRound();
      if !going {
        final := state.units;
        return Some(rounds * HpSum(state.units)), rounds, final, start, history;
      }
      FoughtStep(rule, start, history, mid, 0);
      rounds := rounds + 1;
      history := history + [state.units];
    }
    return None, rounds, final, start, history;
  }

  /**
   * One battle of part2 from the state's roster, `start`: full rounds while
   * no elf is lost, until a round ends early or a full round leaves fewer
   * elves than at the start.
   * Not over when maxRounds full rounds are fought first.
   */
  method ElfFight(state: State, ghost rule: TurnRule, maxRounds: nat)
    returns (over: bool, rounds: nat, ghost history: seq<seq<Unit>>, ghost final: seq<Unit>)
    requires state.Valid() && rule == Rule(state.grid)
    modifies state
    ensures state.grid == old(state.grid) && state.Valid()
    ensures over ==> |history| == rounds + 1 && ElfBattle(rule, old(state.units), history, final)
                     && state.units == final
  {
    ghost var start := state.units;
    var initial := KindCount(state.units, Elf);
    history, final := [state.units], state.units;
    rounds := 0;
    over := false;
    while !over
      invariant state.Valid() && state.grid == old(state.grid) && rounds <= maxRounds && |history| == rounds + 1
      invariant initial == KindCount(start, Elf)
      invariant if over then Ended(rule, start, history, final, state.units, false)
                else Fighting(rule, start, history, state.units, initial)
      decreases maxRounds - rounds, !over
    {
      if rounds == maxRounds {
        return;
      }
      over, rounds, history, final := ElfRound(state, rule, start, rounds, history, initial);
    }
  }

  /** One round of a battle of part2, and whether it ends the battle. */
  method ElfRound(state: State, ghost rule: TurnRule, ghost start: seq<Unit>, rounds: nat, ghost history: seq<seq<Unit>>,
                  initial: nat)
    returns (over: bool, rounds': nat, ghost history': seq<seq<Unit>>, ghost final: seq<Unit>)
    requires state.Valid() && rule == Rule(state.grid) && |history| == rounds + 1
    requires initial == KindCount(start, Elf) && Fighting(rule, start, history, state.units, initial)
    modifies state
    ensures state.grid == old(state.grid) && state.Valid() && |history'| == rounds' + 1
    ensures over ==> rounds <= rounds' <= rounds + 1 && Ended(rule, start, history', final, state.units, false)
    ensures !over ==> rounds' == rounds + 1 && Fighting(rule, start, history', state.units, initial)
  {
    var going, mid := state.SimulateRound();
    if !going {
      return true, rounds, history, mid;
    }
    FoughtStep(rule, start, history, mid, initial);
    rounds', history' := rounds + 1, history + [state.units];
    over := KindCount(state.units, Elf) < initial;
    final := state.units;
  }

  /**
   * The battle of part2 at one elf attack power, on a fresh state read from
   * the input: `units` is the roster it ends with and `start` the one it
   * began with.
   */
  method ElfPower(lines: Grid, attack: int, maxRounds: nat)
    returns (over: bool, start: seq<Unit>, rounds: nat, units: seq<Unit>, ghost history: seq<seq<Unit>>, ghost final: seq<Unit>)
    ensures UnitsOf(lines, attack, start)
    ensures over ==> |history| == rounds + 1 && ElfBattle(Rule(Clear(lines)), start, history, final)
                     && units == final
  {
    var state := new State.FromInput(lines, attack);
    start := state.units;
    over, rounds, history, final := ElfFight(state, Rule(state.grid), maxRounds);
    units := state.units;
  }

  /**
   * part2: for elf attack power 4 to 200, the battle that stops as soon as
   * a full round leaves fewer elves in the roster than at the start; the
   * first power whose final roster counts as many elves as at the start
   * gives the answer, and 0 when none does. None when a battle is not over
   * within maxRounds rounds.
   */
  method Part2(lines: Grid, maxRounds: nat)
    returns (r: Option<int>, attack: int, start: seq<Unit>, rounds: nat, final: seq<Unit>, ghost history: seq<seq<Unit>>)
    ensures r.Some? ==> 4 <= attack <= 201 && forall a :: 4 <= a < attack ==> ElvesLost(Rule(Clear(lines)), lines, a, false)
    ensures r.Some? && attack <= 200 ==>
              UnitsOf(lines, attack, start) && |history| == rounds + 1 && ElfBattle(Rule(Clear(lines)), start, history, final)
              && KindCount(final, Elf) == KindCount(start, Elf) && r.value == rounds * HpSum(final)
    ensures r.Some? && attack > 200 ==> r.value == 0
  {
    attack := 4;
    start, rounds, final, history := [], 0, [], [];
    while attack <= 200
      invariant 4 <= attack <= 201
      invariant forall a :: 4 <= a < attack ==> ElvesLost(Rule(Clear(lines)), lines, a, false)
    {
      var over; ghost var last;
      over, start, rounds, final, history, last := ElfPower(lines, attack, maxRounds);
      if !over {
        return None, attack, start, rounds, final, history;
      }
      if KindCount(final, Elf) == KindCount(start, Elf) {
        return Some(rounds * HpSum(final)), attack, start, rounds, final, history;
      }
      attack := attack + 1;
    }
    return Some(0), attack, start, rounds, final, history;
  }
}
