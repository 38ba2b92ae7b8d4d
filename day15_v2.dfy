// Day 15, second solver: the squares in range are listed first, the move is
// found by a search from the unit to the nearest of them, then by one search
// back from the chosen square, and the step is the neighbour of the unit the
// second search found nearest.

module Day15V2 {
  import opened Wrappers
  import opened Day15Units

  /** is_occupied: a live unit stands there. */
  predicate Occupied(units: seq<Unit>, pos: Pos)
  {
    exists k :: 0 <= k < |units| && units[k].hp > 0 && units[k].pos == pos
  }

  /** is_open: on the map, floor, and not occupied. */
  predicate Open(grid: Grid, units: seq<Unit>, pos: Pos)
  {
    if pos.1 < 0 || pos.1 >= |grid| || pos.0 < 0 || pos.0 >= |grid[pos.1]| then false
    else grid[pos.1][pos.0] == '.' && !Occupied(units, pos)
  }

  /** A cell is open exactly when it is a floor cell of the map where every unit standing is dead. */
  lemma OpenIff(grid: Grid, units: seq<Unit>, pos: Pos)
    ensures Open(grid, units, pos) <==> OnMap(grid, pos) && grid[pos.1][pos.0] == '.'
                                        && forall k :: 0 <= k < |units| && units[k].pos == pos ==> units[k].hp <= 0
  {
  }

  /** The open cells of the map. */
  ghost function OpenCells(grid: Grid, units: seq<Unit>): (r: set<Pos>)
    ensures forall p :: p in r <==> Open(grid, units, p)
  {
    set p | p in Cells(grid) && Open(grid, units, p)
  }

  /**
   * The cells neighbors yields for pos: up if pos is below the first row,
   * left if it is right of the first column, right if that is within the
   * first row's width, down if that is within the map's rows.
   */
  predicate NeighborOf(grid: Grid, pos: Pos, p: Pos)
  {
    |grid| > 0
    && ((p == (pos.0, pos.1 - 1) && pos.1 > 0)
        || (p == (pos.0 - 1, pos.1) && pos.0 > 0)
        || (p == (pos.0 + 1, pos.1) && pos.0 + 1 < |grid[0]|)
        || (p == (pos.0, pos.1 + 1) && pos.1 + 1 < |grid|))
  }

  /** The neighbours of a cell that the searches consider: adjacent, and in reach of the map's extent. */
  lemma NeighborOfAdjacent(grid: Grid, pos: Pos, p: Pos)
    requires pos.0 >= 0 && pos.1 >= 0
    ensures NeighborOf(grid, pos, p) ==> Adjacent(pos, p) && p.0 >= 0 && p.1 >= 0
    ensures |grid| > 0 && Adjacent(pos, p) && 0 <= p.0 < |grid[0]| && 0 <= p.1 < |grid| ==> NeighborOf(grid, pos, p)
  {
  }

  /** A square in range: an open neighbour of a live unit of the other kind. */
  ghost predicate IsTarget(grid: Grid, units: seq<Unit>, kind: Kind, p: Pos)
  {
    Open(grid, units, p) && exists k :: 0 <= k < |units| && units[k].hp > 0 && units[k].kind == Enemy(kind) && NeighborOf(grid, units[k].pos, p)
  }

  /** The cells NeighborOf yields for pos, as a set. */
  ghost function NeighborSet(grid: Grid, pos: Pos): (r: set<Pos>)
    ensures forall p :: p in r <==> NeighborOf(grid, pos, p)
  {
    set p | p in {(pos.0, pos.1 - 1), (pos.0 - 1, pos.1), (pos.0 + 1, pos.1), (pos.0, pos.1 + 1)} && NeighborOf(grid, pos, p)
  }

  /** The open neighbours of the live units of the other kind among the first n units. */
  ghost function InRange(grid: Grid, units: seq<Unit>, kind: Kind, n: nat): set<Pos>
    requires n <= |units|
  {
    if n == 0 then {}
    else
      InRange(grid, units, kind, n - 1)
      + (if units[n - 1].hp > 0 && units[n - 1].kind == Enemy(kind)
         then set p | p in NeighborSet(grid, units[n - 1].pos) && Open(grid, units, p) else {})
  }

  lemma {:induction false} InRangeIff(grid: Grid, units: seq<Unit>, kind: Kind, n: nat, p: Pos)
    requires n <= |units|
    ensures p in InRange(grid, units, kind, n) <==>
      Open(grid, units, p) && exists k :: 0 <= k < n && units[k].hp > 0 && units[k].kind == Enemy(kind) && NeighborOf(grid, units[k].pos, p)
  {
    if n > 0 {
      InRangeIff(grid, units, kind, n - 1, p);
    }
  }

  /** The squares in range of the enemies of `kind`. */
  ghost function TargetSet(grid: Grid, units: seq<Unit>, kind: Kind): set<Pos>
  {
    InRange(grid, units, kind, |units|)
  }

  /** A square is in the target set exactly when it is in range of a live enemy. */
  lemma TargetSetIff(grid: Grid, units: seq<Unit>, kind: Kind)
    ensures forall p :: p in TargetSet(grid, units, kind) <==> IsTarget(grid, units, kind, p)
  {
    forall p {
      InRangeIff(grid, units, kind, |units|, p);
    }
  }

  /** The open cells within the first row's width: the cells a search can step into. */
  ghost function Squares(grid: Grid, units: seq<Unit>): (r: set<Pos>)
    requires |grid| > 0
    ensures forall p :: p in r <==> Open(grid, units, p) && p.0 < |grid[0]|
  {
    set p | p in OpenCells(grid, units) && p.0 < |grid[0]|
  }

  /** The cells the searches of find_move may enter: the open cells, and the cell `also` of the unit that moves. */
  ghost function Passable(grid: Grid, units: seq<Unit>, also: Pos): (r: set<Pos>)
    ensures forall p :: p in r <==> Open(grid, units, p) || p == also
  {
    OpenCells(grid, units) + {also}
  }

  /** The passable cells within the first row's width: the cells a search can step into. */
  ghost function Reach(grid: Grid, units: seq<Unit>, also: Pos): (r: set<Pos>)
    requires |grid| > 0
    ensures forall p :: p in r <==> (Open(grid, units, p) || p == also) && p.0 < |grid[0]|
  {
    set p | p in Passable(grid, units, also) && p.0 < |grid[0]|
  }

  /**
   * `to` is a neighbour of `from` `stepDist` from `goal`, and among the
   * neighbours nearest to `goal` the first in reading order.
   */
  ghost predicate StepOf(grid: Grid, units: seq<Unit>, from: Pos, goal: Pos, to: Pos, stepDist: nat)
    requires |grid| > 0
  {
    NeighborOf(grid, from, to) && Reaches(Passable(grid, units, from), {}, goal, to, stepDist)
    && forall m, k: nat :: NeighborOf(grid, from, m) && Reaches(Reach(grid, units, from), {}, goal, m, k) ==>
         stepDist <= k && (stepDist == k ==> !Before(m, to))
  }

  /**
   * `goal` is a square of `targets` `goalDist` from `from`, and among the
   * squares of `targets` nearest to `from` the first in reading order.
   */
  ghost predicate Chosen(grid: Grid, units: seq<Unit>, from: Pos, targets: set<Pos>, goal: Pos, goalDist: nat)
    requires |grid| > 0
  {
    goal in targets && Reaches(Passable(grid, units, from), {}, from, goal, goalDist)
    && forall t, k: nat :: t in targets && Reaches(Reach(grid, units, from), {}, from, t, k) ==>
         goalDist <= k && (k == goalDist ==> !Before(t, goal))
  }

  /** The move of a unit at `from`: one step towards the chosen square of `targets`. */
  ghost predicate MoveTo(grid: Grid, units: seq<Unit>, from: Pos, targets: set<Pos>, to: Pos)
    requires |grid| > 0
  {
    exists goal, goalDist: nat, stepDist: nat :: Chosen(grid, units, from, targets, goal, goalDist) && StepOf(grid, units, from, goal, to, stepDist)
  }

  /** No square of `targets` can be walked to, or no neighbour of `from` from the chosen one. */
  ghost predicate Stuck(grid: Grid, units: seq<Unit>, from: Pos, targets: set<Pos>)
    requires |grid| > 0
  {
    (forall t, k: nat :: t in targets ==> !Reaches(Reach(grid, units, from), {}, from, t, k))
    || exists goal, goalDist: nat :: (Chosen(grid, units, from, targets, goal, goalDist)
         && forall m, k: nat :: NeighborOf(grid, from, m) ==> !Reaches(Reach(grid, units, from), {}, goal, m, k))
  }

  /** The move of a unit of `kind` at `from`: one step towards the chosen square in range of an enemy. */
  ghost predicate MoveToward(grid: Grid, units: seq<Unit>, from: Pos, kind: Kind, to: Pos)
    requires |grid| > 0
  {
    MoveTo(grid, units, from, TargetSet(grid, units, kind), to)
  }

  /** A unit of `kind` at `from` has no square in range to walk to, or no first step towards the chosen one. */
  ghost predicate Cornered(grid: Grid, units: seq<Unit>, from: Pos, kind: Kind)
    requires |grid| > 0
  {
    Stuck(grid, units, from, TargetSet(grid, units, kind))
  }

  /** Some live unit of the other kind stands next to unit i. */
  ghost predicate EnemyNear(units: seq<Unit>, i: int)
    requires 0 <= i < |units|
  {
    exists k :: LiveEnemyNear(units, units[i].kind, units[i].pos, k)
  }

  /**
   * The step unit i takes on its turn: none when an enemy already stands
   * next to it, otherwise the step towards the chosen square in range, or
   * none when it has none.
   */
  ghost predicate Moves(grid: Grid, units: seq<Unit>, i: int, to: Pos)
    requires 0 <= i < |units|
  {
    var u := units[i];
    if EnemyNear(units, i) then to == u.pos
    else |grid| > 0 && u.pos.0 >= 0 && u.pos.1 >= 0
         && (MoveToward(grid, units, u.pos, u.kind, to) || (to == u.pos && Cornered(grid, units, u.pos, u.kind)))
  }

  /** A turn of unit i on the map: a step this solver's movement allows, then the attack from there. */
  ghost predicate Turn(grid: Grid, units: seq<Unit>, i: int, after: seq<Unit>)
  {
    0 <= i < |units| && exists to :: Moves(grid, units, i, to) && after == Attack(units[i := units[i].(pos := to)], i)
  }

  /** This solver's rule of turns on the map. */
  ghost function Rule(grid: Grid): TurnRule
  {
    (units: seq<Unit>, i: int, after: seq<Unit>) => Turn(grid, units, i, after)
  }

  /**
   * The squares of `targets` the first search has popped are recorded in
   * `nearest`, all at the distance `nd` of the first one, and none when
   * `nd` is None.
   */
  ghost predicate NearFound(targets: set<Pos>, dist: map<Pos, int>, popped: set<Pos>, cur: int, nearest: seq<Pos>, nd: Option<nat>)
  {
    (forall p :: p in popped && p in targets ==> p in nearest)
    && (nearest == [] <==> nd.None?)
    && (nd.Some? ==> nd.value <= cur && forall t :: t in nearest ==> t in targets && t in dist && dist[t] == nd.value)
  }

  /** Popping `pos` keeps the record, adding `pos` to it when it is a square of `targets`. */
  lemma NearFoundStep(targets: set<Pos>, dist: map<Pos, int>, dist': map<Pos, int>, popped: set<Pos>, cur: int,
                      nearest: seq<Pos>, nd: Option<nat>, pos: Pos)
    requires NearFound(targets, dist, popped, cur, nearest, nd) && pos in dist && 0 <= cur <= dist[pos]
    requires forall c :: c in dist ==> c in dist' && dist'[c] == dist[c]
    requires pos in targets && nd.Some? ==> dist[pos] == nd.value
    ensures var found := pos in targets;
            NearFound(targets, dist', popped + {pos}, dist[pos], if found then nearest + [pos] else nearest,
                      if found then Some(dist[pos]) else nd)
  {
  }

  class State {
    var grid: Grid
    var units: seq<Unit>

    /** Every unit stands on a floor cell of the map, and no two live units share a cell. */
    ghost predicate Valid()
      reads this
    {
      Placement(grid, units)
    }

    /** from_input: the cleared map and the units read from it. */
    constructor FromInput(lines: Grid, elfAttack: int)
      ensures Valid()
      ensures grid == Clear(lines)
      ensures UnitsOf(lines, elfAttack, units)
    {
      var g, u := Parse(lines, elfAttack);
      ClearIs(lines, g);
      UnitsOfApart(lines, elfAttack, u);
      grid, units := g, u;
    }

    /** neighbors: the cells of NeighborOf, up, left, right, down, which is reading order. */
    method Neighbors(pos: Pos) returns (r: seq<Pos>)
      requires |grid| > 0
      ensures forall p :: p in r <==> NeighborOf(grid, pos, p)
      ensures forall j, l :: 0 <= j < l < |r| ==> Before(r[j], r[l])
    {
      r := [];
      if pos.1 > 0 {
        r := r + [(pos.0, pos.1 - 1)];
      }
      if pos.0 > 0 {
        r := r + [(pos.0 - 1, pos.1)];
      }
      if pos.0 + 1 < |grid[0]| {
        r := r + [(pos.0 + 1, pos.1)];
      }
      if pos.1 + 1 < |grid| {
        r := r + [(pos.0, pos.1 + 1)];
      }
    }

    /** find_targets: the open neighbours of the live enemies, in roster order, possibly repeated. */
    method FindTargets(kind: Kind) returns (targets: seq<Pos>)
      requires |grid| > 0
      ensures forall p :: p in targets <==> p in TargetSet(grid, units, kind)
    {
      targets := [];
      for k := 0 to |units|
        invariant forall p :: p in targets <==> p in InRange(grid, units, kind, k)
      {
        var u := units[k];
        if u.hp > 0 && u.kind == Enemy(kind) {
          var ns := Neighbors(u.pos);
          for j := 0 to |ns|
            invariant forall p :: p in targets <==> p in InRange(grid, units, kind, k) || (p in ns[..j] && Open(grid, units, p))
          {
            assert ns[..j + 1] == ns[..j] + [ns[j]];
            if Open(grid, units, ns[j]) {
              targets := targets + [ns[j]];
            }
          }
          assert ns[..|ns|] == ns;
        }
      }
    }

    /**
     * The neighbour loop of a search: every neighbour of pos not yet reached
     * and open, or the cell `also`, gets one more than the distance of pos
     * and joins the queue, in order, with pos recorded as its parent.
     */
    method Visit(pos: Pos, ns: seq<Pos>, also: Pos, queue: seq<Pos>, dist: map<Pos, int>, ghost parent: map<Pos, Pos>)
      returns (queue': seq<Pos>, dist': map<Pos, int>, ghost parent': map<Pos, Pos>, ghost added: seq<Pos>)
      requires pos in dist
      requires forall j, l :: 0 <= j < l < |ns| ==> Before(ns[j], ns[l])
      ensures forall c :: c in added <==> c in ns && c !in dist && (Open(grid, units, c) || c == also)
      ensures forall j, l :: 0 <= j < l < |added| ==> Before(added[j], added[l])
      ensures queue' == queue + added
      ensures forall c :: c in dist' <==> c in dist || c in added
      ensures forall c :: c in dist ==> dist'[c] == dist[c]
      ensures forall c :: c in added ==> dist'[c] == dist[pos] + 1
      ensures forall c :: c in parent && c !in added ==> c in parent' && parent'[c] == parent[c]
      ensures forall c :: c in added ==> c in parent' && parent'[c] == pos
    {
      added := [];
      queue', dist', parent' := queue, dist, parent;
      for j := 0 to |ns|
        invariant forall c :: c in added <==> c in ns[..j] && c !in dist && (Open(grid, units, c) || c == also)
        invariant forall j, l :: 0 <= j < l < |added| ==> Before(added[j], added[l])
        invariant queue' == queue + added
        invariant forall c :: c in dist' <==> c in dist || c in added
        invariant forall c :: c in dist ==> dist'[c] == dist[c]
        invariant forall c :: c in added ==> dist'[c] == dist[pos] + 1
        invariant forall c :: c in parent && c !in added ==> c in parent' && parent'[c] == parent[c]
        invariant forall c :: c in added ==> c in parent' && parent'[c] == pos
      {
        var n := ns[j];
        assert ns[..j + 1] == ns[..j] + [n];
        if n !in dist' && (Open(grid, units, n) || n == also) {
          assert forall c :: c in ns[..j] ==> Before(c, n);
          dist' := dist'[n := dist[pos] + 1];
          parent' := parent'[n := pos];
          queue' := queue' + [n];
          added := added + [n];
        }
      }
      assert ns[..|ns|] == ns;
    }

    /** Visit keeps a search tree over the passable cells, and reaches every passable neighbour. */
    method Expand(pos: Pos, also: Pos, queue: seq<Pos>, dist: map<Pos, int>, ghost parent: map<Pos, Pos>, ghost root: Pos)
      returns (queue': seq<Pos>, dist': map<Pos, int>, ghost parent': map<Pos, Pos>, ghost added: seq<Pos>)
      requires |grid| > 0 && pos.0 >= 0 && pos.1 >= 0 && pos in dist
      requires 0 <= also.0 && 0 <= also.1 < |grid|
      requires Tree(dist, parent, root, Passable(grid, units, also), {})
      ensures Tree(dist', parent', root, Passable(grid, units, also), {})
      ensures forall c :: c in added ==> c !in dist && c in Passable(grid, units, also)
      ensures queue' == queue + added
      ensures forall c :: c in dist' <==> c in dist || c in added
      ensures forall c :: c in dist ==> dist'[c] == dist[c]
      ensures forall c :: c in added ==> dist'[c] == dist[pos] + 1
      ensures forall n :: n in Reach(grid, units, also) && Adjacent(pos, n) ==> n in dist'
    {
      var ns := Neighbors(pos);
      queue', dist', parent', added := Visit(pos, ns, also, queue, dist, parent);
      forall n | n in added
        ensures n in Passable(grid, units, also) && Adjacent(pos, n)
      {
        NeighborOfAdjacent(grid, pos, n);
      }
      TreeExtend(dist, parent, root, Passable(grid, units, also), {}, pos, added, dist', parent');
      forall n | n in Reach(grid, units, also) && Adjacent(pos, n)
        ensures n in dist'
      {
        NeighborOfAdjacent(grid, pos, n);
      }
    }

    /** A search of find_move from `root` over the passable cells, which never stops at a cell. */
    ghost predicate Layered(also: Pos, root: Pos, queue: seq<Pos>, dist: map<Pos, int>,
                            parent: map<Pos, Pos>, popped: set<Pos>, cur: int)
      reads this
    {
      |grid| > 0 && Search(Passable(grid, units, also), Reach(grid, units, also), root, {}, queue, dist, parent, popped, cur)
    }

    /** Popping a cell and expanding it keeps the search state, and reaches more or shortens the queue. */
    method Advance(also: Pos, root: Pos, pos: Pos, queue: seq<Pos>, dist: map<Pos, int>,
                   ghost parent: map<Pos, Pos>, ghost popped: set<Pos>, ghost cur: int)
      returns (queue': seq<Pos>, dist': map<Pos, int>, ghost parent': map<Pos, Pos>)
      requires Layered(also, root, [pos] + queue, dist, parent, popped, cur) && pos in dist
      requires 0 <= also.0 && 0 <= also.1 < |grid| && root.0 >= 0 && root.1 >= 0
      ensures Layered(also, root, queue', dist', parent', popped + {pos}, dist[pos])
      ensures forall c :: c in dist ==> c in dist' && dist'[c] == dist[c]
      ensures Passable(grid, units, also) + {root} - dist'.Keys < Passable(grid, units, also) + {root} - dist.Keys
              || (dist'.Keys == dist.Keys && |queue'| <= |queue|)
    {
      assert ([pos] + queue)[0] == pos;
      assert pos == root || pos in Passable(grid, units, also);
      ghost var added;
      queue', dist', parent', added := Expand(pos, also, queue, dist, parent, root);
      QueuedStep(pos, queue, dist, cur, added, dist');
      CoveredStep(pos, queue, dist, popped, cur, added, dist');
      ExpandedStep(Reach(grid, units, also), {}, pos, dist, popped, cur, dist');
      if added == [] {
        assert dist'.Keys == dist.Keys;
      } else {
        assert added[0] in Passable(grid, units, also) + {root} - dist.Keys;
      }
    }

    /** The state of the first search of find_move, with the squares of `targets` found so far. */
    ghost predicate Nearing(from: Pos, targets: set<Pos>, queue: seq<Pos>, dist: map<Pos, int>, parent: map<Pos, Pos>,
                            popped: set<Pos>, cur: int, nearest: seq<Pos>, nd: Option<nat>)
      reads this
    {
      Layered(from, from, queue, dist, parent, popped, cur) && NearFound(targets, dist, popped, cur, nearest, nd)
    }

    /**
     * One turn of the first search's loop, unless the head of the queue is a
     * square of `targets` further than those found: a square of `targets` is
     * recorded, and every cell popped is expanded.
     */
    method NearStep(from: Pos, targets: seq<Pos>, ghost tset: set<Pos>, queue: seq<Pos>, dist: map<Pos, int>,
                    ghost parent: map<Pos, Pos>, ghost popped: set<Pos>, ghost cur: int, nearest: seq<Pos>, ghost nd: Option<nat>)
      returns (queue': seq<Pos>, dist': map<Pos, int>, ghost parent': map<Pos, Pos>,
               ghost popped': set<Pos>, ghost cur': int, nearest': seq<Pos>, ghost nd': Option<nat>)
      requires 0 <= from.0 && 0 <= from.1 < |grid|
      requires tset == set t | t in targets
      requires Nearing(from, tset, queue, dist, parent, popped, cur, nearest, nd)
      requires queue != [] && (queue[0] in tset && nd.Some? ==> dist[queue[0]] == nd.value)
      ensures Nearing(from, tset, queue', dist', parent', popped', cur', nearest', nd')
      ensures Passable(grid, units, from) + {from} - dist'.Keys < Passable(grid, units, from) + {from} - dist.Keys
              || (dist'.Keys == dist.Keys && |queue'| < |queue|)
    {
      var pos := queue[0];
      var d := dist[pos];
      assert queue == [pos] + queue[1..];
      nearest', nd' := nearest, nd;
      if pos in targets {
        nearest', nd' := nearest + [pos], Some(d);
      }
      queue', dist', parent' := Advance(from, from, pos, queue[1..], dist, parent, popped, cur);
      popped', cur' := popped + {pos}, d;
      NearFoundStep(tset, dist, dist', popped, cur, nearest, nd, pos);
    }

    /**
     * The first search of find_move: from `from`, breadth first through
     * every passable cell, until a square of `targets` further than the
     * first one found is popped. The result is every square of `targets` at
     * the least distance.
     */
    method NearestTargets(from: Pos, targets: seq<Pos>) returns (nearest: seq<Pos>, ghost nearestDist: nat)
      requires |grid| > 0 && 0 <= from.0 && 0 <= from.1 < |grid|
      ensures forall t :: t in nearest ==> t in targets && Reaches(Passable(grid, units, from), {}, from, t, nearestDist)
      ensures forall t, k: nat :: t in targets && Reaches(Reach(grid, units, from), {}, from, t, k) ==>
                nearest != [] && nearestDist <= k && (k == nearestDist ==> t in nearest)
    {
      ghost var tset := set t | t in targets;
      var queue := [from];
      var dist := map[from := 0];
      ghost var parent: map<Pos, Pos> := map[];
      ghost var popped: set<Pos> := {};
      ghost var cur := 0;
      nearest := [];
      ghost var nd: Option<nat> := None;
      SearchStart(Passable(grid, units, from), Reach(grid, units, from), from, {});
      while queue != []
        invariant Nearing(from, tset, queue, dist, parent, popped, cur, nearest, nd)
        decreases Passable(grid, units, from) + {from} - dist.Keys, |queue|
      {
        var pos := queue[0];
        if pos in targets && nearest != [] && dist[pos] != dist[nearest[0]] {
          assert nearest[0] in nearest;
          break;
        }
        queue, dist, parent, popped, cur, nearest, nd := NearStep(from, targets, tset, queue, dist, parent, popped, cur, nearest, nd);
      }
      NearestFound(Passable(grid, units, from), Reach(grid, units, from), from, {}, tset, queue, dist, parent, popped, cur, nearest, nd);
      nearestDist := if nd.Some? then nd.value else 0;
    }

    /**
     * The second search of find_move: from the chosen square `goal` back
     * through every passable cell, to the end. Every distance is the length
     * of a walk from `goal`, and no walk is shorter.
     */
    method Backward(goal: Pos, from: Pos) returns (dist: map<Pos, int>)
      requires |grid| > 0 && 0 <= from.0 && 0 <= from.1 < |grid| && goal.0 >= 0 && goal.1 >= 0
      ensures forall c :: c in dist ==> (c == goal || c in Passable(grid, units, from)) && dist[c] >= 0
      ensures forall c :: c in dist ==> Reaches(Passable(grid, units, from), {}, goal, c, dist[c])
      ensures forall c, k: nat :: Reaches(Reach(grid, units, from), {}, goal, c, k) ==> c in dist && dist[c] <= k
    {
      var queue := [goal];
      dist := map[goal := 0];
      ghost var parent: map<Pos, Pos> := map[];
      ghost var popped: set<Pos> := {};
      ghost var cur := 0;
      SearchStart(Passable(grid, units, from), Reach(grid, units, from), goal, {});
      while queue != []
        invariant Layered(from, goal, queue, dist, parent, popped, cur)
        decreases Passable(grid, units, from) + {goal} - dist.Keys, |queue|
      {
        var pos := queue[0];
        var d := dist[pos];
        assert queue == [pos] + queue[1..];
        queue, dist, parent := Advance(from, goal, pos, queue[1..], dist, parent, popped, cur);
        popped, cur := popped + {pos}, d;
      }
      forall c | c in dist
        ensures dist[c] >= 0 && Reaches(Passable(grid, units, from), {}, goal, c, dist[c])
      {
        TreeReaches(dist, parent, goal, Passable(grid, units, from), {}, c);
      }
      forall c, k: nat | Reaches(Reach(grid, units, from), {}, goal, c, k)
        ensures c in dist && dist[c] <= k
      {
        Exhausted(Passable(grid, units, from), Reach(grid, units, from), goal, {}, dist, parent, popped, cur, c, k);
      }
    }

    /**
     * The end of find_move: every neighbour of `from` the search back from
     * `goal` reached is a candidate, and the step is the one with the least
     * (distance, y, x).
     */
    method StepFrom(from: Pos, goal: Pos) returns (step: Option<Pos>, ghost stepDist: nat)
      requires |grid| > 0 && 0 <= from.0 && 0 <= from.1 < |grid| && goal.0 >= 0 && goal.1 >= 0
      ensures step.Some? ==> StepOf(grid, units, from, goal, step.value, stepDist) && (Open(grid, units, step.value) || step.value == goal)
      ensures step.None? ==> forall m, k: nat :: NeighborOf(grid, from, m) ==> !Reaches(Reach(grid, units, from), {}, goal, m, k)
    {
      var dist := Backward(goal, from);
      var ns := Neighbors(from);
      var cands: seq<(int, Pos)> := [];
      for j := 0 to |ns|
        invariant forall c :: c in cands <==> c.1 in ns[..j] && c.1 in dist && c.0 == dist[c.1]
      {
        assert ns[..j + 1] == ns[..j] + [ns[j]];
        if ns[j] in dist {
          cands := cands + [(dist[ns[j]], ns[j])];
        }
      }
      assert ns[..|ns|] == ns;
      forall m, k: nat | NeighborOf(grid, from, m) && Reaches(Reach(grid, units, from), {}, goal, m, k)
        ensures (dist[m], m) in cands && dist[m] <= k
      {
      }
      if cands == [] {
        return None, 0;
      }
      var c := Least(cands);
      step, stepDist := Some(c.1), c.0;
      NeighborOfAdjacent(grid, from, c.1);
    }

    /** find_move: the step a unit at `from` takes towards the squares of `targets`, or none. */
    method FindMove(from: Pos, targets: seq<Pos>) returns (r: Option<Pos>)
      requires |grid| > 0 && 0 <= from.0 && 0 <= from.1 < |grid|
      requires forall j :: 0 <= j < |targets| ==> targets[j].0 >= 0 && targets[j].1 >= 0
      ensures r.Some? ==> MoveTo(grid, units, from, (set t | t in targets), r.value) && (Open(grid, units, r.value) || r.value in targets)
      ensures r.Some? ==> Adjacent(from, r.value)
      ensures r.None? ==> Stuck(grid, units, from, (set t | t in targets))
    {
      if targets == [] {
        return None;
      }
      var nearest, nearestDist := NearestTargets(from, targets);
      if nearest == [] {
        return None;
      }
      var goal := First(nearest);
      assert Chosen(grid, units, from, (set t | t in targets), goal, nearestDist);
      var step, stepDist := StepFrom(from, goal);
      if step.Some? {
        NeighborOfAdjacent(grid, from, step.value);
      }
      r := step;
    }

    /** The move of simulate_round for a unit of `kind` at `from`: find_targets, then find_move. */
    method NextStep(from: Pos, kind: Kind) returns (r: Option<Pos>)
      requires |grid| > 0 && 0 <= from.0 && 0 <= from.1 < |grid|
      ensures r.Some? ==> MoveToward(grid, units, from, kind, r.value) && Open(grid, units, r.value) && Adjacent(from, r.value)
      ensures r.None? ==> Cornered(grid, units, from, kind)
    {
      var targets := FindTargets(kind);
      TargetSetIff(grid, units, kind);
      assert (set t | t in targets) == TargetSet(grid, units, kind);
      forall j | 0 <= j < |targets|
        ensures targets[j].0 >= 0 && targets[j].1 >= 0 && Open(grid, units, targets[j])
      {
        assert targets[j] in targets;
      }
      r := FindMove(from, targets);
    }

    /**
     * The move of live unit i: unless an enemy is already next to it, the
     * step find_move gives towards the squares find_targets lists, if any.
     */
    method Move(i: int) returns (to: Pos)
      requires Valid() && 0 <= i < |units| && units[i].hp > 0
      modifies this
      ensures grid == old(grid) && Valid()
      ensures units == old(units)[i := old(units)[i].(pos := to)]
      ensures old(EnemyNear(units, i)) ==> to == old(units[i].pos)
      ensures !old(EnemyNear(units, i)) ==>
                old(MoveToward(grid, units, units[i].pos, units[i].kind, to))
                || (to == old(units[i].pos) && old(Cornered(grid, units, units[i].pos, units[i].kind)))
    {
      var u := units[i];
      var near := EnemiesNear(units, u.kind, u.pos, |units|);
      to := u.pos;
      if |near| == 0 {
        var r := NextStep(u.pos, u.kind);
        if r.Some? {
          to := r.value;
          PlacementMove(grid, units, i, to);
          units := units[i := u.(pos := to)];
          return;
        }
      } else {
        assert near[0] in near;
      }
      assert units == units[i := u.(pos := to)];
    }

    /** The turn of live unit i: its move, then its attack from where it stands. */
    method TakeTurn(i: int) returns (to: Pos)
      requires Valid() && 0 <= i < |units| && units[i].hp > 0
      modifies this
      ensures grid == old(grid) && Valid()
      ensures units == Attack(old(units)[i := old(units)[i].(pos := to)], i)
      ensures old(Moves(grid, units, i, to))
    {
      to := Move(i);
      PlacementAttack(grid, units, i);
      units := Attack(units, i);
    }
 
    /**
     * simulate_round: every unit, in the reading order of where the units
     * stood when the round began, takes its turn unless it is dead; the round
     * ends early, reporting false, when a live unit finds no live enemy,
     * and otherwise purges the dead and reports true. `mid` is the roster
     * before the purge.
     */
    method SimulateRound() returns (going: bool, ghost mid: seq<Unit>)
      requires Valid()
      modifies this
      ensures grid == old(grid) && Valid()
      ensures Roster(old(units), mid) && Round(Rule(grid), old(units), mid, going)
      ensures going ==> units == Live(mid)
      ensures !going ==> units == mid && exists k :: Stopped(mid, k)
    {
      var order := TurnOrder(units);
      SlotsBegin(Rule(grid), grid, units);
      var j; ghost var trail;
      going, j, trail := PlaySlots(Rule(grid), order);
      mid := units;
      RoundOf(Rule(grid), old(units), trail, mid, going);
      if going {
        Settle();
      } else {
        assert Stopped(mid, order[j]);
      }
    }

    /** The turns of a round, slot by slot in `order`, until one stops it. */
    method PlaySlots(ghost rule: TurnRule, order: seq<int>) returns (going: bool, j: int, ghost trail: seq<seq<Unit>>)
      requires rule == Rule(grid) && Slots(rule, order, [units], units, grid, units)
      modifies this
      ensures grid == old(grid) && Slots(rule, order, trail, old(units), grid, units) && j == |trail| - 1
      ensures going ==> j == |order|
      ensures !going ==> j < |order| && Stopped(units, order[j])
    {
      ghost var start := units;
      trail := [units];
      j := 0;
      while j < |order|
        invariant grid == old(grid) && Slots(rule, order, trail, start, grid, units) && j == |trail| - 1
      {
        var stop;
        stop, trail := PlaySlot(rule, order, j, trail, start);
        if stop {
          return false, j, trail;
        }
        j := j + 1;
      }
      going := true;
    }

    /**
     * The turn in the next slot of a round begun from `start`: the unit skips it
     * when dead, stops the round when it finds no enemy, and otherwise
     * takes it.
     */
    method PlaySlot(ghost rule: TurnRule, order: seq<int>, j: int, ghost trail: seq<seq<Unit>>, ghost start: seq<Unit>)
      returns (stop: bool, ghost trail': seq<seq<Unit>>)
      requires rule == Rule(grid) && Slots(rule, order, trail, start, grid, units) && j == |trail| - 1 < |order|
      modifies this
      ensures grid == old(grid) && Slots(rule, order, trail', start, grid, units)
      ensures stop ==> trail' == trail && Stopped(units, order[j])
      ensures !stop ==> trail' == trail + [units]
    {
      var i := order[j];
      ghost var before := units;
      if units[i].hp > 0 {
        if !HasEnemies(units, units[i].kind) {
          return true, trail;
        }
        var to := TakeTurn(i);
        RosterTurn(start, before, i, to);
        assert Turn(grid, before, i, units);
      }
      assert Slot(rule, before, i, units);
      TracedStep(rule, order, start, trail, units);
      trail' := trail + [units];
      stop := false;
    }

    /** retain(|u| u.hp > 0): drops the dead from the roster. */
    method Settle()
      requires Valid()
      modifies this
      ensures grid == old(grid) && Valid()
      ensures units == Live(old(units))
    {
      PlacementLive(grid, units);
      units := Live(units);
    }

    /** outcome: the sum of the hit points left in the roster. */
    function Outcome(): int
      reads this
    {
      HpSum(units)
    }
  }

  /**
   * part1: the battle with elves of attack power 3, until a round ends
   * early; the answer is the number of full rounds times the outcome of the
   * roster that round leaves, the dead of that round included. `history`
   * lists the rosters the full rounds began from and left. None when the
   * battle is not over within maxRounds rounds (the source loops until it is).
   */
  method Part1(lines: Grid, maxRounds: nat)
    returns (r: Option<int>, rounds: nat, final: seq<Unit>, ghost start: seq<Unit>, ghost history: seq<seq<Unit>>)
    ensures UnitsOf(lines, 3, start) && Fought(Rule(Clear(lines)), start, history, 0)
    ensures r.Some? ==> rounds < maxRounds && |history| == rounds + 1
                        && Round(Rule(Clear(lines)), history[rounds], final, false) && r.value == rounds * HpSum(final)
    ensures r.None? ==> |history| == maxRounds + 1
  {
    var state := new State.FromInput(lines, 3);
    ghost var rule := Rule(Clear(lines));
    start, history := state.units, [state.units];
    rounds := 0;
    final := state.units;
    while rounds < maxRounds
      invariant state.Valid() && state.grid == Clear(lines) && rounds <= maxRounds
      invariant |history| == rounds + 1 && history[rounds] == state.units && Fought(rule, start, history, 0)
    {
      var going, mid := state.SimulateRound();
      if !going {
        final := state.units;
        return Some(rounds * state.Outcome()), rounds, final, start, history;
      }
      FoughtStep(rule, start, history, mid, 0);
      rounds := rounds + 1;
      history := history + [state.units];
    }
    return None, rounds, final, start, history;
  }

  /**
   * One battle of part2 from the state's roster, `start`: full rounds while
   * no elf is lost, until a round ends early or a full round leaves fewer
   * elves than at the start.
   * Not over when maxRounds full rounds are fought first.
   */
  method ElfFight(state: State, ghost rule: TurnRule, maxRounds: nat)
    returns (over: bool, rounds: nat, ghost history: seq<seq<Unit>>, ghost final: seq<Unit>)
    requires state.Valid() && rule == Rule(state.grid)
    modifies state
    ensures state.grid == old(state.grid) && state.Valid()
    ensures over ==> |history| == rounds + 1 && ElfBattle(rule, old(state.units), history, final)
                     && state.units == final
  {
    ghost var start := state.units;
    var initial := KindCount(state.units, Elf);
    history, final := [state.units], state.units;
    rounds := 0;
    over := false;
    while !over
      invariant state.Valid() && state.grid == old(state.grid) && rounds <= maxRounds && |history| == rounds + 1
      invariant initial == KindCount(start, Elf)
      invariant if over then Ended(rule, start, history, final, state.units, false)
                else Fighting(rule, start, history, state.units, initial)
      decreases maxRounds - rounds, !over
    {
      if rounds == maxRounds {
        return;
      }
      over, rounds, history, final := ElfRound(state, rule, start, rounds, history, initial);
    }
  }

  /** One round of a battle of part2, and whether it ends the battle. */
  method ElfRound(state: State, ghost rule: TurnRule, ghost start: seq<Unit>, rounds: nat, ghost history: seq<seq<Unit>>,
                  initial: nat)
    returns (over: bool, rounds': nat, ghost history': seq<seq<Unit>>, ghost final: seq<Unit>)
    requires state.Valid() && rule == Rule(state.grid) && |history| == rounds + 1
    requires initial == KindCount(start, Elf) && Fighting(rule, start, history, state.units, initial)
    modifies state
    ensures state.grid == old(state.grid) && state.Valid() && |history'| == rounds' + 1
    ensures over ==> rounds <= rounds' <= rounds + 1 && Ended(rule, start, history', final, state.units, false)
    ensures !over ==> rounds' == rounds + 1 && Fighting(rule, start, history', state.units, initial)
  {
    var going, mid := state.SimulateRound();
    if !going {
      return true, rounds, history, mid;
    }
    FoughtStep(rule, start, history, mid, initial);
    rounds', history' := rounds + 1, history + [state.units];
    over := KindCount(state.units, Elf) < initial;
    final := state.units;
  }

  /**
   * The battle of part2 at one elf attack power, on a fresh state read from
   * the input: `units` is the roster it ends with and `start` the one it
   * began with.
   */
  method ElfPower(lines: Grid, attack: int, maxRounds: nat)
    returns (over: bool, start: seq<Unit>, rounds: nat, units: seq<Unit>, ghost history: seq<seq<Unit>>, ghost final: seq<Unit>)
    ensures UnitsOf(lines, attack, start)
    ensures over ==> |history| == rounds + 1 && ElfBattle(Rule(Clear(lines)), start, history, final)
                     && units == final
  {
    var state := new State.FromInput(lines, attack);
    start := state.units;
    over, rounds, history, final := ElfFight(state, Rule(state.grid), maxRounds);
    units := state.units;
  }

  /**
   * part2: for elf attack power 4 to 200, the battle that stops as soon as
   * a full round leaves fewer elves in the roster than at the start; the
   * first power whose final roster counts as many elves as at the start
   * gives the answer, and 0 when none does. None when a battle is not over
   * within maxRounds rounds.
   */
  method Part2(lines: Grid, maxRounds: nat)
    returns (r: Option<int>, attack: int, start: seq<Unit>, rounds: nat, final: seq<Unit>, ghost history: seq<seq<Unit>>)
    ensures r.Some? ==> 4 <= attack <= 201 && forall a :: 4 <= a < attack ==> ElvesLost(Rule(Clear(lines)), lines, a, false)
    ensures r.Some? && attack <= 200 ==>
              UnitsOf(lines, attack, start) && |history| == rounds + 1 && ElfBattle(Rule(Clear(lines)), start, history, final)
              && KindCount(final, Elf) == KindCount(start, Elf) && r.value == rounds * HpSum(final)
    ensures r.Some? && attack > 200 ==> r.value == 0
  {
    attack := 4;
    start, rounds, final, history := [], 0, [], [];
    while attack <= 200
      invariant 4 <= attack <= 201
      invariant forall a :: 4 <= a < attack ==> ElvesLost(Rule(Clear(lines)), lines, a, false)
    {
      var over; ghost var last;
      over, start, rounds, final, history, last := ElfPower(lines, attack, maxRounds);
      if !over {
        return None, attack, start, rounds, final, history;
      }
      if KindCount(final, Elf) == KindCount(start, Elf) {
        return Some(rounds * HpSum(final)), attack, start, rounds, final, history;
      }
      attack := attack + 1;
    }
    return Some(0), attack, start, rounds, final, history;
  }
}
