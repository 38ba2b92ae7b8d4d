// Day 15: Beverage Bandits. What the three combat solvers share: the units,
// reading order, reading the map, the attack step, and the sums taken at the
// end of a fight.

module Day15Units {
  import opened Wrappers

  datatype Kind = Elf | Goblin

  /** A map cell as (x, y). */
  type Pos = (int, int)

  datatype Unit = Unit(pos: Pos, kind: Kind, hp: int, attack: int)

  type Grid = seq<seq<char>>

  function Enemy(k: Kind): (e: Kind)
    ensures e != k
  {
    match k
    case Elf => Goblin
    case Goblin => Elf
  }

  /** Reading order: top to bottom, then left to right. */
  predicate Before(a: Pos, b: Pos)
  {
    a.1 < b.1 || (a.1 == b.1 && a.0 < b.0)
  }

  /** The orthogonal neighbours of a cell. */
  predicate Adjacent(a: Pos, b: Pos)
  {
    (a.0 == b.0 && (a.1 + 1 == b.1 || b.1 + 1 == a.1))
    || (a.1 == b.1 && (a.0 + 1 == b.0 || b.0 + 1 == a.0))
  }

  function AbsDiff(a: int, b: int): int
  {
    if a < b then b - a else a - b
  }

  /** The two ways the solvers write adjacency agree, and both mean Manhattan distance one. */
  lemma AdjacentIff(a: Pos, b: Pos)
    ensures Adjacent(a, b) <==> (a.0 == b.0 && AbsDiff(a.1, b.1) == 1) || (a.1 == b.1 && AbsDiff(a.0, b.0) == 1)
    ensures Adjacent(a, b) <==> AbsDiff(a.0, b.0) + AbsDiff(a.1, b.1) == 1
    ensures Adjacent(a, b) <==> Adjacent(b, a)
  {
  }

  /** The cell is on the map. */
  predicate OnMap(grid: Grid, p: Pos)
  {
    0 <= p.1 < |grid| && 0 <= p.0 < |grid[p.1]|
  }

  // ---------------------------------------------------------------------
  // Reading the map

  function KindOf(c: char): (k: Option<Kind>)
    ensures k == Some(Elf) <==> c == 'E'
    ensures k == Some(Goblin) <==> c == 'G'
  {
    if c == 'E' then Some(Elf) else if c == 'G' then Some(Goblin) else None
  }

  /** A unit's letter becomes floor; every other cell stays as it is. */
  function Cleared(c: char): (d: char)
    ensures KindOf(c).Some? ==> d == '.'
    ensures KindOf(c).None? ==> d == c
  {
    if KindOf(c).Some? then '.' else c
  }

  /** A fresh unit: 200 hit points, the elves' attack for elves and 3 for goblins. */
  function Fresh(k: Kind, p: Pos, elfAttack: int): (u: Unit)
    ensures u.pos == p && u.kind == k && u.hp == 200
    ensures u.attack == if k == Elf then elfAttack else 3
  {
    Unit(p, k, 200, if k == Elf then elfAttack else 3)
  }

  /** Some unit stands at (x, y). */
  ghost predicate Listed(units: seq<Unit>, x: int, y: int)
  {
    exists k :: 0 <= k < |units| && units[k].pos == (x, y)
  }

  lemma ListedAppend(units: seq<Unit>, u: Unit)
    ensures forall x, y :: Listed(units, x, y) ==> Listed(units + [u], x, y)
    ensures Listed(units + [u], u.pos.0, u.pos.1)
  {
    forall x, y | Listed(units, x, y)
      ensures Listed(units + [u], x, y)
    {
      var k :| 0 <= k < |units| && units[k].pos == (x, y);
      assert (units + [u])[k] == units[k];
    }
    assert (units + [u])[|units|] == u;
  }

  /**
   * The units read from the map: one per 'E' or 'G' cell, fresh, in reading
   * order.
   */
  ghost predicate UnitsOf(lines: Grid, elfAttack: int, units: seq<Unit>)
  {
    (forall k :: 0 <= k < |units| ==>
      var u := units[k];
      OnMap(lines, u.pos) && KindOf(lines[u.pos.1][u.pos.0]) == Some(u.kind) && u == Fresh(u.kind, u.pos, elfAttack))
    && (forall k, l :: 0 <= k < l < |units| ==> Before(units[k].pos, units[l].pos))
    && (forall y, x :: 0 <= y < |lines| && 0 <= x < |lines[y]| && KindOf(lines[y][x]).Some? ==> Listed(units, x, y))
  }

  /**
   * from_input: every 'E' or 'G' becomes a fresh unit at its cell and the cell
   * becomes '.'; every other cell is kept.
   */
  method Parse(lines: Grid, elfAttack: int) returns (grid: Grid, units: seq<Unit>)
    ensures |grid| == |lines|
    ensures forall y :: 0 <= y < |grid| ==> |grid[y]| == |lines[y]|
    ensures forall y, x :: 0 <= y < |grid| && 0 <= x < |grid[y]| ==> grid[y][x] == Cleared(lines[y][x])
    ensures UnitsOf(lines, elfAttack, units)
  {
    grid := lines;
    units := [];
    for y := 0 to |lines|
      invariant |grid| == |lines|
      invariant forall j :: 0 <= j < |grid| ==> |grid[j]| == |lines[j]|
      invariant forall j, x :: 0 <= j < y && 0 <= x < |grid[j]| ==> grid[j][x] == Cleared(lines[j][x])
      invariant forall j :: y <= j < |grid| ==> grid[j] == lines[j]
      invariant forall k :: 0 <= k < |units| ==>
        var u := units[k];
        u.pos.1 < y && OnMap(lines, u.pos) && KindOf(lines[u.pos.1][u.pos.0]) == Some(u.kind)
        && u == Fresh(u.kind, u.pos, elfAttack)
      invariant forall k, l :: 0 <= k < l < |units| ==> Before(units[k].pos, units[l].pos)
      invariant forall j, x :: 0 <= j < y && 0 <= x < |lines[j]| && KindOf(lines[j][x]).Some? ==> Listed(units, x, j)
    {
      var row := grid[y];
      for x := 0 to |row|
        invariant |row| == |lines[y]|
        invariant forall i :: 0 <= i < x ==> row[i] == Cleared(lines[y][i])
        invariant forall i :: x <= i < |row| ==> row[i] == lines[y][i]
        invariant forall k :: 0 <= k < |units| ==>
          var u := units[k];
          Before(u.pos, (x, y)) && OnMap(lines, u.pos) && KindOf(lines[u.pos.1][u.pos.0]) == Some(u.kind)
          && u == Fresh(u.kind, u.pos, elfAttack)
        invariant forall k, l :: 0 <= k < l < |units| ==> Before(units[k].pos, units[l].pos)
        invariant forall j, i :: 0 <= j < y && 0 <= i < |lines[j]| && KindOf(lines[j][i]).Some? ==> Listed(units, i, j)
        invariant forall i :: 0 <= i < x && KindOf(lines[y][i]).Some? ==> Listed(units, i, y)
      {
        var kind := KindOf(row[x]);
        if kind.Some? {
          var u := Fresh(kind.value, (x, y), elfAttack);
          ListedAppend(units, u);
          units := units + [u];
          row := row[x := '.'];
        }
      }
      grid := grid[y := row];
    }
  }

  /** The map from_input keeps: every unit's letter turned to floor. */
  function Clear(lines: Grid): (grid: Grid)
    ensures |grid| == |lines| && forall y :: 0 <= y < |grid| ==> |grid[y]| == |lines[y]|
    ensures forall y, x :: 0 <= y < |grid| && 0 <= x < |grid[y]| ==> grid[y][x] == Cleared(lines[y][x])
  {
    seq(|lines|, y requires 0 <= y < |lines| => seq(|lines[y]|, x requires 0 <= x < |lines[y]| => Cleared(lines[y][x])))
  }

  /** A map cleared cell by cell is the cleared map. */
  lemma ClearIs(lines: Grid, grid: Grid)
    requires |grid| == |lines| && forall y :: 0 <= y < |grid| ==> |grid[y]| == |lines[y]|
    requires forall y, x :: 0 <= y < |grid| && 0 <= x < |grid[y]| ==> grid[y][x] == Cleared(lines[y][x])
    ensures grid == Clear(lines)
  {
    var c := Clear(lines);
    forall y | 0 <= y < |grid|
      ensures grid[y] == c[y]
    {
    }
  }

  /** Units read from a map stand on distinct cells. */
  lemma UnitsOfApart(lines: Grid, elfAttack: int, units: seq<Unit>)
    requires UnitsOf(lines, elfAttack, units)
    ensures forall k, l :: 0 <= k < l < |units| ==> units[k].pos != units[l].pos
  {
  }

  // ---------------------------------------------------------------------
  // Sums over the roster

  /** outcome / total_hp: the hit points of every unit in the roster, dead or alive. */
  function HpSum(units: seq<Unit>): int
  {
    if units == [] then 0 else HpSum(units[..|units| - 1]) + units[|units| - 1].hp
  }

  /** The units of a kind, whatever their hit points. */
  function KindCount(units: seq<Unit>, k: Kind): (n: nat)
    ensures n <= |units|
  {
    if units == [] then 0
    else KindCount(units[..|units| - 1], k) + (if units[|units| - 1].kind == k then 1 else 0)
  }

  /** The units of a kind that are alive. */
  function LiveCount(units: seq<Unit>, k: Kind): (n: nat)
    ensures n <= KindCount(units, k)
  {
    if units == [] then 0
    else LiveCount(units[..|units| - 1], k) + (if units[|units| - 1].kind == k && units[|units| - 1].hp > 0 then 1 else 0)
  }

  /** When every unit is alive the two counts agree. */
  lemma {:induction false} AllLiveCount(units: seq<Unit>, k: Kind)
    requires forall j :: 0 <= j < |units| ==> units[j].hp > 0
    ensures LiveCount(units, k) == KindCount(units, k)
  {
    if units != [] {
      AllLiveCount(units[..|units| - 1], k);
    }
  }

  /** A roster of live units has a positive sum of hit points, one at least per unit. */
  lemma {:induction false} HpSumLive(units: seq<Unit>)
    requires forall j :: 0 <= j < |units| ==> units[j].hp > 0
    ensures HpSum(units) >= |units|
  {
    if units != [] {
      HpSumLive(units[..|units| - 1]);
    }
  }

  /** retain(|u| u.hp > 0): the live units, in their order. */
  function Live(units: seq<Unit>): (r: seq<Unit>)
    ensures |r| <= |units|
    ensures forall j :: 0 <= j < |r| ==> r[j].hp > 0
  {
    if units == [] then []
    else Live(units[..|units| - 1]) + (if units[|units| - 1].hp > 0 then [units[|units| - 1]] else [])
  }

  /** Purging a roster of live units leaves it as it is. */
  lemma {:induction false} LiveAll(units: seq<Unit>)
    requires forall j :: 0 <= j < |units| ==> units[j].hp > 0
    ensures Live(units) == units
  {
    if units != [] {
      LiveAll(units[..|units| - 1]);
      assert units == units[..|units| - 1] + [units[|units| - 1]];
    }
  }

  /** Purging keeps only units of the roster, and live units that stood apart still do. */
  lemma {:induction false} LiveApart(units: seq<Unit>)
    requires forall k, l :: 0 <= k < |units| && 0 <= l < |units| && k != l && units[k].hp > 0 && units[l].hp > 0 ==>
               units[k].pos != units[l].pos
    ensures forall u :: u in Live(units) ==> u in units
    ensures forall k, l :: 0 <= k < |Live(units)| && 0 <= l < |Live(units)| && k != l ==> Live(units)[k].pos != Live(units)[l].pos
  {
    if units != [] {
      var front := units[..|units| - 1];
      var last := units[|units| - 1];
      var rest := Live(front);
      LiveApart(front);
      if last.hp > 0 {
        assert Live(units) == rest + [last];
        forall k | 0 <= k < |rest|
          ensures rest[k].pos != last.pos
        {
          assert rest[k] in rest;
          var j :| 0 <= j < |front| && front[j] == rest[k];
          assert units[j] == rest[k];
        }
      }
    }
  }

  /** Purging keeps every live unit of each kind. */
  lemma {:induction false} LiveKeepsCount(units: seq<Unit>, k: Kind)
    ensures KindCount(Live(units), k) == LiveCount(units, k)
  {
    if units != [] {
      var front := units[..|units| - 1];
      var last := units[|units| - 1];
      var rest := Live(front);
      LiveKeepsCount(front, k);
      if last.hp > 0 {
        assert Live(units) == rest + [last];
        assert (rest + [last])[..|rest|] == rest;
      } else {
        assert Live(units) == rest;
      }
    }
  }

  // ---------------------------------------------------------------------
  // The attack

  /** Units k and i are of different kinds, k is alive and stands next to p. */
  predicate LiveEnemyNear(units: seq<Unit>, kind: Kind, p: Pos, k: int)
  {
    0 <= k < |units| && units[k].hp > 0 && units[k].kind != kind && Adjacent(units[k].pos, p)
  }

  /** The indices of the live enemies of `kind` next to p, among the first n units, in roster order. */
  function EnemiesNear(units: seq<Unit>, kind: Kind, p: Pos, n: nat): (r: seq<int>)
    requires n <= |units|
    ensures forall j :: 0 <= j < |r| ==> 0 <= r[j] < n
    ensures forall k :: k in r <==> 0 <= k < n && LiveEnemyNear(units, kind, p, k)
    ensures forall a, b :: 0 <= a < b < |r| ==> r[a] < r[b]
  {
    if n == 0 then []
    else EnemiesNear(units, kind, p, n - 1) + (if LiveEnemyNear(units, kind, p, n - 1) then [n - 1] else [])
  }

  /** The targeting key (hp, y, x) of u is below that of v. */
  predicate KeyLess(u: Unit, v: Unit)
  {
    u.hp < v.hp || (u.hp == v.hp && Before(u.pos, v.pos))
  }

  /** min_by_key over the indices: the first index whose unit has the least (hp, y, x). */
  function Weakest(units: seq<Unit>, idx: seq<int>): (t: int)
    requires |idx| > 0 && forall j :: 0 <= j < |idx| ==> 0 <= idx[j] < |units|
    ensures t in idx
    ensures forall j :: 0 <= j < |idx| ==> !KeyLess(units[idx[j]], units[t])
  {
    if |idx| == 1 then idx[0]
    else
      var m := Weakest(units, idx[..|idx| - 1]);
      var last := idx[|idx| - 1];
      if KeyLess(units[last], units[m]) then last else m
  }

  /**
   * The attack of unit i from where it stands: the live enemy next to it
   * with the least (hp, y, x) loses the attacker's attack power; with no
   * such enemy nothing changes.
   */
  function Attack(units: seq<Unit>, i: int): (after: seq<Unit>)
    requires 0 <= i < |units|
    ensures |after| == |units|
    ensures forall k :: 0 <= k < |units| ==>
      after[k].pos == units[k].pos && after[k].kind == units[k].kind && after[k].attack == units[k].attack
    ensures forall k :: 0 <= k < |units| && units[k].hp <= 0 ==> after[k] == units[k]
  {
    var near := EnemiesNear(units, units[i].kind, units[i].pos, |units|);
    if |near| == 0 then units
    else
      var t := Weakest(units, near);
      units[t := units[t].(hp := units[t].hp - units[i].attack)]
  }

  /** With no live enemy next to the attacker, the attack changes nothing. */
  lemma AttackNoEnemy(units: seq<Unit>, i: int)
    requires 0 <= i < |units|
    requires forall k :: 0 <= k < |units| ==> !LiveEnemyNear(units, units[i].kind, units[i].pos, k)
    ensures Attack(units, i) == units
  {
    var u := units[i];
    var near := EnemiesNear(units, u.kind, u.pos, |units|);
    assert forall j :: 0 <= j < |near| ==> near[j] in near;
  }

  /**
   * With a live enemy next to the attacker, the attack lowers the hit points
   * of one of them, by the attacker's attack power: the one with the least
   * (hp, y, x).
   */
  lemma AttackHitsWeakest(units: seq<Unit>, i: int, k: int)
    requires 0 <= i < |units| && LiveEnemyNear(units, units[i].kind, units[i].pos, k)
    ensures exists t :: HitsWeakest(units, i, t)
  {
    var u := units[i];
    var near := EnemiesNear(units, u.kind, u.pos, |units|);
    assert k in near;
    assert |near| > 0;
    var t := Weakest(units, near);
    assert t in near;
    assert LiveEnemyNear(units, u.kind, u.pos, t);
    assert Attack(units, i) == units[t := units[t].(hp := units[t].hp - u.attack)];
    forall j | LiveEnemyNear(units, u.kind, u.pos, j)
      ensures !KeyLess(units[j], units[t])
    {
      assert j in near;
      var a :| 0 <= a < |near| && near[a] == j;
    }
    assert HitsWeakest(units, i, t);
  }

  /** Unit t is a live enemy next to unit i, none of the others has a lower
      (hp, y, x), and the attack lowers t's hit points by i's attack power. */
  ghost predicate HitsWeakest(units: seq<Unit>, i: int, t: int)
    requires 0 <= i < |units|
  {
    && LiveEnemyNear(units, units[i].kind, units[i].pos, t)
    && Attack(units, i) == units[t := units[t].(hp := units[t].hp - units[i].attack)]
    && forall j :: LiveEnemyNear(units, units[i].kind, units[i].pos, j) ==> !KeyLess(units[j], units[t])
  }

  /** Some unit of the other kind is alive. */
  predicate HasEnemies(units: seq<Unit>, kind: Kind)
  {
    exists k :: 0 <= k < |units| && units[k].hp > 0 && units[k].kind != kind
  }

  // ---------------------------------------------------------------------
  // Turn order

  /** The indices 0 .. n - 1. */
  function Range(n: nat): (r: seq<int>)
    ensures |r| == n && forall j :: 0 <= j < n ==> r[j] == j
  {
    if n == 0 then [] else Range(n - 1) + [n - 1]
  }

  /** Inserts index i after every index whose unit is not later in reading order (a stable insertion). */
  function InsertIndex(units: seq<Unit>, i: int, s: seq<int>): (r: seq<int>)
    requires 0 <= i < |units| && forall j :: 0 <= j < |s| ==> 0 <= s[j] < |units|
    ensures |r| == |s| + 1
    ensures forall j :: 0 <= j < |r| ==> 0 <= r[j] < |units|
  {
    if s == [] then [i]
    else if Before(units[i].pos, units[s[|s| - 1]].pos) then
      InsertIndex(units, i, s[..|s| - 1]) + [s[|s| - 1]]
    else s + [i]
  }

  /** The indices of the first n units, sorted by (y, x) of their positions, stably. */
  function SortIndices(units: seq<Unit>, n: nat): (r: seq<int>)
    requires n <= |units|
    ensures |r| == n
    ensures forall j :: 0 <= j < |r| ==> 0 <= r[j] < |units|
  {
    if n == 0 then []
    else
      InsertIndex(units, n - 1, SortIndices(units, n - 1))
  }

  /** The turn order of a round: every index once, by reading order of where the units stand. */
  function TurnOrder(units: seq<Unit>): (order: seq<int>)
    ensures |order| == |units|
    ensures forall j :: 0 <= j < |order| ==> 0 <= order[j] < |units|
  {
    SortIndices(units, |units|)
  }

  predicate SortedBy(units: seq<Unit>, s: seq<int>)
    requires forall j :: 0 <= j < |s| ==> 0 <= s[j] < |units|
  {
    forall k, l :: 0 <= k < l < |s| ==> !Before(units[s[l]].pos, units[s[k]].pos)
  }

  /** Insertion adds the index and keeps every other. */
  lemma {:induction false} InsertIndexMultiset(units: seq<Unit>, i: int, s: seq<int>)
    requires 0 <= i < |units| && forall j :: 0 <= j < |s| ==> 0 <= s[j] < |units|
    ensures multiset(InsertIndex(units, i, s)) == multiset(s) + multiset{i}
    decreases |s|
  {
    if s != [] && Before(units[i].pos, units[s[|s| - 1]].pos) {
      var front := s[..|s| - 1];
      InsertIndexMultiset(units, i, front);
      assert s == front + [s[|s| - 1]];
    }
  }

  /** The sort is a permutation of the indices. */
  lemma {:induction false} SortIndicesMultiset(units: seq<Unit>, n: nat)
    requires n <= |units|
    ensures multiset(SortIndices(units, n)) == multiset(Range(n))
  {
    if n > 0 {
      var s := SortIndices(units, n - 1);
      SortIndicesMultiset(units, n - 1);
      InsertIndexMultiset(units, n - 1, s);
      assert multiset(Range(n)) == multiset(Range(n - 1)) + multiset{n - 1};
    }
  }

  lemma {:induction false} InsertIndexSorted(units: seq<Unit>, i: int, s: seq<int>)
    requires 0 <= i < |units| && forall j :: 0 <= j < |s| ==> 0 <= s[j] < |units|
    requires SortedBy(units, s)
    ensures SortedBy(units, InsertIndex(units, i, s))
    decreases |s|
  {
    if s != [] && Before(units[i].pos, units[s[|s| - 1]].pos) {
      var front := s[..|s| - 1];
      InsertIndexSorted(units, i, front);
      InsertIndexMultiset(units, i, front);
      var r := InsertIndex(units, i, front);
      forall k | 0 <= k < |r|
        ensures !Before(units[s[|s| - 1]].pos, units[r[k]].pos)
      {
        assert r[k] in multiset(r);
        if r[k] != i {
          assert r[k] in multiset(front);
          var m :| 0 <= m < |front| && front[m] == r[k];
        }
      }
    }
  }

  /** Every turn comes no earlier in reading order than the turn before it. */
  lemma {:induction false} TurnOrderSorted(units: seq<Unit>, n: nat)
    requires n <= |units|
    ensures SortedBy(units, SortIndices(units, n))
  {
    if n > 0 {
      var s := SortIndices(units, n - 1);
      TurnOrderSorted(units, n - 1);
      InsertIndexSorted(units, n - 1, s);
    }
  }

  /** Each unit has exactly one turn in the order. */
  lemma TurnOrderOnce(units: seq<Unit>, k: int)
    requires 0 <= k < |units|
    ensures multiset(TurnOrder(units))[k] == 1
  {
    SortIndicesMultiset(units, |units|);
    var r := Range(|units|);
    assert r == r[..k] + [k] + r[k + 1..];
    assert k !in r[..k] && k !in r[k + 1..];
  }

  // ---------------------------------------------------------------------
  // Walks on the map

  /** The cells of the map. */
  function Cells(grid: Grid): (r: set<Pos>)
    ensures forall p :: p in r <==> OnMap(grid, p)
  {
    set y, x | 0 <= y < |grid| && 0 <= x < |grid[y]| :: (x, y)
  }

  /**
   * A walk of d steps from a to b: each step goes to an adjacent cell of
   * `cells`, and never leaves a cell of `stops`.
   */
  ghost predicate Reaches(cells: set<Pos>, stops: set<Pos>, a: Pos, b: Pos, d: nat)
    decreases d
  {
    if d == 0 then a == b
    else b in cells && exists q :: q !in stops && Adjacent(q, b) && Reaches(cells, stops, a, q, d - 1)
  }

  /**
   * A breadth-first search tree, with the parent of every cell reached: the
   * root at distance 0, and every other cell reached is in `cells`, one step
   * on from its parent, a reached cell outside `stops` at one less.
   */
  ghost predicate Tree(dist: map<Pos, int>, parent: map<Pos, Pos>, root: Pos, cells: set<Pos>, stops: set<Pos>)
  {
    root in dist && dist[root] == 0
    && (forall c :: c in dist && c != root ==> c in parent)
    && forall c {:trigger parent[c]} :: c in dist && c != root ==>
         c in cells && dist[c] >= 1 && c in parent
         && parent[c] in dist && parent[c] !in stops && Adjacent(parent[c], c) && dist[parent[c]] + 1 == dist[c]
  }

  /** Every distance in a search tree is the length of a walk from the root. */
  lemma {:induction false} TreeReaches(dist: map<Pos, int>, parent: map<Pos, Pos>, root: Pos, cells: set<Pos>, stops: set<Pos>, c: Pos)
    requires Tree(dist, parent, root, cells, stops) && c in dist
    ensures dist[c] >= 0 && Reaches(cells, stops, root, c, dist[c])
    decreases if c in dist then dist[c] else 0
  {
    if c != root {
      var q := parent[c];
      TreeReaches(dist, parent, root, cells, stops, q);
      var d: nat := dist[c];
      assert Reaches(cells, stops, root, q, d - 1);
    }
  }

  /**
   * Adding cells one step on from a reached cell outside `stops`, each at
   * one more and with that cell as parent, keeps a search tree.
   */
  lemma TreeExtend(dist: map<Pos, int>, parent: map<Pos, Pos>, root: Pos, cells: set<Pos>, stops: set<Pos>, q: Pos,
                   added: seq<Pos>, dist': map<Pos, int>, parent': map<Pos, Pos>)
    requires Tree(dist, parent, root, cells, stops) && q in dist && q !in stops
    requires forall n :: n in added ==> n !in dist && n in cells && Adjacent(q, n)
    requires forall c :: c in dist' <==> c in dist || c in added
    requires forall c :: c in dist ==> dist'[c] == dist[c]
    requires forall c :: c in added ==> dist'[c] == dist[q] + 1
    requires forall c :: c in dist && c != root ==> c in parent' && parent'[c] == parent[c]
    requires forall c :: c in added ==> c in parent' && parent'[c] == q
    ensures Tree(dist', parent', root, cells, stops)
  {
    forall c | c in dist' && c != root
      ensures c in cells && dist'[c] >= 1 && c in parent'
      ensures parent'[c] in dist' && parent'[c] !in stops && Adjacent(parent'[c], c) && dist'[parent'[c]] + 1 == dist'[c]
    {
      if c in dist {
        assert parent'[c] == parent[c];
      }
    }
  }

  /**
   * The layer property of a breadth-first search: when every reached cell
   * nearer than `bound` has been expanded, and expanding a cell outside
   * `stops` reached each adjacent cell of `cells` at most one further, every
   * walk of length at most `bound` ends at a reached cell no further than
   * the walk is long.
   */
  lemma {:induction false} LayerReach(cells: set<Pos>, stops: set<Pos>, dist: map<Pos, int>, expanded: set<Pos>,
                                      root: Pos, bound: int, b: Pos, k: nat)
    requires root in dist && dist[root] == 0
    requires forall c :: c in dist && dist[c] < bound ==> c in expanded
    requires forall p, n :: p in expanded && p !in stops && n in cells && Adjacent(p, n) ==>
               p in dist && n in dist && dist[n] <= dist[p] + 1
    requires Reaches(cells, stops, root, b, k) && k <= bound
    ensures b in dist && dist[b] <= k
    decreases k
  {
    if k > 0 {
      var q :| q !in stops && Adjacent(q, b) && Reaches(cells, stops, root, q, k - 1);
      LayerReach(cells, stops, dist, expanded, root, bound, q, k - 1);
    }
  }

  /** The turn of a live unit, a step and then an attack, keeps what a round keeps of the roster. */
  lemma RosterTurn(start: seq<Unit>, units: seq<Unit>, i: int, to: Pos)
    requires Roster(start, units) && 0 <= i < |units| && units[i].hp > 0
    ensures Roster(start, Attack(units[i := units[i].(pos := to)], i))
  {
    var moved := units[i := units[i].(pos := to)];
    var after := Attack(moved, i);
    forall k | 0 <= k < |start| && start[k].hp <= 0
      ensures after[k] == start[k]
    {
      assert moved[k] == units[k];
    }
  }

  /** Purging the dead keeps live units of the roster only. */
  lemma {:induction false} LiveFrom(units: seq<Unit>)
    ensures forall u :: u in Live(units) ==> u in units && u.hp > 0
  {
    if units != [] {
      var front := units[..|units| - 1];
      LiveFrom(front);
      assert forall u :: u in front ==> u in units;
    }
  }

  /** Once some live unit has no live enemy, the purged roster holds one kind only. */
  lemma OneSideLeft(units: seq<Unit>)
    requires exists k :: 0 <= k < |units| && units[k].hp > 0 && !HasEnemies(units, units[k].kind)
    ensures forall k :: 0 <= k < |Live(units)| ==> !HasEnemies(Live(units), Live(units)[k].kind)
  {
    var i :| 0 <= i < |units| && units[i].hp > 0 && !HasEnemies(units, units[i].kind);
    LiveFrom(units);
    var live := Live(units);
    forall k | 0 <= k < |live|
      ensures live[k].kind == units[i].kind
    {
      assert live[k] in live;
    }
  }

  // ---------------------------------------------------------------------
  // A round that ends early

  /** Goblin, elf, goblin in a row, the elf nearly dead. */
  function Lineup(): seq<Unit>
  {
    [Unit((0, 0), Goblin, 200, 3), Unit((1, 0), Elf, 2, 4), Unit((2, 0), Goblin, 200, 3)]
  }

  /** The turns of the lineup go left to right, and the first goblin has the elf next to it. */
  lemma LineupOrder()
    ensures TurnOrder(Lineup()) == [0, 1, 2]
    ensures LiveEnemyNear(Lineup(), Goblin, (0, 0), 1)
  {
    var units := Lineup();
    assert SortIndices(units, 1) == [0];
    assert SortIndices(units, 2) == [0, 1];
  }

  /** The first goblin's blow kills the elf. */
  lemma LineupAttack()
    ensures Attack(Lineup(), 0) == [Lineup()[0], Unit((1, 0), Elf, -1, 4), Lineup()[2]]
  {
    var units := Lineup();
    assert EnemiesNear(units, Goblin, (0, 0), 3) == [1];
  }

  /** The sums over the roster the first goblin's blow leaves. */
  lemma AftermathSums(after: seq<Unit>)
    requires after == [Lineup()[0], Unit((1, 0), Elf, -1, 4), Lineup()[2]]
    ensures KindCount(after, Elf) == 1 && LiveCount(after, Elf) == 0
    ensures HpSum(after) == 399 && HpSum(Live(after)) == 400
  {
    var g0, e, g2 := after[0], after[1], after[2];
    assert after[..2] == [g0, e] && after[..2][..1] == after[..1] == [g0] && after[..1][..0] == [];
    assert KindCount([g0], Elf) == 0 && LiveCount([g0], Elf) == 0 && HpSum([g0]) == 200 && Live([g0]) == [g0];
    assert KindCount([g0, e], Elf) == 1 && LiveCount([g0, e], Elf) == 0 && HpSum([g0, e]) == 199 && Live([g0, e]) == [g0];
    assert Live(after) == [g0, g2];
    assert [g0, g2][..1] == [g0];
  }

  /**
   * The roster a round leaves behind when it ends early still holds the
   * units killed during that round. Goblin, elf, goblin in a row: the first
   * goblin kills the elf, the elf's turn is skipped, and the second goblin
   * finds no enemy, so the round reports false before the purge. The
   * outcome that part1 and part2 of all three solvers take then adds the
   * dead elf's -1, and part2 still counts that elf as one that survived.
   */
  lemma DeadUnitsCounted()
    ensures var after := Attack(Lineup(), 0);
            TurnOrder(Lineup()) == [0, 1, 2]
            && LiveEnemyNear(Lineup(), Goblin, (0, 0), 1)
            && after[1].hp <= 0 && after[2].hp > 0 && !HasEnemies(after, Goblin)
            && KindCount(after, Elf) == 1 && LiveCount(after, Elf) == 0
            && HpSum(after) == 399 && HpSum(Live(after)) == 400
  {
    LineupOrder();
    LineupAttack();
    AftermathSums(Attack(Lineup(), 0));
  }

  // ---------------------------------------------------------------------
  // Breadth-first search

  /** A search queue in order of distance, all between `cur` and one more. */
  ghost predicate Queued(queue: seq<Pos>, dist: map<Pos, int>, cur: int)
  {
    (forall j :: 0 <= j < |queue| ==> queue[j] in dist && cur <= dist[queue[j]] <= cur + 1)
    && forall j, l :: 0 <= j < l < |queue| ==> dist[queue[j]] <= dist[queue[l]]
  }

  /** Every reached cell is popped, no further than `cur`, or queued, no further than one more. */
  ghost predicate Covered(queue: seq<Pos>, dist: map<Pos, int>, popped: set<Pos>, cur: int)
  {
    (forall c :: c in dist ==> (c in popped || c in queue) && dist[c] <= cur + 1)
    && forall c :: c in popped ==> c in dist && dist[c] <= cur
  }

  /** Every popped cell outside `stops` has its adjacent cells of `cells` reached at most one further. */
  ghost predicate Expanded(cells: set<Pos>, stops: set<Pos>, dist: map<Pos, int>, popped: set<Pos>)
  {
    forall p, n :: p in popped && p !in stops && n in cells && Adjacent(p, n) ==>
      p in dist && n in dist && dist[n] <= dist[p] + 1
  }

  /** The queue after popping its head and appending the cells reached from it. */
  lemma QueuedStep(pos: Pos, queue: seq<Pos>, dist: map<Pos, int>, cur: int,
                   added: seq<Pos>, dist': map<Pos, int>)
    requires Queued([pos] + queue, dist, cur) && pos in dist
    requires forall c :: c in dist ==> c in dist' && dist'[c] == dist[c]
    requires forall c :: c in added ==> c in dist' && dist'[c] == dist[pos] + 1
    ensures Queued(queue + added, dist', dist[pos])
  {
    assert ([pos] + queue)[0] == pos;
    forall j | 0 <= j < |queue|
      ensures queue[j] == ([pos] + queue)[j + 1]
    {
    }
  }

  lemma CoveredStep(pos: Pos, queue: seq<Pos>, dist: map<Pos, int>, popped: set<Pos>, cur: int,
                    added: seq<Pos>, dist': map<Pos, int>)
    requires Covered([pos] + queue, dist, popped, cur) && Queued([pos] + queue, dist, cur) && pos in dist
    requires forall c :: c in dist' <==> c in dist || c in added
    requires forall c :: c in dist ==> dist'[c] == dist[c]
    requires forall c :: c in added ==> dist'[c] == dist[pos] + 1
    ensures Covered(queue + added, dist', popped + {pos}, dist[pos])
  {
    assert ([pos] + queue)[0] == pos;
  }

  lemma ExpandedStep(cells: set<Pos>, stops: set<Pos>, pos: Pos, dist: map<Pos, int>, popped: set<Pos>, cur: int,
                     dist': map<Pos, int>)
    requires Expanded(cells, stops, dist, popped)
    requires pos in dist && cur <= dist[pos]
    requires forall c :: c in dist ==> dist[c] <= cur + 1
    requires forall c :: c in dist ==> c in dist' && dist'[c] == dist[c]
    requires forall c :: c in dist' && c !in dist ==> dist'[c] == dist[pos] + 1
    requires forall n :: n in cells && Adjacent(pos, n) ==> n in dist'
    ensures Expanded(cells, stops, dist', popped + {pos})
  {
  }

  // ---------------------------------------------------------------------
  // Placement of the units

  /** Every unit stands on a floor cell of the map, and no two live units share a cell. */
  ghost predicate Placement(grid: Grid, units: seq<Unit>)
  {
    (forall k :: 0 <= k < |units| ==> OnMap(grid, units[k].pos) && grid[units[k].pos.1][units[k].pos.0] == '.')
    && forall k, l :: 0 <= k < |units| && 0 <= l < |units| && k != l && units[k].hp > 0 && units[l].hp > 0 ==>
         units[k].pos != units[l].pos
  }

  /** A step onto a floor cell where no live unit stands keeps the placement. */
  lemma PlacementMove(grid: Grid, units: seq<Unit>, i: int, to: Pos)
    requires Placement(grid, units) && 0 <= i < |units|
    requires OnMap(grid, to) && grid[to.1][to.0] == '.'
    requires forall k :: 0 <= k < |units| && units[k].hp > 0 ==> units[k].pos != to
    ensures Placement(grid, units[i := units[i].(pos := to)])
  {
  }

  /** An attack moves nobody and brings nobody back to life, so it keeps the placement. */
  lemma PlacementAttack(grid: Grid, units: seq<Unit>, i: int)
    requires Placement(grid, units) && 0 <= i < |units|
    ensures Placement(grid, Attack(units, i))
  {
    var after := Attack(units, i);
    forall k | 0 <= k < |units| && after[k].hp > 0
      ensures units[k].hp > 0
    {
    }
  }

  /** Purging the dead keeps the placement. */
  lemma PlacementLive(grid: Grid, units: seq<Unit>)
    requires Placement(grid, units)
    ensures Placement(grid, Live(units))
  {
    LiveApart(units);
    forall k | 0 <= k < |Live(units)|
      ensures OnMap(grid, Live(units)[k].pos) && grid[Live(units)[k].pos.1][Live(units)[k].pos.0] == '.'
    {
      assert Live(units)[k] in units;
    }
  }

  /**
   * What a round keeps of the roster it starts from: the same units in the
   * same slots, each of its kind and attack power, and a unit already dead
   * neither moves nor is hit.
   */
  ghost predicate Roster(start: seq<Unit>, units: seq<Unit>)
  {
    |units| == |start|
    && (forall k :: 0 <= k < |start| ==> units[k].kind == start[k].kind && units[k].attack == start[k].attack)
    && forall k :: 0 <= k < |start| && start[k].hp <= 0 ==> units[k] == start[k]
  }

  /**
   * The state of a breadth-first search from `from` over `cells` that does
   * not expand cells of `stops`: a search tree; a queue in order of
   * distance, between `cur`, the distance of the cell popped last, and one
   * more; every reached cell popped or queued; and every popped cell outside
   * `stops` expanded into all its adjacent cells of `squares`.
   */
  ghost predicate Search(cells: set<Pos>, squares: set<Pos>, from: Pos, stops: set<Pos>, queue: seq<Pos>,
                         dist: map<Pos, int>, parent: map<Pos, Pos>, popped: set<Pos>, cur: int)
  {
    Tree(dist, parent, from, cells, stops) && 0 <= cur
    && Queued(queue, dist, cur) && Covered(queue, dist, popped, cur) && Expanded(squares, stops, dist, popped)
  }

  /** Every reached cell nearer than the head of the queue, or every one once the queue is empty, has been popped. */
  lemma HeadPopped(cells: set<Pos>, squares: set<Pos>, from: Pos, stops: set<Pos>, queue: seq<Pos>, dist: map<Pos, int>,
                   parent: map<Pos, Pos>, popped: set<Pos>, cur: int)
    requires Search(cells, squares, from, stops, queue, dist, parent, popped, cur)
    ensures forall c :: c in dist && (queue == [] || dist[c] < dist[queue[0]]) ==> c in popped
  {
    forall c | c in dist && c in queue
      ensures dist[queue[0]] <= dist[c]
    {
      var j :| 0 <= j < |queue| && queue[j] == c;
      if j > 0 {
        assert dist[queue[0]] <= dist[queue[j]];
      }
    }
  }

  /** The head of the queue is at the length of a walk to it, and no walk to it is shorter. */
  lemma HeadShortest(cells: set<Pos>, squares: set<Pos>, from: Pos, stops: set<Pos>, queue: seq<Pos>, dist: map<Pos, int>,
                     parent: map<Pos, Pos>, popped: set<Pos>, cur: int)
    requires Search(cells, squares, from, stops, queue, dist, parent, popped, cur) && queue != []
    ensures queue[0] in dist && dist[queue[0]] >= 0
    ensures Reaches(cells, stops, from, queue[0], dist[queue[0]])
    ensures forall k: nat :: Reaches(squares, stops, from, queue[0], k) ==> dist[queue[0]] <= k
  {
    TreeReaches(dist, parent, from, cells, stops, queue[0]);
    HeadPopped(cells, squares, from, stops, queue, dist, parent, popped, cur);
    forall k: nat | Reaches(squares, stops, from, queue[0], k) && k < dist[queue[0]]
      ensures false
    {
      LayerReach(squares, stops, dist, popped, from, k, queue[0], k);
    }
  }

  /** Every walk shorter than the distance of the head of the queue ends at a popped cell, no further than the walk is long. */
  lemma HeadBelow(cells: set<Pos>, squares: set<Pos>, from: Pos, stops: set<Pos>, queue: seq<Pos>, dist: map<Pos, int>,
                  parent: map<Pos, Pos>, popped: set<Pos>, cur: int, b: Pos, k: nat)
    requires Search(cells, squares, from, stops, queue, dist, parent, popped, cur) && queue != []
    requires Reaches(squares, stops, from, b, k) && k < dist[queue[0]]
    ensures b in dist && dist[b] <= k && b in popped
  {
    HeadPopped(cells, squares, from, stops, queue, dist, parent, popped, cur);
    LayerReach(squares, stops, dist, popped, from, k, b, k);
  }

  /**
   * When `from` heads the queue, a cell next to it that a walk shorter than
   * `from`'s distance reaches lies exactly one closer to the root.
   */
  lemma NeighbourLayer(cells: set<Pos>, squares: set<Pos>, root: Pos, stops: set<Pos>, queue: seq<Pos>, dist: map<Pos, int>,
                       parent: map<Pos, Pos>, popped: set<Pos>, cur: int, from: Pos, m: Pos, k: nat)
    requires Search(cells, squares, root, stops, queue, dist, parent, popped, cur) && queue != [] && queue[0] == from
    requires from == root || from in squares
    requires Adjacent(from, m) && m !in stops && Reaches(squares, stops, root, m, k) && k < dist[from]
    ensures m in dist && dist[m] == dist[from] - 1 && dist[m] <= k
  {
    HeadBelow(cells, squares, root, stops, queue, dist, parent, popped, cur, m, k);
    assert Expanded(squares, stops, dist, popped);
    AdjacentIff(from, m);
  }

  /** Once the queue is empty, a cell never popped is at the end of no walk. */
  lemma Unreached(cells: set<Pos>, squares: set<Pos>, from: Pos, stops: set<Pos>, dist: map<Pos, int>, parent: map<Pos, Pos>,
                  popped: set<Pos>, cur: int, b: Pos)
    requires Search(cells, squares, from, stops, [], dist, parent, popped, cur) && b !in popped
    ensures forall k: nat :: !Reaches(squares, stops, from, b, k)
  {
    HeadPopped(cells, squares, from, stops, [], dist, parent, popped, cur);
    forall k: nat | Reaches(squares, stops, from, b, k)
      ensures false
    {
      LayerReach(squares, stops, dist, popped, from, k, b, k);
    }
  }

  /** Once the queue is empty, every walk ends at a reached cell no further than the walk is long. */
  lemma Exhausted(cells: set<Pos>, squares: set<Pos>, from: Pos, stops: set<Pos>, dist: map<Pos, int>,
                  parent: map<Pos, Pos>, popped: set<Pos>, cur: int, b: Pos, k: nat)
    requires Search(cells, squares, from, stops, [], dist, parent, popped, cur)
    requires Reaches(squares, stops, from, b, k)
    ensures b in dist && dist[b] <= k
  {
    HeadPopped(cells, squares, from, stops, [], dist, parent, popped, cur);
    LayerReach(squares, stops, dist, popped, from, k, b, k);
  }

  /** The search starts with `from` alone, at distance 0. */
  lemma SearchStart(cells: set<Pos>, squares: set<Pos>, from: Pos, stops: set<Pos>)
    ensures Search(cells, squares, from, stops, [from], map[from := 0], map[], {}, 0)
  {
  }

  /** Popping a cell of `stops` without expanding it keeps the search state. */
  lemma PopStop(cells: set<Pos>, squares: set<Pos>, from: Pos, stops: set<Pos>, pos: Pos, queue: seq<Pos>, dist: map<Pos, int>,
                parent: map<Pos, Pos>, popped: set<Pos>, cur: int)
    requires Search(cells, squares, from, stops, [pos] + queue, dist, parent, popped, cur) && pos in stops && pos in dist
    ensures Search(cells, squares, from, stops, queue, dist, parent, popped + {pos}, dist[pos])
  {
    QueuedStep(pos, queue, dist, cur, [], dist);
    CoveredStep(pos, queue, dist, popped, cur, [], dist);
    assert queue + [] == queue;
  }

  /**
   * When a search for the squares of `targets` ends, with its queue empty
   * or holding a cell beyond the distance of the nearest square found, the
   * squares found are those of `targets` at the least distance.
   */
  lemma NearestFound(cells: set<Pos>, squares: set<Pos>, from: Pos, stops: set<Pos>, targets: set<Pos>, queue: seq<Pos>,
                     dist: map<Pos, int>, parent: map<Pos, Pos>, popped: set<Pos>, cur: int, nearest: seq<Pos>, nd: Option<nat>)
    requires Search(cells, squares, from, stops, queue, dist, parent, popped, cur)
    requires forall p :: p in popped && p in targets ==> p in nearest
    requires nearest == [] <==> nd.None?
    requires nd.Some? ==> forall t :: t in nearest ==> t in targets && t in dist && dist[t] == nd.value
    requires queue != [] ==> nd.Some? && dist[queue[0]] > nd.value
    ensures forall t :: t in nearest ==> t in targets && Reaches(cells, stops, from, t, nd.value)
    ensures forall t, k: nat :: t in targets && Reaches(squares, stops, from, t, k) ==>
              nd.Some? && nd.value <= k && (k == nd.value ==> t in nearest)
  {
    forall t | t in nearest
      ensures t in targets && Reaches(cells, stops, from, t, nd.value)
    {
      TreeReaches(dist, parent, from, cells, stops, t);
    }
    HeadPopped(cells, squares, from, stops, queue, dist, parent, popped, cur);
    forall t, k: nat | t in targets && Reaches(squares, stops, from, t, k)
      ensures nd.Some? && nd.value <= k && (k == nd.value ==> t in nearest)
    {
      if queue == [] || k < dist[queue[0]] {
        LayerReach(squares, stops, dist, popped, from, k, t, k);
      }
    }
  }

  /** The key (distance, y, x) of candidate a is below that of b. */
  predicate CandLess(a: (int, Pos), b: (int, Pos))
  {
    a.0 < b.0 || (a.0 == b.0 && Before(a.1, b.1))
  }

  /** sort_by_key on (distance, y, x), then the first element: the least candidate. */
  function Least(cands: seq<(int, Pos)>): (c: (int, Pos))
    requires |cands| > 0
    ensures c in cands && forall j :: 0 <= j < |cands| ==> !CandLess(cands[j], c)
  {
    if |cands| == 1 then cands[0]
    else
      var m := Least(cands[..|cands| - 1]);
      if CandLess(cands[|cands| - 1], m) then cands[|cands| - 1] else m
  }

  /** sort_by_key on (y, x), then the first element: the least cell in reading order. */
  function First(s: seq<Pos>): (p: Pos)
    requires |s| > 0
    ensures p in s && forall j :: 0 <= j < |s| ==> !Before(s[j], p)
  {
    if |s| == 1 then s[0]
    else
      var m := First(s[..|s| - 1]);
      if Before(s[|s| - 1], m) then s[|s| - 1] else m
  }

  // ---------------------------------------------------------------------
  // Rounds and battles, for any rule of movement

  /**
   * The rosters the turn of unit i may leave behind: its step, then its
   * attack from there. Each solver has its own rule of movement, and so its
   * own rule of turns.
   */
  type TurnRule = (seq<Unit>, int, seq<Unit>) -> bool

  /** One slot of the turn order: a dead unit is skipped, a live unit with an enemy left takes its turn. */
  ghost predicate Slot(rule: TurnRule, units: seq<Unit>, i: int, after: seq<Unit>)
  {
    0 <= i < |units|
    && if units[i].hp <= 0 then after == units
       else HasEnemies(units, units[i].kind) && rule(units, i, after)
  }

  /** Unit i is alive and finds no enemy alive: the round ends at its turn. */
  predicate Stopped(units: seq<Unit>, i: int)
  {
    0 <= i < |units| && units[i].hp > 0 && !HasEnemies(units, units[i].kind)
  }

  /**
   * `trail` lists the rosters of a round begun from `start` as the slots of
   * `order` are played: the first is `start`, and each later one is the one
   * before it after the next slot.
   */
  ghost predicate Traced(rule: TurnRule, order: seq<int>, start: seq<Unit>, trail: seq<seq<Unit>>)
    decreases |trail|
  {
    if |trail| <= 1 then trail == [start]
    else
      var j := |trail| - 2;
      j < |order| && Traced(rule, order, start, trail[..j + 1]) && Slot(rule, trail[j], order[j], trail[j + 1])
  }

  /**
   * A round from `start` under `rule`, each slot of the turn order in turn:
   * either every slot is played and the round goes on, or it stops at the
   * first live unit with no enemy left. `mid` is the roster before the purge.
   */
  ghost predicate Round(rule: TurnRule, start: seq<Unit>, mid: seq<Unit>, going: bool)
  {
    var order := TurnOrder(start);
    exists trail :: Traced(rule, order, start, trail) && RoundEnd(order, trail, mid, going)
  }

  /** How a round traced by `trail` ends: after every slot, or at a unit that finds no enemy. */
  predicate RoundEnd(order: seq<int>, trail: seq<seq<Unit>>, mid: seq<Unit>, going: bool)
  {
    1 <= |trail| && trail[|trail| - 1] == mid
    && if going then |trail| == |order| + 1 else |trail| <= |order| && Stopped(mid, order[|trail| - 1])
  }

  /** A round that plays every slot, and the roster it leaves once the dead are purged. */
  ghost predicate FullRound(rule: TurnRule, start: seq<Unit>, after: seq<Unit>)
  {
    exists mid :: Round(rule, start, mid, true) && after == Live(mid)
  }

  /**
   * `history` lists the rosters of a battle begun from `start`, one for each
   * full round fought: each later one is what a full round leaves of the one
   * before, and every such round began with at least `elves` elves.
   */
  ghost predicate Fought(rule: TurnRule, start: seq<Unit>, history: seq<seq<Unit>>, elves: int)
    decreases |history|
  {
    if |history| <= 1 then history == [start]
    else
      var n := |history| - 2;
      Fought(rule, start, history[..n + 1], elves) && KindCount(history[n], Elf) >= elves
      && FullRound(rule, history[n], history[n + 1])
  }

  /**
   * The battle part2 fights at one power, its full rounds in `history`: it
   * goes on while no elf is lost, until a round ends early (`final` is the
   * roster that round leaves, dead included) or a full round leaves fewer
   * elves than at the start (`final` is the purged roster).
   */
  ghost predicate ElfBattle(rule: TurnRule, start: seq<Unit>, history: seq<seq<Unit>>, final: seq<Unit>)
  {
    var elves := KindCount(start, Elf);
    1 <= |history| && Fought(rule, start, history, elves)
    && var last := history[|history| - 1];
       (KindCount(last, Elf) >= elves && Round(rule, last, final, false))
       || (|history| > 1 && KindCount(last, Elf) < elves && final == last)
  }

  /**
   * At this elf attack power, part2's battle on the map ends with a
   * different count of elves than it began with, counting the final roster
   * as it stands or, when `purged`, its live units only.
   */
  ghost predicate ElvesLost(rule: TurnRule, lines: Grid, attack: int, purged: bool)
  {
    exists start, history, final :: UnitsOf(lines, attack, start) && ElfBattle(rule, start, history, final)
                                    && KindCount(if purged then Live(final) else final, Elf) != KindCount(start, Elf)
  }

  /** Part2's battle from `start` is under way: `units` is what its full rounds in `history` left, no elf lost. */
  ghost predicate Fighting(rule: TurnRule, start: seq<Unit>, history: seq<seq<Unit>>, units: seq<Unit>, elves: int)
  {
    1 <= |history| && Fought(rule, start, history, elves) && history[|history| - 1] == units && KindCount(units, Elf) >= elves
  }

  /** Part2's battle from `start` is over, and `units` is its final roster, purged of the dead when `purge` holds. */
  ghost predicate Ended(rule: TurnRule, start: seq<Unit>, history: seq<seq<Unit>>, final: seq<Unit>, units: seq<Unit>, purge: bool)
  {
    ElfBattle(rule, start, history, final) && units == if purge then Live(final) else final
  }

  /** A trail extended by the roster after its next slot. */
  lemma TracedStep(rule: TurnRule, order: seq<int>, start: seq<Unit>, trail: seq<seq<Unit>>, after: seq<Unit>)
    requires Traced(rule, order, start, trail) && 1 <= |trail| <= |order|
    requires Slot(rule, trail[|trail| - 1], order[|trail| - 1], after)
    ensures Traced(rule, order, start, trail + [after])
  {
    var longer := trail + [after];
    assert longer[..|trail|] == trail;
  }

  /** A trail that ends as a round ends witnesses that round. */
  lemma RoundOf(rule: TurnRule, start: seq<Unit>, trail: seq<seq<Unit>>, mid: seq<Unit>, going: bool)
    requires Traced(rule, TurnOrder(start), start, trail) && RoundEnd(TurnOrder(start), trail, mid, going)
    ensures Round(rule, start, mid, going)
  {
  }

  /** A history extended by what one more full round leaves. */
  lemma FoughtStep(rule: TurnRule, start: seq<Unit>, history: seq<seq<Unit>>, mid: seq<Unit>, elves: int)
    requires Fought(rule, start, history, elves) && 1 <= |history|
    requires KindCount(history[|history| - 1], Elf) >= elves && Round(rule, history[|history| - 1], mid, true)
    ensures Fought(rule, start, history + [Live(mid)], elves)
  {
    var longer := history + [Live(mid)];
    assert longer[..|history|] == history;
    assert FullRound(rule, history[|history| - 1], Live(mid));
  }

  /** The state of a round begun from `start` once the slots of `order` in `trail` are played. */
  ghost predicate Slots(rule: TurnRule, order: seq<int>, trail: seq<seq<Unit>>, start: seq<Unit>, grid: Grid, units: seq<Unit>)
  {
    1 <= |trail| <= |order| + 1 && trail[|trail| - 1] == units
    && (forall k :: 0 <= k < |order| ==> 0 <= order[k] < |start|)
    && Placement(grid, units) && Roster(start, units) && Traced(rule, order, start, trail)
  }

  /** Before the first slot of a round, only its starting roster is traced. */
  lemma SlotsBegin(rule: TurnRule, grid: Grid, units: seq<Unit>)
    requires Placement(grid, units)
    ensures Slots(rule, TurnOrder(units), [units], units, grid, units)
  {
  }
}
