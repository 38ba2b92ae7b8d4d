/** The Stars Align, python/10/problem1.py: positions are objects moved in
    place by their velocities; the script ticks until the box around them is
    at most 300 by 300 in area, then 25 more times. */
module Day10Script {

  import opened Wrappers
  import Day10

  /** The sentinels `find_p_min` and `find_p_max` fold from. */
  const Far: int := 60000

  /** `300 * 300`: the script stops ticking once the area is at most this. */
  const SmallArea: int := 90000

  /** The extra ticks after the area is small. */
  const ExtraTicks: nat := 25

  /** A velocity, never changed after parsing. */
  datatype Velocity = Velocity(vx: int, vy: int)

  function MinInt(a: int, b: int): (m: int)
    ensures m <= a && m <= b && (m == a || m == b)
  {
    if b < a then b else a
  }

  function MaxInt(a: int, b: int): (m: int)
    ensures m >= a && m >= b && (m == a || m == b)
  {
    if b > a then b else a
  }

  class Position {
    var x: int
    var y: int

    constructor(x: int, y: int)
      ensures this.x == x && this.y == y
    {
      this.x := x;
      this.y := y;
    }

    /** `move`: one tick of velocity `v`. */
    method Move(v: Velocity)
      modifies this
      ensures x == old(x) + v.vx && y == old(y) + v.vy
    {
      x := x + v.vx;
      y := y + v.vy;
    }

    /** `min`: a new position, componentwise the smaller; neither operand
        changes. */
    method Min(other: Position) returns (p: Position)
      ensures fresh(p) && p.x == MinInt(x, other.x) && p.y == MinInt(y, other.y)
    {
      p := new Position(MinInt(x, other.x), MinInt(y, other.y));
    }

    /** `max`: a new position, componentwise the larger; neither operand
        changes. */
    method Max(other: Position) returns (p: Position)
      ensures fresh(p) && p.x == MaxInt(x, other.x) && p.y == MaxInt(y, other.y)
    {
      p := new Position(MaxInt(x, other.x), MaxInt(y, other.y));
    }
  }

  /** The list holds each position object once. */
  predicate Distinct(ps: seq<Position>) {
    forall i, j :: 0 <= i < j < |ps| ==> ps[i] != ps[j]
  }

  /** The coordinates the positions hold now. */
  function Coords(ps: seq<Position>): (cs: seq<(int, int)>)
    reads ps
    ensures |cs| == |ps|
    ensures forall i :: 0 <= i < |ps| ==> cs[i] == (ps[i].x, ps[i].y)
  {
    seq(|ps|, i reads ps requires 0 <= i < |ps| => (ps[i].x, ps[i].y))
  }

  /** Every coordinate moved by its velocity. */
  function Moved(cs: seq<(int, int)>, vs: seq<Velocity>): (r: seq<(int, int)>)
    requires |cs| == |vs|
    ensures |r| == |cs|
  {
    seq(|cs|, i requires 0 <= i < |cs| => (cs[i].0 + vs[i].vx, cs[i].1 + vs[i].vy))
  }

  /** The coordinates after `t` ticks. */
  function After(cs: seq<(int, int)>, vs: seq<Velocity>, t: nat): (r: seq<(int, int)>)
    requires |cs| == |vs|
    ensures |r| == |cs|
  {
    if t == 0 then cs else Moved(After(cs, vs, t - 1), vs)
  }

  lemma AfterStep(cs: seq<(int, int)>, vs: seq<Velocity>, t: nat, rest: nat)
    requires |cs| == |vs| && rest + 1 == t
    ensures After(cs, vs, t) == Moved(After(cs, vs, rest), vs)
  {
  }

  /** `tick`: moves `positions[i]` by `velocities[i]` for every `i`. */
  method Tick(positions: seq<Position>, velocities: seq<Velocity>)
    requires |positions| == |velocities| && Distinct(positions)
    modifies positions
    ensures Coords(positions) == Moved(old(Coords(positions)), velocities)
  {
    for i := 0 to |positions|
      invariant forall j :: 0 <= j < i ==>
        positions[j].x == old(positions[j].x) + velocities[j].vx
        && positions[j].y == old(positions[j].y) + velocities[j].vy
      invariant forall j :: i <= j < |positions| ==>
        positions[j].x == old(positions[j].x) && positions[j].y == old(positions[j].y)
    {
      positions[i].Move(velocities[i]);
    }
  }

  function XsOf(cs: seq<(int, int)>): (xs: seq<int>)
    ensures |xs| == |cs|
  {
    seq(|cs|, i requires 0 <= i < |cs| => cs[i].0)
  }

  function YsOf(cs: seq<(int, int)>): (ys: seq<int>)
    ensures |ys| == |cs|
  {
    seq(|cs|, i requires 0 <= i < |cs| => cs[i].1)
  }

  /** The fold of `min` from `acc` over `xs`. */
  function FoldMin(acc: int, xs: seq<int>): int {
    if xs == [] then acc else MinInt(FoldMin(acc, xs[..|xs| - 1]), xs[|xs| - 1])
  }

  /** The fold of `max` from `acc` over `xs`. */
  function FoldMax(acc: int, xs: seq<int>): int {
    if xs == [] then acc else MaxInt(FoldMax(acc, xs[..|xs| - 1]), xs[|xs| - 1])
  }

  /** The fold of `min` is at most `acc` and every element, and is one of
      them. */
  lemma {:induction false} FoldMinBounds(acc: int, xs: seq<int>)
    ensures FoldMin(acc, xs) <= acc && forall i :: 0 <= i < |xs| ==> FoldMin(acc, xs) <= xs[i]
    ensures FoldMin(acc, xs) == acc || FoldMin(acc, xs) in xs
  {
    if xs != [] {
      var front := xs[..|xs| - 1];
      FoldMinBounds(acc, front);
      assert forall i :: 0 <= i < |front| ==> front[i] == xs[i];
    }
  }

  /** The fold of `max` is at least `acc` and every element, and is one of
      them. */
  lemma {:induction false} FoldMaxBounds(acc: int, xs: seq<int>)
    ensures FoldMax(acc, xs) >= acc && forall i :: 0 <= i < |xs| ==> FoldMax(acc, xs) >= xs[i]
    ensures FoldMax(acc, xs) == acc || FoldMax(acc, xs) in xs
  {
    if xs != [] {
      var front := xs[..|xs| - 1];
      FoldMaxBounds(acc, front);
      assert forall i :: 0 <= i < |front| ==> front[i] == xs[i];
    }
  }

  lemma FoldMinStep(acc: int, xs: seq<int>, k: nat)
    requires k < |xs|
    ensures FoldMin(acc, xs[..k + 1]) == MinInt(FoldMin(acc, xs[..k]), xs[k])
  {
    assert xs[..k + 1][..k] == xs[..k];
  }

  lemma FoldMaxStep(acc: int, xs: seq<int>, k: nat)
    requires k < |xs|
    ensures FoldMax(acc, xs[..k + 1]) == MaxInt(FoldMax(acc, xs[..k]), xs[k])
  {
    assert xs[..k + 1][..k] == xs[..k];
  }

  /** Within the sentinels, the fold of `min` is the minimum. */
  lemma FoldMinIsMin(xs: seq<int>)
    requires |xs| > 0 && forall i :: 0 <= i < |xs| ==> xs[i] <= Far
    ensures FoldMin(Far, xs) == Day10.MinOf(xs)
  {
    var m, n := FoldMin(Far, xs), Day10.MinOf(xs);
    FoldMinBounds(Far, xs);
    var j :| 0 <= j < |xs| && xs[j] == n;
    assert m <= xs[j];
    if m == Far {
      assert n <= xs[0];
    } else {
      var i :| 0 <= i < |xs| && xs[i] == m;
      assert n <= xs[i];
    }
  }

  /** Within the sentinels, the fold of `max` is the maximum. */
  lemma FoldMaxIsMax(xs: seq<int>)
    requires |xs| > 0 && forall i :: 0 <= i < |xs| ==> xs[i] >= -Far
    ensures FoldMax(-Far, xs) == Day10.MaxOf(xs)
  {
    var m, n := FoldMax(-Far, xs), Day10.MaxOf(xs);
    FoldMaxBounds(-Far, xs);
    var j :| 0 <= j < |xs| && xs[j] == n;
    assert m >= xs[j];
    if m == -Far {
      assert n >= xs[0];
    } else {
      var i :| 0 <= i < |xs| && xs[i] == m;
      assert n >= xs[i];
    }
  }

  /** `find_p_min`: the componentwise minimum folded from (60000, 60000). */
  method FindPMin(positions: seq<Position>) returns (p: Position)
    ensures fresh(p)
    ensures p.x == FoldMin(Far, XsOf(Coords(positions)))
    ensures p.y == FoldMin(Far, YsOf(Coords(positions)))
  {
    ghost var xs, ys := XsOf(Coords(positions)), YsOf(Coords(positions));
    p := new Position(Far, Far);
    for i := 0 to |positions|
      invariant fresh(p)
      invariant p.x == FoldMin(Far, xs[..i]) && p.y == FoldMin(Far, ys[..i])
    {
      FoldMinStep(Far, xs, i);
      FoldMinStep(Far, ys, i);
      p := p.Min(positions[i]);
    }
    assert xs[..|positions|] == xs && ys[..|positions|] == ys;
  }

  /** `find_p_max`: the componentwise maximum folded from (-60000, -60000). */
  method FindPMax(positions: seq<Position>) returns (p: Position)
    ensures fresh(p)
    ensures p.x == FoldMax(-Far, XsOf(Coords(positions)))
    ensures p.y == FoldMax(-Far, YsOf(Coords(positions)))
  {
    ghost var xs, ys := XsOf(Coords(positions)), YsOf(Coords(positions));
    p := new Position(-Far, -Far);
    for i := 0 to |positions|
      invariant fresh(p)
      invariant p.x == FoldMax(-Far, xs[..i]) && p.y == FoldMax(-Far, ys[..i])
    {
      FoldMaxStep(-Far, xs, i);
      FoldMaxStep(-Far, ys, i);
      p := p.Max(positions[i]);
    }
    assert xs[..|positions|] == xs && ys[..|positions|] == ys;
  }

  /** The width of the folded box around some coordinates. */
  function Width(cs: seq<(int, int)>): int {
    FoldMax(-Far, XsOf(cs)) - FoldMin(Far, XsOf(cs))
  }

  /** The height of the folded box around some coordinates. */
  function Height(cs: seq<(int, int)>): int {
    FoldMax(-Far, YsOf(cs)) - FoldMin(Far, YsOf(cs))
  }

  /** The area `area_size` computes for some coordinates. */
  function Area(cs: seq<(int, int)>): int {
    Width(cs) * Height(cs)
  }

  /** `area_size`: the product of the extents of the folded box. */
  method AreaSize(positions: seq<Position>) returns (area: int)
    ensures area == Area(Coords(positions))
  {
    var pMin := FindPMin(positions);
    var pMax := FindPMax(positions);
    var w, h := pMax.x - pMin.x, pMax.y - pMin.y;
    assert w == Width(Coords(positions)) && h == Height(Coords(positions));
    area := w * h;
  }

  /** The points of day10.rs with these coordinates and velocities. */
  function ToPoints(cs: seq<(int, int)>, vs: seq<Velocity>): (ps: seq<Day10.Point>)
    requires |cs| == |vs|
    ensures |ps| == |cs|
  {
    seq(|cs|, i requires 0 <= i < |cs| => Day10.Point(cs[i].0, cs[i].1, vs[i].vx, vs[i].vy))
  }

  /** Each coordinate within the sentinels. */
  predicate WithinFar(cs: seq<(int, int)>) {
    forall i :: 0 <= i < |cs| ==> -Far <= cs[i].0 <= Far && -Far <= cs[i].1 <= Far
  }

  /** For a non-empty list within the sentinels, the folded box is
      day10.rs's bounding box. */
  lemma BoxAgrees(cs: seq<(int, int)>, vs: seq<Velocity>)
    requires |cs| == |vs| && |cs| > 0 && WithinFar(cs)
    ensures var b := Day10.BoundingBox(ToPoints(cs, vs));
      b.maxX - b.minX == Width(cs) && b.maxY - b.minY == Height(cs)
  {
    var ps := ToPoints(cs, vs);
    var xs, ys := XsOf(cs), YsOf(cs);
    assert Day10.Xs(ps) == xs;
    assert Day10.Ys(ps) == ys;
    FoldMinIsMin(xs);
    FoldMaxIsMax(xs);
    FoldMinIsMin(ys);
    FoldMaxIsMax(ys);
  }

  /** For a non-empty list within the sentinels, the script's area is the
      area of day10.rs's bounding box. */
  lemma AreaAgrees(cs: seq<(int, int)>, vs: seq<Velocity>)
    requires |cs| == |vs| && |cs| > 0 && WithinFar(cs)
    ensures Area(cs) == Day10.AreaSize(ToPoints(cs, vs))
  {
    var b := Day10.BoundingBox(ToPoints(cs, vs));
    BoxAgrees(cs, vs);
    assert Day10.AreaSize(ToPoints(cs, vs)) == Day10.BoxArea(b);
  }

  /** The script's ticks move the points as day10.rs's steps do. */
  lemma {:induction false} AfterAgrees(cs: seq<(int, int)>, vs: seq<Velocity>, t: nat)
    requires |cs| == |vs|
    ensures ToPoints(After(cs, vs, t), vs) == Day10.Advance(ToPoints(cs, vs), t)
  {
    if t > 0 {
      var rest := t - 1;
      AfterStep(cs, vs, t, rest);
      Day10.AdvanceStep(ToPoints(cs, vs), t, rest);
      AfterAgrees(cs, vs, rest);
      var a := After(cs, vs, rest);
      assert ToPoints(Moved(a, vs), vs) == Day10.StepEach(ToPoints(a, vs));
    }
  }

  /** The area after `t` ticks. */
  function AreaCurve(cs: seq<(int, int)>, vs: seq<Velocity>): nat -> int
    requires |cs| == |vs|
  {
    (t: nat) => Area(After(cs, vs, t))
  }

  /** The tick at which the `while` loop stops, searching from `t` up to
      `limit`: the first whose area is at most 300 * 300. */
  function FirstSmall(area: nat -> int, t: nat, limit: nat): (r: Option<nat>)
    requires t <= limit
    decreases limit - t
    ensures r.Some? ==> t <= r.value <= limit
  {
    if area(t) <= SmallArea then Some(t)
    else if limit == t then None
    else FirstSmall(area, t + 1, limit)
  }

  /** The search finds the first small area, and finds none only when every
      area up to `limit` is large. */
  lemma {:induction false} FirstSmallIsFirst(area: nat -> int, t: nat, limit: nat)
    requires t <= limit
    decreases limit - t
    ensures var r := FirstSmall(area, t, limit);
      r.Some? ==> area(r.value) <= SmallArea && forall s :: t <= s < r.value ==> area(s) > SmallArea
    ensures FirstSmall(area, t, limit).None? ==> forall s :: t <= s <= limit ==> area(s) > SmallArea
  {
    if area(t) > SmallArea && t < limit {
      FirstSmallIsFirst(area, t + 1, limit);
    }
  }

  lemma FirstSmallStep(area: nat -> int, t: nat, limit: nat)
    requires t < limit && area(t) > SmallArea
    ensures FirstSmall(area, t, limit) == FirstSmall(area, t + 1, limit)
  {
  }

  lemma FirstSmallHere(area: nat -> int, t: nat, limit: nat)
    requires t <= limit && area(t) <= SmallArea
    ensures FirstSmall(area, t, limit) == Some(t)
  {
  }

  lemma FirstSmallNone(area: nat -> int, t: nat)
    requires area(t) > SmallArea
    ensures FirstSmall(area, t, t) == None
  {
  }

  /** The `ticks` the script ends with: 25 past the first tick whose area
      is small, if there is one by tick `limit`. */
  function Outcome(cs: seq<(int, int)>, vs: seq<Velocity>, limit: nat): Option<nat>
    requires |cs| == |vs|
  {
    match FirstSmall(AreaCurve(cs, vs), 0, limit)
    case Some(s) => Some(s + ExtraTicks)
    case None => None
  }

  lemma OutcomeSome(cs: seq<(int, int)>, vs: seq<Velocity>, limit: nat, t: nat)
    requires |cs| == |vs| && FirstSmall(AreaCurve(cs, vs), 0, limit) == Some(t)
    ensures Outcome(cs, vs, limit) == Some(t + ExtraTicks)
  {
  }

  /** The script ends 25 ticks after the first tick `s` at which the area is
      at most 300 * 300. */
  lemma OutcomeIsFirstSmall(cs: seq<(int, int)>, vs: seq<Velocity>, limit: nat, s: nat)
    requires |cs| == |vs| && Outcome(cs, vs, limit) == Some(s + ExtraTicks)
    ensures Area(After(cs, vs, s)) <= SmallArea
    ensures forall u :: 0 <= u < s ==> Area(After(cs, vs, u)) > SmallArea
  {
    var area := AreaCurve(cs, vs);
    var first := FirstSmall(area, 0, limit);
    FirstSmallIsFirst(area, 0, limit);
    assert first == Some(s);
    assert area(s) == Area(After(cs, vs, s));
    forall u | 0 <= u < s
      ensures Area(After(cs, vs, u)) > SmallArea
    {
      assert area(u) > SmallArea;
    }
  }

  /** The script never ends when the area stays above 300 * 300 up to tick
      `limit`. */
  lemma OutcomeNone(cs: seq<(int, int)>, vs: seq<Velocity>, limit: nat, u: nat)
    requires |cs| == |vs| && Outcome(cs, vs, limit) == None && u <= limit
    ensures Area(After(cs, vs, u)) > SmallArea
  {
    var area := AreaCurve(cs, vs);
    FirstSmallIsFirst(area, 0, limit);
    assert area(u) > SmallArea;
  }

  /** The `while` loop of the script: tick while the area exceeds
      300 * 300. The source loops without bound; here it gives up at tick
      `limit`. */
  method TickWhileLarge(positions: seq<Position>, velocities: seq<Velocity>, limit: nat)
    returns (ticks: Option<nat>)
    requires |positions| == |velocities| && Distinct(positions)
    modifies positions
    ensures ticks == FirstSmall(AreaCurve(old(Coords(positions)), velocities), 0, limit)
    ensures ticks.Some? ==>
      Coords(positions) == After(old(Coords(positions)), velocities, ticks.value)
  {
    ghost var start := Coords(positions);
    ghost var curve := AreaCurve(start, velocities);
    var t: nat := 0;
    var area := AreaSize(positions);
    while area > SmallArea
      invariant t <= limit
      invariant Ticked(positions, start, velocities, t)
      invariant area == curve(t)
      invariant FirstSmall(curve, t, limit) == FirstSmall(curve, 0, limit)
      decreases limit - t
    {
      if t == limit {
        FirstSmallNone(curve, t);
        return None;
      }
      FirstSmallStep(curve, t, limit);
      t, area := TickOnce(positions, velocities, start, t);
    }
    FirstSmallHere(curve, t, limit);
    ticks := Some(t);
  }

  /** The positions hold the coordinates `start` reaches after `t` ticks. */
  ghost predicate Ticked(positions: seq<Position>, start: seq<(int, int)>, velocities: seq<Velocity>, t: nat)
    reads positions
  {
    |positions| == |velocities| == |start| && Distinct(positions)
    && Coords(positions) == After(start, velocities, t)
  }

  /** One pass of the `while` loop: a tick, then the new area. */
  method TickOnce(positions: seq<Position>, velocities: seq<Velocity>, ghost start: seq<(int, int)>, t: nat)
    returns (next: nat, area: int)
    requires Ticked(positions, start, velocities, t)
    modifies positions
    ensures next == t + 1 && Ticked(positions, start, velocities, next)
    ensures area == AreaCurve(start, velocities)(next)
  {
    next := t + 1;
    Tick(positions, velocities);
    AfterStep(start, velocities, next, t);
    area := AreaSize(positions);
  }

  /** The `for` loop of the script: `n` more ticks. */
  method TickTimes(positions: seq<Position>, velocities: seq<Velocity>, n: nat,
                   ghost start: seq<(int, int)>, t: nat)
    requires |positions| == |velocities| && Distinct(positions)
    requires |start| == |velocities| && Coords(positions) == After(start, velocities, t)
    modifies positions
    ensures Coords(positions) == After(start, velocities, t + n)
  {
    var u := t;
    while u < t + n
      invariant u <= t + n
      invariant Coords(positions) == After(start, velocities, u)
    {
      var next := u + 1;
      Tick(positions, velocities);
      AfterStep(start, velocities, next, u);
      u := next;
    }
  }

  /** The script: tick while the area exceeds 300 * 300, then 25 more ticks;
      the result is the `ticks` printed for problem 2 and the positions are
      those printed for problem 1. */
  method Align(positions: seq<Position>, velocities: seq<Velocity>, limit: nat)
    returns (ticks: Option<nat>)
    requires |positions| == |velocities| && Distinct(positions)
    modifies positions
    ensures ticks == Outcome(old(Coords(positions)), velocities, limit)
    ensures ticks.Some? ==>
      Coords(positions) == After(old(Coords(positions)), velocities, ticks.value)
  {
    ghost var start := Coords(positions);
    var first := TickWhileLarge(positions, velocities, limit);
    if first.None? {
      assert Outcome(start, velocities, limit) == None;
      return None;
    }
    OutcomeSome(start, velocities, limit, first.value);
    TickTimes(positions, velocities, ExtraTicks, start, first.value);
    ticks := Some(first.value + ExtraTicks);
  }
}
