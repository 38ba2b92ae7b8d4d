/** Mode Maze (rust/src/day22.rs): a cave whose regions are rocky, wet or
    narrow by an erosion level computed from a recursive geologic index,
    cached as it is computed; part 1 sums the risk of the rectangle up to
    the target, part 2 searches for the quickest way to the target with the
    right tool. */
module Day22 {

  import opened Wrappers
  import opened Text
  import opened Tokens

  const Modulus: nat := 20183

  datatype Region = Rocky | Wet | Narrow

  /** Declared in this order, which is the order the heap compares them in. */
  datatype Tool = Torch | ClimbingGear | Neither

  // ---------------------------------------------------------------------
  // The erosion formulas

  /** `geologic_index`: 0 at the mouth and at the target, x·16807 along the
      top edge, y·48271 along the left edge, and elsewhere the product of
      the erosion levels to the left and above. */
  function Geologic(depth: nat, target: (int, int), x: nat, y: nat): nat
    decreases x + y, 0
  {
    if (x, y) == (0, 0) || (x, y) == target then 0
    else if y == 0 then x * 16807
    else if x == 0 then y * 48271
    else Erosion(depth, target, x - 1, y) * Erosion(depth, target, x, y - 1)
  }

  /** `erosion_level`: the geologic index plus the depth, modulo 20183. */
  function Erosion(depth: nat, target: (int, int), x: nat, y: nat): (e: nat)
    ensures e < Modulus
    decreases x + y, 1
  {
    (Geologic(depth, target, x, y) + depth) % Modulus
  }

  /** `region_type`: the erosion level modulo 3. */
  function RegionOf(erosion: nat): (r: Region)
    ensures r == Rocky <==> erosion % 3 == 0
    ensures r == Wet <==> erosion % 3 == 1
    ensures r == Narrow <==> erosion % 3 == 2
  {
    match erosion % 3
    case 0 => Rocky
    case 1 => Wet
    case 2 => Narrow
  }

  /** The region's risk, its discriminant in the Rust enum. */
  function Risk(r: Region): nat {
    match r
    case Rocky => 0
    case Wet => 1
    case Narrow => 2
  }

  /** `valid_tools`, in the order the source lists them. */
  function ToolsFor(r: Region): seq<Tool> {
    match r
    case Rocky => [ClimbingGear, Torch]
    case Wet => [ClimbingGear, Neither]
    case Narrow => [Torch, Neither]
  }

  /** The one tool a region does not allow. */
  function Forbidden(r: Region): Tool {
    match r
    case Rocky => Neither
    case Wet => Torch
    case Narrow => ClimbingGear
  }

  /** Every region allows exactly two distinct tools: all but the one it
      forbids. */
  lemma ToolsAllowed(r: Region, t: Tool)
    ensures |ToolsFor(r)| == 2 && ToolsFor(r)[0] != ToolsFor(r)[1]
    ensures t in ToolsFor(r) <==> t != Forbidden(r)
  {
  }

  /** The region at (x, y) and the tools it allows. */
  function RegionAt(depth: nat, target: (int, int), x: nat, y: nat): Region {
    RegionOf(Erosion(depth, target, x, y))
  }

  // ---------------------------------------------------------------------
  // The cave with its cache

  /** `Cave`: the depth, the target and the erosion cache. */
  class Cave {
    const depth: nat
    const target: (int, int)
    var cache: map<(nat, nat), nat>

    /** Every cached level is the level the formula gives. */
    ghost predicate Valid()
      reads this
    {
      forall p :: p in cache ==> cache[p] == Erosion(depth, target, p.0, p.1)
    }

    constructor (depth: nat, target: (int, int))
      ensures this.depth == depth && this.target == target && cache == map[] && Valid()
    {
      this.depth := depth;
      this.target := target;
      cache := map[];
    }

    method GeologicIndex(x: nat, y: nat) returns (g: nat)
      requires Valid()
      modifies this
      ensures Valid() && g == Geologic(depth, target, x, y)
      ensures old(cache).Keys <= cache.Keys
      decreases x + y, 0
    {
      if (x, y) == (0, 0) || (x, y) == target {
        g := 0;
      } else if y == 0 {
        g := x * 16807;
      } else if x == 0 {
        g := y * 48271;
      } else {
        var left := ErosionLevel(x - 1, y);
        var up := ErosionLevel(x, y - 1);
        g := left * up;
      }
    }

    /** `erosion_level`: from the cache if there, else computed and cached. */
    method ErosionLevel(x: nat, y: nat) returns (e: nat)
      requires Valid()
      modifies this
      ensures Valid() && e == Erosion(depth, target, x, y) && (x, y) in cache
      ensures old(cache).Keys <= cache.Keys
      decreases x + y, 1
    {
      if (x, y) in cache {
        return cache[(x, y)];
      }
      var g := GeologicIndex(x, y);
      e := (g + depth) % Modulus;
      cache := cache[(x, y) := e];
    }

    method RegionType(x: nat, y: nat) returns (r: Region)
      requires Valid()
      modifies this
      ensures Valid() && r == RegionAt(depth, target, x, y)
    {
      var e := ErosionLevel(x, y);
      r := RegionOf(e);
    }

    method ValidTools(x: nat, y: nat) returns (tools: seq<Tool>)
      requires Valid()
      modifies this
      ensures Valid() && tools == ToolsFor(RegionAt(depth, target, x, y))
    {
      var r := RegionType(x, y);
      tools := ToolsFor(r);
    }
  }

  /** The cached level of the mouth is the depth modulo 20183. */
  lemma MouthErosion(depth: nat, target: (int, int))
    ensures Erosion(depth, target, 0, 0) == depth % Modulus
  {
  }

  // ---------------------------------------------------------------------
  // parse_input

  const DepthTag: string := "depth: "
  const TargetTag: string := "target: "

  /** Every piece parsed as an i32, or None if one fails. */
  function ParseNumbers(parts: seq<string>): (r: Option<seq<int>>)
    ensures r.Some? ==> |r.value| == |parts|
    ensures r.Some? ==> forall k :: 0 <= k < |parts| ==> ParseI32(parts[k]) == Some(r.value[k])
  {
    if parts == [] then Some([])
    else
      match ParseI32(parts[0])
      case None => None
      case Some(v) =>
        match ParseNumbers(parts[1..])
        case None => None
        case Some(vs) => Some([v] + vs)
  }

  /** `parse_input`: "depth: d" on the first line and "target: x,y" on the
      second; None where an `unwrap` or an index panics. */
  function ParseInput(lines: seq<string>): (r: Option<(int, (int, int))>)
    ensures r.Some? ==> |lines| >= 2 && DepthTag <= lines[0] && TargetTag <= lines[1]
    ensures r.Some? ==> ParseI32(lines[0][|DepthTag|..]) == Some(r.value.0)
    ensures r.Some? ==> var parts := SplitOn(lines[1][|TargetTag|..], ',');
                        |parts| >= 2 && ParseI32(parts[0]) == Some(r.value.1.0)
                        && ParseI32(parts[1]) == Some(r.value.1.1)
  {
    if |lines| < 2 || !(DepthTag <= lines[0]) || !(TargetTag <= lines[1]) then None
    else
      match ParseI32(lines[0][|DepthTag|..])
      case None => None
      case Some(depth) =>
        match ParseNumbers(SplitOn(lines[1][|TargetTag|..], ','))
        case None => None
        case Some(vs) => if |vs| < 2 then None else Some((depth, (vs[0], vs[1])))
  }

  /** The puzzle input for any i32 depth and target, as the puzzle writes it. */
  function ShowInput(depth: int, target: (int, int)): seq<string> {
    [DepthTag + ShowInt(depth), TargetTag + JoinOn([ShowInt(target.0), ShowInt(target.1)], ',')]
  }

  lemma NoComma(i: int)
    ensures ',' !in ShowInt(i)
  {
    var s := ShowInt(i);
    assert forall k :: 0 <= k < |s| ==> s[k] == '-' || IsDigit(s[k]);
  }

  lemma ParsePair(a: string, b: string, va: int, vb: int)
    requires ParseI32(a) == Some(va) && ParseI32(b) == Some(vb)
    ensures ParseNumbers([a, b]) == Some([va, vb])
  {
    assert [b][0] == b && [b][1..] == [] && [vb] + [] == [vb];
    assert ParseNumbers([]) == Some([]);
    assert ParseNumbers([b]) == Some([vb]);
    assert [a, b][0] == a && [va] + [vb] == [va, vb];
    assert [a, b][1..] == [b];
  }

  /** Parsing the written input gives the depth and the target back. */
  lemma ParseShowInput(depth: int, target: (int, int))
    requires I32_MIN <= depth <= I32_MAX
    requires I32_MIN <= target.0 <= I32_MAX && I32_MIN <= target.1 <= I32_MAX
    ensures ParseInput(ShowInput(depth, target)) == Some((depth, target))
  {
    var lines := ShowInput(depth, target);
    var pair := [ShowInt(target.0), ShowInt(target.1)];
    assert lines[0][|DepthTag|..] == ShowInt(depth);
    assert lines[1][|TargetTag|..] == JoinOn(pair, ',');
    NoComma(target.0);
    NoComma(target.1);
    SplitJoinOn(pair, ',');
    ParseShowI32(depth);
    ParseShowI32(target.0);
    ParseShowI32(target.1);
    ParsePair(pair[0], pair[1], target.0, target.1);
  }

  // ---------------------------------------------------------------------
  // part1

  /** The risk of row y for x < width. */
  function RowRisk(depth: nat, target: (int, int), y: nat, width: nat): nat {
    if width == 0 then 0 else RowRisk(depth, target, y, width - 1) + Risk(RegionAt(depth, target, width - 1, y))
  }

  /** The risk of rows y < height, x < width. */
  function AreaRisk(depth: nat, target: (int, int), width: nat, height: nat): nat {
    if height == 0 then 0 else AreaRisk(depth, target, width, height - 1) + RowRisk(depth, target, height - 1, width)
  }

  /** Every region's risk is at most 2, so an area's is at most twice its
      size. */
  lemma {:induction false} AreaRiskBound(depth: nat, target: (int, int), width: nat, height: nat)
    ensures AreaRisk(depth, target, width, height) <= 2 * (width * height)
  {
    if height > 0 {
      AreaRiskBound(depth, target, width, height - 1);
      RowRiskBound(depth, target, height - 1, width);
      assert width * height == width * (height - 1) + width;
    }
  }

  lemma {:induction false} RowRiskBound(depth: nat, target: (int, int), y: nat, width: nat)
    ensures RowRisk(depth, target, y, width) <= 2 * width
  {
    if width > 0 {
      RowRiskBound(depth, target, y, width - 1);
    }
  }

  function Span(v: int): nat {
    if v < 0 then 0 else v + 1
  }

  /** `part1`: the risk of every region from (0, 0) to the target, both
      included. */
  method Part1(depth: nat, target: (int, int)) returns (risk: nat)
    ensures risk == AreaRisk(depth, target, Span(target.0), Span(target.1))
  {
    var cave := new Cave(depth, target);
    risk := 0;
    var y := 0;
    while y <= target.1
      invariant cave.Valid() && cave.depth == depth && cave.target == target
      invariant 0 <= y <= Span(target.1)
      invariant risk == AreaRisk(depth, target, Span(target.0), y)
    {
      var x := 0;
      ghost var above := risk;
      while x <= target.0
        invariant cave.Valid() && cave.depth == depth && cave.target == target
        invariant 0 <= x <= Span(target.0)
        invariant risk == above + RowRisk(depth, target, y, x)
      {
        var r := cave.RegionType(x, y);
        risk := risk + Risk(r);
        x := x + 1;
      }
      y := y + 1;
    }
  }

  // ---------------------------------------------------------------------
  // part2: the steps of the search

  /** A heap entry: the time, the position and the tool held. */
  datatype State = State(time: int, x: int, y: int, tool: Tool)

  const Mouth: State := State(0, 0, 0, Torch)

  /** Changing tools: 7 minutes, to another tool the region allows. */
  predicate Switch(depth: nat, target: (int, int), a: State, b: State) {
    && a.x >= 0 && a.y >= 0
    && b.x == a.x && b.y == a.y && b.tool != a.tool
    && b.tool in ToolsFor(RegionAt(depth, target, a.x, a.y))
    && b.time == a.time + 7
  }

  /** Moving: 1 minute, one step up, down, left or right, within
      target + 100 on each axis, into a region that allows the tool held. */
  predicate Move(depth: nat, target: (int, int), a: State, b: State) {
    && (b.x - a.x) * (b.x - a.x) + (b.y - a.y) * (b.y - a.y) == 1
    && 0 <= b.x <= target.0 + 100 && 0 <= b.y <= target.1 + 100
    && b.tool == a.tool && a.tool in ToolsFor(RegionAt(depth, target, b.x, b.y))
    && b.time == a.time + 1
  }

  /** A route from the mouth: each state a switch or a move from the one
      before, so the time of the last is the cost of the route. */
  ghost predicate Route(depth: nat, target: (int, int), route: seq<State>) {
    && route != [] && route[0] == Mouth
    && forall k :: 0 < k < |route| ==>
         Switch(depth, target, route[k - 1], route[k]) || Move(depth, target, route[k - 1], route[k])
  }

  ghost predicate Reachable(depth: nat, target: (int, int), s: State) {
    exists route :: Route(depth, target, route) && route[|route| - 1] == s
  }

  lemma MouthReachable(depth: nat, target: (int, int))
    ensures Reachable(depth, target, Mouth)
  {
    assert Route(depth, target, [Mouth]);
  }

  lemma StepReachable(depth: nat, target: (int, int), a: State, b: State)
    requires Reachable(depth, target, a)
    requires Switch(depth, target, a, b) || Move(depth, target, a, b)
    ensures Reachable(depth, target, b)
  {
    var route :| Route(depth, target, route) && route[|route| - 1] == a;
    var longer := route + [b];
    assert forall k :: 0 <= k < |route| ==> longer[k] == route[k];
    assert Route(depth, target, longer);
  }

  /** At a position with non-negative coordinates, at a time of at least 0. */
  ghost predicate Placed(s: State) {
    s.x >= 0 && s.y >= 0 && s.time >= 0
  }

  /** Every state on a route is placed, and later than the one before;
      past the mouth it holds a tool its region allows. */
  lemma {:induction false} RoutePlaced(depth: nat, target: (int, int), route: seq<State>, k: nat)
    requires Route(depth, target, route) && k < |route|
    ensures Placed(route[k]) && (k > 0 ==> route[k].time > route[k - 1].time)
    ensures k > 0 ==> route[k].tool in ToolsFor(RegionAt(depth, target, route[k].x, route[k].y))
  {
    if k > 0 {
      RoutePlaced(depth, target, route, k - 1);
      assert Switch(depth, target, route[k - 1], route[k]) || Move(depth, target, route[k - 1], route[k]);
    }
  }

  /** A reachable state lies at non-negative coordinates and time; once
      the clock has run, its tool is one its region allows (the mouth
      itself starts with the torch whatever its region). */
  lemma ReachablePlaced(depth: nat, target: (int, int), s: State)
    requires Reachable(depth, target, s)
    ensures Placed(s)
    ensures s.time > 0 ==> s.tool in ToolsFor(RegionAt(depth, target, s.x, s.y))
  {
    var route :| Route(depth, target, route) && route[|route| - 1] == s;
    RoutePlaced(depth, target, route, |route| - 1);
  }

  /** The heap order: time first, then position, then tool. */
  predicate Before(a: State, b: State) {
    a.time < b.time
    || (a.time == b.time && (a.x < b.x
    || (a.x == b.x && (a.y < b.y
    || (a.y == b.y && ToolRank(a.tool) < ToolRank(b.tool))))))
  }

  function ToolRank(t: Tool): nat {
    match t
    case Torch => 0
    case ClimbingGear => 1
    case Neither => 2
  }

  /** `pop` on the `Reverse` heap: a least state and the others. */
  method PopMin(heap: seq<State>) returns (s: State, rest: seq<State>)
    requires heap != []
    ensures s in heap && forall o :: o in heap ==> !Before(o, s)
    ensures forall o :: o in rest ==> o in heap
    ensures multiset(rest) + multiset{s} == multiset(heap)
  {
    var m := 0;
    for i := 1 to |heap|
      invariant m < i
      invariant forall j :: 0 <= j < i ==> !Before(heap[j], heap[m])
    {
      if Before(heap[i], heap[m]) {
        m := i;
      }
    }
    s := heap[m];
    rest := heap[..m] + heap[m + 1..];
    assert heap == heap[..m] + [s] + heap[m + 1..];
  }

  /** Every state in the heap is reachable and placed. */
  ghost predicate Sound(depth: nat, target: (int, int), heap: seq<State>) {
    forall s :: s in heap ==> Reachable(depth, target, s) && Placed(s)
  }

  /** `visited.get(key).map_or(true, |&t| time < t)`. */
  function Improves(visited: map<(int, int, Tool), int>, s: State): bool {
    (s.x, s.y, s.tool) !in visited || s.time < visited[(s.x, s.y, s.tool)]
  }

  /** The tool changes at s's region: each tool it allows other than the
      one held, 7 minutes on, unless already visited as soon. */
  method PushSwitches(cave: Cave, s: State, visited: map<(int, int, Tool), int>, heap: seq<State>)
    returns (heap': seq<State>)
    requires cave.Valid() && Placed(s) && Reachable(cave.depth, cave.target, s)
    requires Sound(cave.depth, cave.target, heap)
    modifies cave
    ensures cave.Valid() && Sound(cave.depth, cave.target, heap')
    ensures forall o :: o in heap' ==> o in heap || Switch(cave.depth, cave.target, s, o)
  {
    var tools := cave.ValidTools(s.x, s.y);
    heap' := heap;
    for i := 0 to |tools|
      invariant cave.Valid() && Sound(cave.depth, cave.target, heap')
      invariant forall o :: o in heap' ==> o in heap || Switch(cave.depth, cave.target, s, o)
    {
      var t := tools[i];
      if t != s.tool {
        var next := State(s.time + 7, s.x, s.y, t);
        if Improves(visited, next) {
          StepReachable(cave.depth, cave.target, s, next);
          heap' := heap' + [next];
        }
      }
    }
  }

  /** The moves from s: each neighbour within bounds whose region allows the
      tool held, 1 minute on, unless already visited as soon. */
  method PushMoves(cave: Cave, s: State, visited: map<(int, int, Tool), int>, heap: seq<State>)
    returns (heap': seq<State>)
    requires cave.Valid() && Placed(s) && Reachable(cave.depth, cave.target, s)
    requires Sound(cave.depth, cave.target, heap)
    modifies cave
    ensures cave.Valid() && Sound(cave.depth, cave.target, heap')
    ensures forall o :: o in heap' ==> o in heap || Move(cave.depth, cave.target, s, o)
  {
    var deltas := [(0, 1), (1, 0), (0, -1), (-1, 0)];
    heap' := heap;
    for i := 0 to 4
      invariant cave.Valid() && Sound(cave.depth, cave.target, heap')
      invariant forall o :: o in heap' ==> o in heap || Move(cave.depth, cave.target, s, o)
    {
      var nx, ny := s.x + deltas[i].0, s.y + deltas[i].1;
      if nx >= 0 && ny >= 0 && nx <= cave.target.0 + 100 && ny <= cave.target.1 + 100 {
        var tools := cave.ValidTools(nx, ny);
        if s.tool in tools {
          var next := State(s.time + 1, nx, ny, s.tool);
          if Improves(visited, next) {
            StepReachable(cave.depth, cave.target, s, next);
            heap' := heap' + [next];
          }
        }
      }
    }
  }

  /** `part2` for at most fuel pops: Some(time) when the target is popped
      holding the torch, Some(-1) when the heap runs dry, None when fuel
      runs out. A time it returns is the cost of a real route to the target
      with the torch. */
  method Part2(depth: nat, target: (int, int), fuel: nat) returns (r: Option<int>)
    ensures r.Some? && r.value != -1 ==>
              r.value >= 0 && Reachable(depth, target, State(r.value, target.0, target.1, Torch))
  {
    var cave := new Cave(depth, target);
    var heap := [Mouth];
    var visited: map<(int, int, Tool), int> := map[];
    MouthReachable(depth, target);
    var left := fuel;
    while heap != []
      invariant cave.Valid() && cave.depth == depth && cave.target == target
      invariant Sound(depth, target, heap)
      decreases left
    {
      if left == 0 {
        return None;
      }
      left := left - 1;
      var s, rest := PopMin(heap);
      assert Reachable(depth, target, s) && Placed(s);
      heap := rest;
      if (s.x, s.y) == target && s.tool == Torch {
        return Some(s.time);
      }
      var key := (s.x, s.y, s.tool);
      if key in visited && s.time >= visited[key] {
        continue;
      }
      visited := visited[key := s.time];
      heap := PushSwitches(cave, s, visited, heap);
      heap := PushMoves(cave, s, visited, heap);
    }
    return Some(-1);
  }
}
