/** Experimental Emergency Teleportation (rust/src/day23.rs): nanobots with
    a position and a signal radius; part 1 counts the bots in range of the
    strongest one, part 2 searches cubes of space with a priority queue for
    a point in range of many bots. */
module Day23 {

  import opened Wrappers

  const I64_MAX: int := 0x7FFF_FFFF_FFFF_FFFF

  datatype Nanobot = Nanobot(x: int, y: int, z: int, r: int)

  function Abs(v: int): nat {
    if v < 0 then -v else v
  }

  /** `manhattan_distance` from the bot to the point (x, y, z). */
  function Distance(b: Nanobot, x: int, y: int, z: int): (d: int)
    ensures d >= 0
  {
    Abs(b.x - x) + Abs(b.y - y) + Abs(b.z - z)
  }

  /** The distance is 0 exactly at the bot's own position. */
  lemma DistanceZero(b: Nanobot, x: int, y: int, z: int)
    ensures Distance(b, x, y, z) == 0 <==> b.x == x && b.y == y && b.z == z
  {
  }

  /** `in_range`: the other bot's position is within this bot's radius. */
  predicate InRange(b: Nanobot, other: Nanobot) {
    Distance(b, other.x, other.y, other.z) <= b.r
  }

  // ---------------------------------------------------------------------
  // part1

  /** k is what `max_by_key(r)` returns: a largest radius, and the last
      one among equals. */
  predicate IsStrongest(bots: seq<Nanobot>, k: nat) {
    && k < |bots|
    && (forall j :: 0 <= j < |bots| ==> bots[j].r <= bots[k].r)
    && forall j :: k < j < |bots| ==> bots[j].r < bots[k].r
  }

  lemma StrongestUnique(bots: seq<Nanobot>, k: nat, m: nat)
    requires IsStrongest(bots, k) && IsStrongest(bots, m)
    ensures k == m
  {
    assert bots[k].r <= bots[m].r && bots[m].r <= bots[k].r;
  }

  /** `max_by_key(|bot| bot.r)`: a scan that keeps the later of equals. */
  method Strongest(bots: seq<Nanobot>) returns (k: nat)
    requires bots != []
    ensures IsStrongest(bots, k)
  {
    k := 0;
    for i := 1 to |bots|
      invariant k < i
      invariant forall j :: 0 <= j < i ==> bots[j].r <= bots[k].r
      invariant forall j :: k < j < i ==> bots[j].r < bots[k].r
    {
      if bots[i].r >= bots[k].r {
        k := i;
      }
    }
  }

  /** The bots in range of bot k, by index. */
  function Reach(bots: seq<Nanobot>, k: nat): set<nat>
    requires k < |bots|
  {
    set j | 0 <= j < |bots| && InRange(bots[k], bots[j])
  }

  /** `filter(in_range).count()`. */
  method CountInRange(bots: seq<Nanobot>, k: nat) returns (count: nat)
    requires k < |bots|
    ensures count == |Reach(bots, k)|
  {
    count := 0;
    ghost var counted: set<nat> := {};
    for i := 0 to |bots|
      invariant counted == set j | 0 <= j < i && InRange(bots[k], bots[j])
      invariant count == |counted|
    {
      if InRange(bots[k], bots[i]) {
        counted := counted + {i};
        count := count + 1;
      }
    }
  }

  /** `part1`: how many bots the strongest reaches; None (a panic) without
      bots. */
  method Part1(bots: seq<Nanobot>) returns (r: Option<nat>)
    ensures r.None? <==> bots == []
    ensures r.Some? ==> exists k :: IsStrongest(bots, k) && r.value == |Reach(bots, k)|
  {
    if bots == [] {
      return None;
    }
    var k := Strongest(bots);
    var count := CountInRange(bots, k);
    return Some(count);
  }

  /** A bot with a radius of 0 or more reaches itself, so part1 counts at
      least one. */
  lemma ReachesItself(bots: seq<Nanobot>, k: nat)
    requires k < |bots| && bots[k].r >= 0
    ensures k in Reach(bots, k) && |Reach(bots, k)| >= 1
  {
  }

  function Sample1(): seq<Nanobot> {
    [Nanobot(0, 0, 0, 4), Nanobot(1, 0, 0, 1), Nanobot(4, 0, 0, 3),
     Nanobot(0, 2, 0, 1), Nanobot(0, 5, 0, 3), Nanobot(0, 0, 3, 1),
     Nanobot(1, 1, 1, 1), Nanobot(1, 1, 2, 1), Nanobot(1, 3, 1, 1)]
  }

  lemma Sample1Strongest(bots: seq<Nanobot>)
    requires bots == Sample1()
    ensures IsStrongest(bots, 0)
  {
    forall j | 0 <= j < |bots|
      ensures bots[j].r <= 4
    {
      if j == 0 {} else if j == 1 {} else if j == 2 {} else if j == 3 {} else if j == 4 {}
      else if j == 5 {} else if j == 6 {} else if j == 7 {} else {}
    }
  }

  lemma Sample1Within(bots: seq<Nanobot>)
    requires bots == Sample1()
    ensures Reach(bots, 0) <= {0, 1, 2, 3, 5, 6, 7}
  {
    forall j | j in Reach(bots, 0)
      ensures j in {0, 1, 2, 3, 5, 6, 7}
    {
      if j == 4 {} else if j == 8 {}
    }
  }

  lemma Sample1Reached(bots: seq<Nanobot>, j: nat)
    requires bots == Sample1() && j in {0, 1, 2, 3, 5, 6, 7}
    ensures j in Reach(bots, 0)
  {
    if j == 0 {} else if j == 1 {} else if j == 2 {} else if j == 3 {} else if j == 5 {}
    else if j == 6 {} else {}
  }

  lemma Sample1Members(bots: seq<Nanobot>)
    requires bots == Sample1()
    ensures Reach(bots, 0) == {0, 1, 2, 3, 5, 6, 7}
  {
    Sample1Within(bots);
    forall j: nat | j in {0, 1, 2, 3, 5, 6, 7}
      ensures j in Reach(bots, 0)
    {
      Sample1Reached(bots, j);
    }
  }

  /** The first sample: the bot at the origin is strongest and reaches 7. */
  lemma Sample1Reach(bots: seq<Nanobot>)
    requires bots == Sample1()
    ensures IsStrongest(bots, 0) && |Reach(bots, 0)| == 7
  {
    Sample1Strongest(bots);
    Sample1Members(bots);
    SevenIndices();
  }

  lemma SevenIndices()
    ensures var s: set<nat> := {0, 1, 2, 3, 5, 6, 7}; |s| == 7
  {
  }

  // ---------------------------------------------------------------------
  // count_in_range

  /** How far v lies outside [lo, lo + size] on one axis. */
  function Gap(lo: int, size: int, v: int): (g: int)
    ensures g >= 0
  {
    if lo > v then lo - v else if lo + size < v then v - (lo + size) else 0
  }

  /** The bot's range meets the cube [x, x + size]³. */
  predicate Touches(b: Nanobot, x: int, y: int, z: int, size: int) {
    Gap(x, size, b.x) + Gap(y, size, b.y) + Gap(z, size, b.z) <= b.r
  }

  /** The bots whose range meets the cube, by index. */
  function CubeReach(bots: seq<Nanobot>, x: int, y: int, z: int, size: int): set<nat>
  {
    set j | 0 <= j < |bots| && Touches(bots[j], x, y, z, size)
  }

  /** `count_in_range`. */
  method CountTouching(bots: seq<Nanobot>, x: int, y: int, z: int, size: int) returns (count: int)
    ensures count == |CubeReach(bots, x, y, z, size)|
  {
    count := 0;
    ghost var counted: set<nat> := {};
    for i := 0 to |bots|
      invariant counted == set j | 0 <= j < i && Touches(bots[j], x, y, z, size)
      invariant count == |counted|
    {
      var bot := bots[i];
      var dx := if x > bot.x then x - bot.x else if x + size < bot.x then bot.x - (x + size) else 0;
      var dy := if y > bot.y then y - bot.y else if y + size < bot.y then bot.y - (y + size) else 0;
      var dz := if z > bot.z then z - bot.z else if z + size < bot.z then bot.z - (z + size) else 0;
      if dx + dy + dz <= bot.r {
        counted := counted + {i};
        count := count + 1;
      }
    }
  }

  /** A cube of size 0 is a point, and a bot touches it exactly when the
      point is in range. */
  lemma PointCube(b: Nanobot, x: int, y: int, z: int)
    ensures Touches(b, x, y, z, 0) <==> Distance(b, x, y, z) <= b.r
  {
  }

  /** A smaller interval inside a larger one is at least as far from v. */
  lemma GapInside(lo: int, size: int, lo': int, size': int, v: int)
    requires lo <= lo' && 0 <= size' && lo' + size' <= lo + size
    ensures Gap(lo, size, v) <= Gap(lo', size', v)
  {
  }

  /** A cube inside another is touched by no more bots. */
  lemma InnerCubeReach(bots: seq<Nanobot>, x: int, y: int, z: int, size: int,
                       x': int, y': int, z': int, size': int)
    requires 0 <= size' && x <= x' && x' + size' <= x + size
    requires y <= y' && y' + size' <= y + size && z <= z' && z' + size' <= z + size
    ensures CubeReach(bots, x', y', z', size') <= CubeReach(bots, x, y, z, size)
    ensures |CubeReach(bots, x', y', z', size')| <= |CubeReach(bots, x, y, z, size)|
  {
    forall j | j in CubeReach(bots, x', y', z', size')
      ensures j in CubeReach(bots, x, y, z, size)
    {
      GapInside(x, size, x', size', bots[j].x);
      GapInside(y, size, y', size', bots[j].y);
      GapInside(z, size, z', size', bots[j].z);
    }
    SubsetSize(CubeReach(bots, x', y', z', size'), CubeReach(bots, x, y, z, size));
  }

  lemma {:induction false} SubsetSize<T>(a: set<T>, b: set<T>)
    requires a <= b
    ensures |a| <= |b|
    decreases |b|
  {
    if a != {} {
      var e :| e in a;
      SubsetSize(a - {e}, b - {e});
    }
  }

  /** Each of the eight children of part2 (offset 0 or 1 half-size on each
      axis) lies inside its parent, so it is touched by no more bots. */
  lemma ChildReach(bots: seq<Nanobot>, x: int, y: int, z: int, size: int, dx: int, dy: int, dz: int)
    requires size >= 0 && 0 <= dx <= 1 && 0 <= dy <= 1 && 0 <= dz <= 1
    ensures var half := size / 2;
            |CubeReach(bots, x + dx * half, y + dy * half, z + dz * half, half)| <= |CubeReach(bots, x, y, z, size)|
  {
    var half := size / 2;
    assert 0 <= dx * half <= half && 0 <= dy * half <= half && 0 <= dz * half <= half;
    InnerCubeReach(bots, x, y, z, size, x + dx * half, y + dy * half, z + dz * half, half);
  }

  /** The children do not cover an odd-sized parent: its far face on the x
      axis lies in none of them. */
  lemma OddFaceUncovered(x: int, size: int, dx: int)
    requires size >= 1 && size % 2 == 1 && 0 <= dx <= 1
    ensures !(x + dx * (size / 2) <= x + size <= x + dx * (size / 2) + size / 2)
  {
  }

  // ---------------------------------------------------------------------
  // part2

  /** A queue entry: the tuple (count, distance, size, x, y, z). */
  datatype Entry = Entry(count: int, dist: int, size: int, x: int, y: int, z: int)

  /** The order of Rust tuples: field by field, from the first. */
  predicate Below(a: Entry, b: Entry) {
    a.count < b.count
    || (a.count == b.count && (a.dist < b.dist
    || (a.dist == b.dist && (a.size < b.size
    || (a.size == b.size && (a.x < b.x
    || (a.x == b.x && (a.y < b.y
    || (a.y == b.y && a.z < b.z)))))))))
  }

  /** `BinaryHeap::pop`: a greatest entry and the others. */
  method PopMax(queue: seq<Entry>) returns (e: Entry, rest: seq<Entry>)
    requires queue != []
    ensures e in queue && forall o :: o in queue ==> !Below(e, o)
    ensures multiset(rest) + multiset{e} == multiset(queue)
    ensures exists i :: 0 <= i < |queue| && queue[i] == e && rest == queue[..i] + queue[i + 1..]
  {
    var m := 0;
    for i := 1 to |queue|
      invariant m < i
      invariant forall j :: 0 <= j < i ==> !Below(queue[m], queue[j])
    {
      if Below(queue[m], queue[i]) {
        m := i;
      }
    }
    e := queue[m];
    rest := queue[..m] + queue[m + 1..];
    assert queue == queue[..m] + [e] + queue[m + 1..];
  }

  /** Queue entries do not say how many bots touch their cube as a cache
      would: they are what count_in_range returned for it. */
  ghost predicate Counted(bots: seq<Nanobot>, queue: seq<Entry>) {
    forall k :: 0 <= k < |queue| ==>
      queue[k].size >= 0 && queue[k].count == |CubeReach(bots, queue[k].x, queue[k].y, queue[k].z, queue[k].size)|
  }

  /** The work left in a cube: itself and, unless it is a point, its eight
      children's. */
  function Weight(size: int): (w: nat)
    ensures w >= 1
    decreases if size <= 0 then 0 else size
  {
    if size <= 0 then 1 else 1 + 8 * Weight(size / 2)
  }

  function Total(queue: seq<Entry>): nat {
    if queue == [] then 0 else Weight(queue[0].size) + Total(queue[1..])
  }

  lemma {:induction false} TotalAppend(queue: seq<Entry>, e: Entry)
    ensures Total(queue + [e]) == Total(queue) + Weight(e.size)
  {
    if queue != [] {
      assert (queue + [e])[1..] == queue[1..] + [e];
      TotalAppend(queue[1..], e);
    }
  }

  lemma {:induction false} TotalConcat(a: seq<Entry>, b: seq<Entry>)
    ensures Total(a + b) == Total(a) + Total(b)
  {
    if a != [] {
      assert (a + b)[1..] == a[1..] + b;
      TotalConcat(a[1..], b);
    } else {
      assert a + b == b;
    }
  }

  lemma TotalRemove(queue: seq<Entry>, i: nat)
    requires i < |queue|
    ensures Total(queue) == Total(queue[..i] + queue[i + 1..]) + Weight(queue[i].size)
  {
    var front, back := queue[..i], queue[i + 1..];
    var mid := [queue[i]] + back;
    assert queue == front + mid;
    TotalConcat(front, mid);
    TotalConcat(front, back);
    assert Total(mid) == Weight(queue[i].size) + Total(back) by {
      assert mid[0] == queue[i] && mid[1..] == back;
    }
  }

  /** n times w, by repeated addition. */
  function Times(n: nat, w: nat): nat {
    if n == 0 then 0 else Times(n - 1, w) + w
  }

  lemma TimesEight(w: nat)
    ensures Times(8, w) == 8 * w
  {
    assert Times(1, w) == w;
    assert Times(2, w) == 2 * w;
    assert Times(3, w) == 3 * w;
    assert Times(4, w) == 4 * w;
    assert Times(5, w) == 5 * w;
    assert Times(6, w) == 6 * w;
    assert Times(7, w) == 7 * w;
  }

  /** The best so far is the initial one, or a point some bots reach whose
      count and distance from the origin it records. */
  ghost predicate Witnessed(bots: seq<Nanobot>, bestCount: int, bestDistance: int) {
    (bestCount == 0 && bestDistance == I64_MAX)
    || exists x, y, z :: |CubeReach(bots, x, y, z, 0)| == bestCount && Abs(x) + Abs(y) + Abs(z) == bestDistance
  }

  /** The best at a leaf: a higher count wins, and an equal count wins when
      it is nearer the origin. */
  function Consider(bestCount: int, bestDistance: int, count: int, dist: int): (r: (int, int))
    ensures r == (bestCount, bestDistance) || r == (count, dist)
    ensures r.0 >= bestCount && (r.0 == bestCount ==> r.1 <= bestDistance)
    ensures r == (count, dist) <==> count > bestCount || (count == bestCount && dist <= bestDistance)
  {
    if count > bestCount || (count == bestCount && dist < bestDistance) then (count, dist)
    else (bestCount, bestDistance)
  }

  /** One child of the entry being split: counted, and queued when its count
      is at least the best so far. */
  method PushChild(bots: seq<Nanobot>, queue: seq<Entry>, bestCount: int, nx: int, ny: int, nz: int, half: int)
    returns (queue': seq<Entry>)
    requires half >= 0 && Counted(bots, queue)
    ensures Counted(bots, queue') && Total(queue') <= Total(queue) + Weight(half)
    ensures queue' == queue
            || queue' == queue + [Entry(|CubeReach(bots, nx, ny, nz, half)|, Abs(nx) + Abs(ny) + Abs(nz), half, nx, ny, nz)]
  {
    var n := CountTouching(bots, nx, ny, nz, half);
    queue' := queue;
    if n >= bestCount {
      var dist := Abs(nx) + Abs(ny) + Abs(nz);
      var e := Entry(n, dist, half, nx, ny, nz);
      queue' := queue + [e];
      TotalAppend(queue, e);
    }
  }

  /** `part2`: the distance from the origin of the best point found, i64::MAX
      if none; None (a panic) without bots. The result, when found, is the
      distance of a point the recorded number of bots reach. */
  /** The three loops over dx, dy, dz: the eight children of cube `e`, each
      queued unless it reaches fewer bots than the best. */
  method PushChildren(bots: seq<Nanobot>, queue: seq<Entry>, bestCount: int, e: Entry) returns (queue': seq<Entry>)
    requires e.size > 0 && Counted(bots, queue)
    ensures Counted(bots, queue') && Total(queue') < Total(queue) + Weight(e.size)
  {
    queue' := queue;
    var half := e.size / 2;
    ghost var pushed := 0;
    for dx := 0 to 2
      invariant Counted(bots, queue') && pushed == dx * 4 && Total(queue') <= Total(queue) + Times(pushed, Weight(half))
    {
      for dy := 0 to 2
        invariant Counted(bots, queue') && pushed == dx * 4 + dy * 2 && Total(queue') <= Total(queue) + Times(pushed, Weight(half))
      {
        for dz := 0 to 2
          invariant Counted(bots, queue') && pushed == dx * 4 + dy * 2 + dz
          invariant Total(queue') <= Total(queue) + Times(pushed, Weight(half))
        {
          queue' := PushChild(bots, queue', bestCount, e.x + dx * half, e.y + dy * half, e.z + dz * half, half);
          pushed := pushed + 1;
        }
      }
    }
    assert Weight(e.size) == 1 + 8 * Weight(half);
    TimesEight(Weight(half));
  }

  /** One turn of the search: the most promising cube leaves the queue and
      is either dropped, scored as a point, or split into its children. */
  method Explore(bots: seq<Nanobot>, queue: seq<Entry>, bestCount: int, bestDistance: int)
    returns (queue': seq<Entry>, bestCount': int, bestDistance': int)
    requires queue != [] && Counted(bots, queue) && Witnessed(bots, bestCount, bestDistance)
    ensures Counted(bots, queue') && Witnessed(bots, bestCount', bestDistance')
    ensures Total(queue') < Total(queue)
  {
    bestCount', bestDistance' := bestCount, bestDistance;
    var e, rest := PopMax(queue);
    ghost var i :| 0 <= i < |queue| && queue[i] == e && rest == queue[..i] + queue[i + 1..];
    TotalRemove(queue, i);
    assert e.size >= 0 && e.count == |CubeReach(bots, e.x, e.y, e.z, e.size)|;
    queue' := rest;
    if e.count < bestCount {
      return;
    }
    if e.size == 0 {
      var dist := Abs(e.x) + Abs(e.y) + Abs(e.z);
      var best := Consider(bestCount, bestDistance, e.count, dist);
      bestCount', bestDistance' := best.0, best.1;
      return;
    }
    queue' := PushChildren(bots, queue', bestCount, e);
  }

  method Part2(bots: seq<Nanobot>) returns (r: Option<int>)
    ensures r.None? <==> bots == []
    ensures r.Some? ==> exists bestCount :: Witnessed(bots, bestCount, r.value)
  {
    if bots == [] {
      return None;
    }
    var minX, maxX, minY, maxY, minZ, maxZ := bots[0].x, bots[0].x, bots[0].y, bots[0].y, bots[0].z, bots[0].z;
    for i := 1 to |bots|
      invariant minX <= maxX && minY <= maxY && minZ <= maxZ
    {
      minX := if bots[i].x < minX then bots[i].x else minX;
      maxX := if bots[i].x > maxX then bots[i].x else maxX;
      minY := if bots[i].y < minY then bots[i].y else minY;
      maxY := if bots[i].y > maxY then bots[i].y else maxY;
      minZ := if bots[i].z < minZ then bots[i].z else minZ;
      maxZ := if bots[i].z > maxZ then bots[i].z else maxZ;
    }
    var bestCount := 0;
    var bestDistance := I64_MAX;
    var size := maxX - minX;
    size := if maxY - minY > size then maxY - minY else size;
    size := if maxZ - minZ > size then maxZ - minZ else size;
    var initCount := CountTouching(bots, minX, minY, minZ, size);
    var queue := [Entry(initCount, 0, size, minX, minY, minZ)];
    while queue != []
      invariant Counted(bots, queue) && Witnessed(bots, bestCount, bestDistance)
      decreases Total(queue)
    {
      queue, bestCount, bestDistance := Explore(bots, queue, bestCount, bestDistance);
    }
    return Some(bestDistance);
  }
}
