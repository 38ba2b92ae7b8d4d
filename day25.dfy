/** Four-Dimensional Adventure (rust/src/day25.rs): points within Manhattan
    distance 3 of each other belong to the same constellation, and part 1
    counts constellations with a union-find forest using union by rank and
    path compression. */
module Day25 {

  import opened Wrappers
  import opened Text
  import opened Tokens

  datatype Point = Point(x: int, y: int, z: int, w: int)

  function Max(a: int, b: int): int {
    if a < b then b else a
  }

  function Abs(v: int): nat {
    if v < 0 then -v else v
  }

  /** `manhattan_distance` in four dimensions. */
  function Distance(p: Point, q: Point): (d: int)
    ensures d >= 0 && (d == 0 <==> p == q)
  {
    Abs(p.x - q.x) + Abs(p.y - q.y) + Abs(p.z - q.z) + Abs(p.w - q.w)
  }

  lemma DistanceSymmetric(p: Point, q: Point)
    ensures Distance(p, q) == Distance(q, p)
  {
  }

  // ---------------------------------------------------------------------
  // parse_input

  /** Every piece, trimmed, as an i32, or None if one of them panics. */
  function ParseAll(parts: seq<string>): (r: Option<seq<int>>)
    ensures r.Some? ==> |r.value| == |parts|
    ensures r.Some? ==> forall k :: 0 <= k < |parts| ==> ParseI32(Trim(parts[k])) == Some(r.value[k])
  {
    if parts == [] then Some([])
    else
      match (ParseI32(Trim(parts[0])), ParseAll(parts[1..]))
      case (Some(v), Some(vs)) => Some([v] + vs)
      case _ => None
  }

  /** One line: the trimmed line split at commas, every piece an i32, and
      the first four the coordinates; fewer pieces is a panic. */
  function ParsePoint(line: string): (r: Option<Point>)
    ensures r.Some? ==> var parts := SplitOn(Trim(line), ',');
                        |parts| >= 4 && ParseI32(Trim(parts[0])) == Some(r.value.x)
                        && ParseI32(Trim(parts[1])) == Some(r.value.y)
                        && ParseI32(Trim(parts[2])) == Some(r.value.z)
                        && ParseI32(Trim(parts[3])) == Some(r.value.w)
  {
    match ParseAll(SplitOn(Trim(line), ','))
    case Some(vs) => if |vs| < 4 then None else Some(Point(vs[0], vs[1], vs[2], vs[3]))
    case None => None
  }

  /** `parse_input` on the lines of the input. */
  function ParseInput(lines: seq<string>): (r: Option<seq<Point>>)
    ensures r.Some? ==> |r.value| == |lines|
    ensures r.Some? ==> forall k :: 0 <= k < |lines| ==> ParsePoint(lines[k]) == Some(r.value[k])
  {
    if lines == [] then Some([])
    else
      match (ParsePoint(lines[0]), ParseInput(lines[1..]))
      case (Some(q), Some(qs)) => Some([q] + qs)
      case _ => None
  }

  predicate InI32(p: Point) {
    I32_MIN <= p.x <= I32_MAX && I32_MIN <= p.y <= I32_MAX
    && I32_MIN <= p.z <= I32_MAX && I32_MIN <= p.w <= I32_MAX
  }

  /** A point written out as the line parse_input reads. */
  function ShowPoint(p: Point): string
  {
    JoinOn([ShowInt(p.x), ShowInt(p.y), ShowInt(p.z), ShowInt(p.w)], ',')
  }

  lemma NumberHasNoComma(i: int)
    ensures ',' !in ShowInt(i) && Trim(ShowInt(i)) == ShowInt(i)
  {
    var s := ShowInt(i);
    assert forall k :: 0 <= k < |s| ==> s[k] == '-' || IsDigit(s[k]);
  }

  lemma TrimAsWord(a: string, b: string, c: string, d: string)
    requires IsWord(a) && IsWord(d)
    ensures Trim(JoinOn([a, b, c, d], ',')) == JoinOn([a, b, c, d], ',')
  {
    var s := JoinOn([a, b, c, d], ',');
    assert [a, b, c, d][1..] == [b, c, d] && [b, c, d][1..] == [c, d] && [c, d][1..] == [d];
    var t := JoinOn([b, c, d], ',');
    assert s == a + [','] + t;
    assert JoinOn([c, d], ',') == c + [','] + d;
    assert t == b + [','] + (c + [','] + d);
    assert s[0] == a[0];
    assert s[|s| - 1] == d[|d| - 1];
  }

  lemma ParsePiece(i: int)
    requires I32_MIN <= i <= I32_MAX
    ensures ParseI32(Trim(ShowInt(i))) == Some(i)
  {
    NumberHasNoComma(i);
    ParseShowI64(i);
  }

  /** The pieces parse to vs exactly when each piece parses to its value. */
  lemma {:induction false} ParseAllExact(parts: seq<string>, vs: seq<int>)
    requires |vs| == |parts| && forall k :: 0 <= k < |parts| ==> ParseI32(Trim(parts[k])) == Some(vs[k])
    ensures ParseAll(parts) == Some(vs)
  {
    if parts != [] {
      ParseAllExact(parts[1..], vs[1..]);
      assert vs == [vs[0]] + vs[1..];
    }
  }

  /** parse_input reads back every point with 32-bit coordinates. */
  lemma ParseShowPoint(p: Point)
    requires InI32(p)
    ensures ParsePoint(ShowPoint(p)) == Some(p)
  {
    var ws := [ShowInt(p.x), ShowInt(p.y), ShowInt(p.z), ShowInt(p.w)];
    NumberHasNoComma(p.x);
    NumberHasNoComma(p.y);
    NumberHasNoComma(p.z);
    NumberHasNoComma(p.w);
    TrimAsWord(ws[0], ws[1], ws[2], ws[3]);
    SplitJoinOn(ws, ',');
    assert SplitOn(Trim(ShowPoint(p)), ',') == ws;
    ParsePiece(p.x);
    ParsePiece(p.y);
    ParsePiece(p.z);
    ParsePiece(p.w);
    ParseAllExact(ws, [p.x, p.y, p.z, p.w]);
  }

  // ---------------------------------------------------------------------
  // The forest: parents and ranks

  /** Every parent is an index, every rank at most the ceiling, and a parent
      has a strictly larger rank than its child, so every path ends. */
  ghost predicate Ranked(parent: seq<nat>, rank: seq<nat>, ceiling: nat) {
    |parent| == |rank|
    && forall i :: 0 <= i < |parent| ==>
         parent[i] < |parent| && rank[i] <= ceiling && (parent[i] != i ==> rank[parent[i]] > rank[i])
  }

  /** The root reached from x by following parents. */
  ghost function Root(parent: seq<nat>, rank: seq<nat>, ceiling: nat, x: nat): (r: nat)
    requires Ranked(parent, rank, ceiling) && x < |parent|
    ensures r < |parent| && parent[r] == r && rank[r] >= rank[x]
    ensures r != x ==> rank[r] > rank[x]
    decreases ceiling - rank[x]
  {
    if parent[x] == x then x else Root(parent, rank, ceiling, parent[x])
  }

  /** The root does not depend on which ranks prove that paths end. */
  lemma {:induction false} RootAnyRank(parent: seq<nat>, rank: seq<nat>, ceiling: nat, rank': seq<nat>, ceiling': nat, x: nat)
    requires Ranked(parent, rank, ceiling) && Ranked(parent, rank', ceiling') && x < |parent|
    ensures Root(parent, rank, ceiling, x) == Root(parent, rank', ceiling', x)
    decreases ceiling - rank[x]
  {
    if parent[x] != x {
      RootAnyRank(parent, rank, ceiling, rank', ceiling', parent[x]);
    }
  }

  /** Pointing x straight at its root changes no node's root. */
  lemma {:induction false} CompressKeepsRoot(parent: seq<nat>, rank: seq<nat>, ceiling: nat, x: nat, y: nat)
    requires Ranked(parent, rank, ceiling) && x < |parent| && y < |parent|
    requires Ranked(parent[x := Root(parent, rank, ceiling, x)], rank, ceiling)
    ensures Root(parent[x := Root(parent, rank, ceiling, x)], rank, ceiling, y) == Root(parent, rank, ceiling, y)
    decreases ceiling - rank[y]
  {
    var parent' := parent[x := Root(parent, rank, ceiling, x)];
    if parent'[y] != y && y != x {
      CompressKeepsRoot(parent, rank, ceiling, x, parent[y]);
    }
  }

  /** Hanging root low under root high merges their trees: every node of
      low's tree now has root high, and no other root changes. */
  lemma {:induction false} LinkRoots(parent: seq<nat>, rank: seq<nat>, ceiling: nat, low: nat, high: nat, y: nat)
    requires Ranked(parent, rank, ceiling) && low < |parent| && high < |parent|
    requires Ranked(parent[low := high], rank, ceiling) && parent[low] == low && parent[high] == high
    requires y < |parent|
    ensures Root(parent[low := high], rank, ceiling, y)
            == if Root(parent, rank, ceiling, y) == low then high else Root(parent, rank, ceiling, y)
    decreases ceiling - rank[y]
  {
    if parent[y] != y {
      LinkRoots(parent, rank, ceiling, low, high, parent[y]);
    }
  }

  /** `UnionFind`: the `parent` and `rank` vectors, with a ghost bound on the
      ranks. */
  class UnionFind {
    var parent: seq<nat>
    var rank: seq<nat>
    ghost var ceiling: nat

    ghost predicate Valid()
      reads this
    {
      Ranked(parent, rank, ceiling)
    }

    ghost function RootOf(x: nat): nat
      reads this
      requires Valid() && x < |parent|
    {
      Root(parent, rank, ceiling, x)
    }

    /** `UnionFind::new`: every element its own root, every rank 0. */
    constructor (size: nat)
      ensures Valid() && |parent| == size
      ensures forall i :: 0 <= i < size ==> parent[i] == i && rank[i] == 0 && RootOf(i) == i
    {
      parent := seq(size, i => i);
      rank := seq(size, i => 0);
      ceiling := 0;
    }

    /** `find`: the root of x; every node on the way, x included, is
        pointed at it, and no node's root changes. */
    method Find(x: nat) returns (r: nat)
      requires Valid() && x < |parent|
      modifies this
      ensures Valid() && |parent| == old(|parent|) && rank == old(rank) && ceiling == old(ceiling)
      ensures r == old(RootOf(x)) && r < |parent| && parent[r] == r && parent[x] == r
      ensures forall y :: 0 <= y < |parent| ==> RootOf(y) == old(RootOf(y))
      decreases ceiling - rank[x]
    {
      if parent[x] != x {
        var p := parent[x];
        var root := Find(p);
        ghost var before := parent;
        assert root == old(RootOf(x));
        assert root == Root(before, rank, ceiling, x);
        assert root != x && rank[root] > rank[x];
        parent := parent[x := root];
        forall y | 0 <= y < |parent|
          ensures RootOf(y) == old(RootOf(y))
        {
          CompressKeepsRoot(before, rank, ceiling, x, y);
        }
      }
      r := parent[x];
    }

    /** `union`: afterwards x and y share a root, and the two sets they were
        in are merged, every other set unchanged; the lower-rank root goes
        under the other, and a rank grows, by 1, only when the two were
        equal. */
    method Union(x: nat, y: nat)
      requires Valid() && x < |parent| && y < |parent|
      modifies this
      ensures Valid() && |parent| == old(|parent|)
      ensures RootOf(x) == RootOf(y)
      ensures RootOf(x) == old(RootOf(x)) || RootOf(x) == old(RootOf(y))
      ensures forall z :: 0 <= z < |parent| ==>
                RootOf(z) == if old(RootOf(z)) == old(RootOf(x)) || old(RootOf(z)) == old(RootOf(y)) then RootOf(x)
                             else old(RootOf(z))
      ensures old(RootOf(x)) != old(RootOf(y)) ==>
                (RootOf(x) == old(RootOf(y)) <==> old(rank[RootOf(x)]) < old(rank[RootOf(y)]))
      ensures forall z :: 0 <= z < |rank| && z != RootOf(x) ==> rank[z] == old(rank[z])
      ensures rank[RootOf(x)] == Max(old(rank[RootOf(x)]), old(rank[RootOf(y)]))
                                 + if old(RootOf(x)) != old(RootOf(y)) && old(rank[RootOf(x)]) == old(rank[RootOf(y)])
                                   then 1 else 0
    {
      var px := Find(x);
      var py := Find(y);
      if px == py {
        return;
      }
      if rank[px] < rank[py] {
        Hang(px, py, false);
      } else if rank[px] > rank[py] {
        Hang(py, px, false);
      } else {
        Hang(py, px, true);
      }
    }

    /** Root low goes under root high, whose rank grows by 1 if raise is set. */
    method Hang(low: nat, high: nat, raise: bool)
      requires Valid() && low < |parent| && high < |parent| && low != high
      requires parent[low] == low && parent[high] == high
      requires if raise then rank[low] == rank[high] else rank[low] < rank[high]
      modifies this
      ensures Valid() && |parent| == old(|parent|)
      ensures rank == if raise then old(rank)[high := old(rank[high]) + 1] else old(rank)
      ensures forall z :: 0 <= z < |parent| ==>
                RootOf(z) == if old(RootOf(z)) == low then high else old(RootOf(z))
    {
      ghost var parent0, rank0, ceiling0 := parent, rank, ceiling;
      if raise {
        var raised := rank[high := rank[high] + 1];
        ghost var ceiling1 := if rank[high] + 1 > ceiling then rank[high] + 1 else ceiling;
        assert Ranked(parent0, raised, ceiling1);
        parent := parent[low := high];
        rank := raised;
        ceiling := ceiling1;
        forall z | 0 <= z < |parent|
          ensures RootOf(z) == if Root(parent0, rank0, ceiling0, z) == low then high else Root(parent0, rank0, ceiling0, z)
        {
          LinkRoots(parent0, raised, ceiling1, low, high, z);
          RootAnyRank(parent0, raised, ceiling1, rank0, ceiling0, z);
        }
      } else {
        parent := parent[low := high];
        forall z | 0 <= z < |parent|
          ensures RootOf(z) == if Root(parent0, rank0, ceiling0, z) == low then high else Root(parent0, rank0, ceiling0, z)
        {
          LinkRoots(parent0, rank0, ceiling0, low, high, z);
        }
      }
    }

    /** The roots, as a set. */
    ghost function Roots(): set<nat>
      reads this
      requires Valid()
    {
      Image(RootList(parent, rank, ceiling), |parent|)
    }

    /** `count_sets`: the number of distinct roots, found with `find` on
        every element; no root changes. */
    method CountSets() returns (count: nat)
      requires Valid()
      modifies this
      ensures Valid() && |parent| == old(|parent|)
      ensures forall y :: 0 <= y < |parent| ==> RootOf(y) == old(RootOf(y))
      ensures count == |old(Roots())|
    {
      var seen: set<nat> := {};
      var i := 0;
      ghost var roots := RootList(parent, rank, ceiling);
      while i < |parent|
        invariant Valid() && |parent| == old(|parent|) && 0 <= i <= |parent|
        invariant forall y :: 0 <= y < |parent| ==> RootOf(y) == old(RootOf(y))
        invariant seen == Image(roots, i)
      {
        var r := Find(i);
        ImageGrows(roots, i + 1);
        seen := seen + {r};
        i := i + 1;
      }
      count := |seen|;
    }
  }

  /** The list of every element's root. */
  ghost function RootList(parent: seq<nat>, rank: seq<nat>, ceiling: nat): (rs: seq<nat>)
    requires Ranked(parent, rank, ceiling)
    ensures |rs| == |parent| && forall k :: 0 <= k < |parent| ==> rs[k] == Root(parent, rank, ceiling, k)
  {
    seq(|parent|, k requires 0 <= k < |parent| => Root(parent, rank, ceiling, k))
  }

  // ---------------------------------------------------------------------
  // Constellations

  /** Two points of the list within distance 3 of each other. */
  predicate Close(points: seq<Point>, i: nat, j: nat) {
    i < |points| && j < |points| && Distance(points[i], points[j]) <= 3
  }

  /** A walk through the list, each point close to the next. */
  ghost predicate Chain(points: seq<Point>, path: seq<nat>) {
    && path != []
    && (forall k :: 0 <= k < |path| ==> path[k] < |points|)
    && forall k :: 0 <= k < |path| - 1 ==> Close(points, path[k], path[k + 1])
  }

  /** Points i and j are in the same constellation: a chain joins them. */
  ghost predicate Linked(points: seq<Point>, i: nat, j: nat) {
    exists path :: Chain(points, path) && path[0] == i && path[|path| - 1] == j
  }

  lemma LinkedSelf(points: seq<Point>, i: nat)
    requires i < |points|
    ensures Linked(points, i, i)
  {
    assert Chain(points, [i]);
  }

  lemma LinkedClose(points: seq<Point>, i: nat, j: nat)
    requires Close(points, i, j)
    ensures Linked(points, i, j)
  {
    assert Chain(points, [i, j]);
  }

  lemma LinkedSymmetric(points: seq<Point>, i: nat, j: nat)
    requires Linked(points, i, j)
    ensures Linked(points, j, i)
  {
    var path :| Chain(points, path) && path[0] == i && path[|path| - 1] == j;
    var back := seq(|path|, k requires 0 <= k < |path| => path[|path| - 1 - k]);
    forall k | 0 <= k < |back| - 1
      ensures Close(points, back[k], back[k + 1])
    {
      var m := |path| - 2 - k;
      assert Close(points, path[m], path[m + 1]);
      DistanceSymmetric(points[path[m]], points[path[m + 1]]);
    }
    assert Chain(points, back);
  }

  lemma LinkedTransitive(points: seq<Point>, i: nat, j: nat, k: nat)
    requires Linked(points, i, j) && Linked(points, j, k)
    ensures Linked(points, i, k)
  {
    var p :| Chain(points, p) && p[0] == i && p[|p| - 1] == j;
    var q :| Chain(points, q) && q[0] == j && q[|q| - 1] == k;
    var walk := p + q[1..];
    forall m | 0 <= m < |walk| - 1
      ensures Close(points, walk[m], walk[m + 1])
    {
      if m < |p| - 1 {
        assert Close(points, p[m], p[m + 1]);
      } else {
        var n := m - (|p| - 1);
        assert walk[m] == q[n] && walk[m + 1] == q[n + 1];
        assert Close(points, q[n], q[n + 1]);
      }
    }
    assert Chain(points, walk);
  }

  /** The constellation of point i: every point linked to it. */
  ghost function Constellation(points: seq<Point>, i: nat): set<nat>
  {
    set j | 0 <= j < |points| && Linked(points, i, j)
  }

  /** The constellations of the list. */
  ghost function Constellations(points: seq<Point>): set<set<nat>>
  {
    set i | 0 <= i < |points| :: Constellation(points, i)
  }

  lemma SameConstellation(points: seq<Point>, i: nat, j: nat)
    requires i < |points| && j < |points|
    ensures Constellation(points, i) == Constellation(points, j) <==> Linked(points, i, j)
  {
    if Linked(points, i, j) {
      LinkedSymmetric(points, i, j);
      forall k | 0 <= k < |points|
        ensures Linked(points, i, k) <==> Linked(points, j, k)
      {
        if Linked(points, i, k) {
          LinkedTransitive(points, j, i, k);
        }
        if Linked(points, j, k) {
          LinkedTransitive(points, i, j, k);
        }
      }
    } else {
      LinkedSelf(points, j);
      assert j in Constellation(points, j);
    }
  }

  /** The distinct values among the first n of a list. */
  ghost function Image<A>(xs: seq<A>, n: nat): set<A>
    requires n <= |xs|
  {
    set i | 0 <= i < n :: xs[i]
  }

  lemma ImageGrows<A>(xs: seq<A>, n: nat)
    requires 0 < n <= |xs|
    ensures Image(xs, n) == Image(xs, n - 1) + {xs[n - 1]}
    ensures xs[n - 1] in Image(xs, n - 1) <==> exists i :: 0 <= i < n - 1 && xs[i] == xs[n - 1]
  {
  }

  /** Two lists that agree on which positions hold equal values have as many
      distinct values. */
  lemma {:induction false} SameImageSize<A, B>(xs: seq<A>, ys: seq<B>, n: nat)
    requires n <= |xs| == |ys|
    requires forall i, j :: 0 <= i < |xs| && 0 <= j < |xs| ==> (xs[i] == xs[j] <==> ys[i] == ys[j])
    ensures |Image(xs, n)| == |Image(ys, n)|
  {
    if n > 0 {
      SameImageSize(xs, ys, n - 1);
      ImageGrows(xs, n);
      ImageGrows(ys, n);
      if xs[n - 1] in Image(xs, n - 1) {
        var i :| 0 <= i < n - 1 && xs[i] == xs[n - 1];
        assert ys[i] == ys[n - 1];
        assert ys[n - 1] in Image(ys, n - 1);
      }
      if ys[n - 1] in Image(ys, n - 1) {
        var i :| 0 <= i < n - 1 && ys[i] == ys[n - 1];
        assert xs[i] == xs[n - 1];
        assert xs[n - 1] in Image(xs, n - 1);
      }
      if xs[n - 1] in Image(xs, n - 1) {
        assert Image(xs, n) == Image(xs, n - 1) && Image(ys, n) == Image(ys, n - 1);
      } else {
        assert |Image(xs, n)| == |Image(xs, n - 1)| + 1 && |Image(ys, n)| == |Image(ys, n - 1)| + 1;
      }
    }
  }

  /** Every point's constellation, in order. */
  ghost function ConstellationList(points: seq<Point>): (cs: seq<set<nat>>)
    ensures |cs| == |points| && forall k :: 0 <= k < |points| ==> cs[k] == Constellation(points, k)
  {
    seq(|points|, k requires 0 <= k < |points| => Constellation(points, k))
  }

  lemma ConstellationsListed(points: seq<Point>)
    ensures Constellations(points) == Image(ConstellationList(points), |points|)
  {
  }

  /** The roots of the forest split the list into its constellations:
      two points share a root exactly when they are linked. */
  ghost predicate Partitions(points: seq<Point>, rs: seq<nat>) {
    |rs| == |points|
    && forall a, b :: 0 <= a < |points| && 0 <= b < |points| ==> (rs[a] == rs[b] <==> Linked(points, a, b))
  }

  /** As many roots as constellations. */
  lemma CountConstellations(points: seq<Point>, rs: seq<nat>)
    requires Partitions(points, rs)
    ensures |Image(rs, |rs|)| == |Constellations(points)|
  {
    var cs := ConstellationList(points);
    forall a, b | 0 <= a < |points| && 0 <= b < |points|
      ensures rs[a] == rs[b] <==> cs[a] == cs[b]
    {
      SameConstellation(points, a, b);
    }
    SameImageSize(rs, cs, |rs|);
    ConstellationsListed(points);
  }

  /** The pairs (a, b), a < b, that part1's loops have reached before pair
      (i, j) and that are close all share a root. */
  ghost predicate Joined(points: seq<Point>, rs: seq<nat>, i: nat, j: nat)
    requires |rs| == |points|
  {
    forall a, b :: 0 <= a < b < |points| && (a < i || (a == i && b < j)) && Close(points, a, b) ==> rs[a] == rs[b]
  }

  /** Points that share a root are linked. */
  ghost predicate Sound(points: seq<Point>, rs: seq<nat>)
    requires |rs| == |points|
  {
    forall a, b :: 0 <= a < |points| && 0 <= b < |points| && rs[a] == rs[b] ==> Linked(points, a, b)
  }

  /** At the start every point is its own root. */
  lemma Singletons(points: seq<Point>, rs: seq<nat>)
    requires |rs| == |points| && forall k :: 0 <= k < |rs| ==> rs[k] == k
    ensures Sound(points, rs)
  {
    forall a | 0 <= a < |points| {
      LinkedSelf(points, a);
    }
  }

  /** Merging the sets of i and j, two close points, keeps both facts and
      adds the pair (i, j). */
  lemma Merged(points: seq<Point>, rs: seq<nat>, rs': seq<nat>, i: nat, j: nat)
    requires |rs| == |points| == |rs'| && i < j < |points| && Close(points, i, j)
    requires Sound(points, rs) && Joined(points, rs, i, j)
    requires rs'[i] == rs'[j] && (rs'[i] == rs[i] || rs'[i] == rs[j])
    requires forall z :: 0 <= z < |rs| ==> rs'[z] == if rs[z] == rs[i] || rs[z] == rs[j] then rs'[i] else rs[z]
    ensures Sound(points, rs') && Joined(points, rs', i, j + 1)
  {
    LinkedClose(points, i, j);
    forall a, b | 0 <= a < |points| && 0 <= b < |points| && rs'[a] == rs'[b]
      ensures Linked(points, a, b)
    {
      if rs[a] == rs[b] {
      } else {
        assert (rs[a] == rs[i] || rs[a] == rs[j]) && (rs[b] == rs[i] || rs[b] == rs[j]);
        // a reaches b through the pair (i, j)
        LinkedSymmetric(points, i, j);
        if rs[a] == rs[i] {
          assert Linked(points, a, i) && Linked(points, j, b);
          LinkedTransitive(points, a, i, j);
          LinkedTransitive(points, a, j, b);
        } else {
          assert Linked(points, a, j) && Linked(points, i, b);
          LinkedTransitive(points, a, j, i);
          LinkedTransitive(points, a, i, b);
        }
      }
    }
  }

  /** Once every close pair shares a root, so does every linked pair. */
  lemma {:induction false} ChainJoined(points: seq<Point>, rs: seq<nat>, path: seq<nat>)
    requires |rs| == |points| && Joined(points, rs, |points|, |points| + 1) && Chain(points, path)
    ensures rs[path[0]] == rs[path[|path| - 1]]
  {
    if |path| > 1 {
      ChainJoined(points, rs, path[1..]);
      var a, b := path[0], path[1];
      assert Close(points, a, b);
      if b < a {
        DistanceSymmetric(points[a], points[b]);
        assert Close(points, b, a);
      }
    }
  }

  lemma LinkedAreJoined(points: seq<Point>, rs: seq<nat>, a: nat, b: nat)
    requires |rs| == |points| && Joined(points, rs, |points|, |points| + 1) && Linked(points, a, b)
    ensures rs[a] == rs[b]
  {
    var path :| Chain(points, path) && path[0] == a && path[|path| - 1] == b;
    ChainJoined(points, rs, path);
  }

  /** One pass of part1's inner loop: union i and j if they are close. */
  method Connect(points: seq<Point>, uf: UnionFind, i: nat, j: nat, ghost rs: seq<nat>) returns (ghost rs': seq<nat>)
    requires uf.Valid() && |uf.parent| == |points| && i < j < |points|
    requires rs == RootList(uf.parent, uf.rank, uf.ceiling)
    requires Sound(points, rs) && Joined(points, rs, i, j)
    modifies uf
    ensures uf.Valid() && |uf.parent| == |points|
    ensures rs' == RootList(uf.parent, uf.rank, uf.ceiling)
    ensures Sound(points, rs') && Joined(points, rs', i, j + 1)
  {
    if Distance(points[i], points[j]) <= 3 {
      uf.Union(i, j);
      rs' := RootList(uf.parent, uf.rank, uf.ceiling);
      forall z | 0 <= z < |rs|
        ensures rs'[z] == if rs[z] == rs[i] || rs[z] == rs[j] then rs'[i] else rs[z]
      {
        assert rs'[z] == uf.RootOf(z);
      }
      Merged(points, rs, rs', i, j);
    } else {
      rs' := rs;
    }
  }

  /** The loops of `part1`: union every pair of points within distance 3,
      then count the sets; this is the number of constellations. */
  method Unite(points: seq<Point>) returns (count: nat)
    ensures count == |Constellations(points)|
  {
    var n := |points|;
    var uf := new UnionFind(n);
    ghost var rs := RootList(uf.parent, uf.rank, uf.ceiling);
    Singletons(points, rs);
    for i := 0 to n
      invariant uf.Valid() && |uf.parent| == n
      invariant rs == RootList(uf.parent, uf.rank, uf.ceiling)
      invariant Sound(points, rs) && Joined(points, rs, i, i + 1)
    {
      for j := i + 1 to n
        invariant uf.Valid() && |uf.parent| == n
        invariant rs == RootList(uf.parent, uf.rank, uf.ceiling)
        invariant Sound(points, rs) && Joined(points, rs, i, j)
      {
        rs := Connect(points, uf, i, j, rs);
      }
    }
    forall a, b | 0 <= a < n && 0 <= b < n
      ensures rs[a] == rs[b] <==> Linked(points, a, b)
    {
      if Linked(points, a, b) {
        LinkedAreJoined(points, rs, a, b);
      }
    }
    CountConstellations(points, rs);
    count := uf.CountSets();
  }

  /** `part1`: parse the points and count their constellations; None where
      parsing panics. */
  method Part1(lines: seq<string>) returns (r: Option<nat>)
    ensures r.None? <==> ParseInput(lines).None?
    ensures r.Some? ==> r.value == |Constellations(ParseInput(lines).value)|
  {
    var points := ParseInput(lines);
    if points.None? {
      return None;
    }
    var count := Unite(points.value);
    return Some(count);
  }
}
