/** A Regular Map (rust/src/day20.rs): walk the route regex one character at
    a time, keeping a stack of branch points and the fewest doors recorded
    for every room reached. */
module Day20 {

  import opened Wrappers
  import opened Text

  type Pos = (int, int)

  /** The value `or_insert` puts in for a room seen for the first time. */
  const I32_MAX: int := 0x7FFF_FFFF

  /** The walker between two characters: the current room, the branch
      points, and the distance recorded for every room reached. */
  datatype Walk = Walk(pos: Pos, stack: seq<Pos>, distances: map<Pos, int>)

  /** The walk before the first character: at (0, 0), distance 0. */
  const Start: Walk := Walk((0, 0), [], map[(0, 0) := 0])

  predicate IsDoor(ch: char) {
    ch == 'N' || ch == 'S' || ch == 'E' || ch == 'W'
  }

  /** One door through: north is y - 1, south y + 1, east x + 1, west x - 1. */
  function Move(pos: Pos, ch: char): (next: Pos)
    requires IsDoor(ch)
    ensures (if next.0 < pos.0 then pos.0 - next.0 else next.0 - pos.0)
            + (if next.1 < pos.1 then pos.1 - next.1 else next.1 - pos.1) == 1
  {
    match ch
    case 'N' => (pos.0, pos.1 - 1)
    case 'S' => (pos.0, pos.1 + 1)
    case 'E' => (pos.0 + 1, pos.1)
    case 'W' => (pos.0 - 1, pos.1)
  }

  function Min(a: int, b: int): int {
    if a < b then a else b
  }

  /** One pass of the loop of `parse_regex`: None where `unwrap` panics, on
      ')' or '|' with no open branch. */
  function Feed(w: Walk, ch: char): (r: Option<Walk>)
    ensures r.None? <==> (ch == ')' || ch == '|') && w.stack == []
  {
    if IsDoor(ch) then
      var next := Move(w.pos, ch);
      var current := if w.pos in w.distances then w.distances[w.pos] else 0;
      var recorded := if next in w.distances then w.distances[next] else I32_MAX;
      Some(Walk(next, w.stack, w.distances[next := Min(recorded, current + 1)]))
    else if ch == '(' then Some(Walk(w.pos, w.stack + [w.pos], w.distances))
    else if ch == ')' then
      if w.stack == [] then None
      else Some(Walk(w.stack[|w.stack| - 1], w.stack[..|w.stack| - 1], w.distances))
    else if ch == '|' then
      if w.stack == [] then None
      else Some(Walk(w.stack[|w.stack| - 1], w.stack, w.distances))
    else Some(w)
  }

  /** The walk after every character of chars, or None where one panics. */
  function Walked(w: Walk, chars: string): Option<Walk>
    decreases |chars|
  {
    if chars == [] then Some(w)
    else
      match Feed(w, chars[0])
      case None => None
      case Some(w') => Walked(w', chars[1..])
  }

  lemma WalkedOnce(w: Walk, chars: string, i: nat)
    requires i < |chars| && Feed(w, chars[i]).Some?
    ensures Walked(w, chars[i..]) == Walked(Feed(w, chars[i]).value, chars[i + 1..])
  {
    assert chars[i..][0] == chars[i] && chars[i..][1..] == chars[i + 1..];
  }

  /** `parse_regex`: the loop over the characters with the position, the
      stack and the distance map as local state. */
  method ParseRegex(regex: string) returns (r: Option<map<Pos, int>>)
    ensures r == match Walked(Start, regex) case None => None case Some(w) => Some(w.distances)
  {
    var distances: map<Pos, int> := map[];
    var stack: seq<Pos> := [];
    var pos: Pos := (0, 0);
    distances := distances[pos := 0];
    for i := 0 to |regex|
      invariant Walked(Walk(pos, stack, distances), regex[i..]) == Walked(Start, regex)
    {
      ghost var before := Walk(pos, stack, distances);
      var ch := regex[i];
      if IsDoor(ch) {
        var next := Move(pos, ch);
        var current := if pos in distances then distances[pos] else 0;
        var recorded := if next in distances then distances[next] else I32_MAX;
        distances := distances[next := Min(recorded, current + 1)];
        pos := next;
      } else if ch == '(' {
        stack := stack + [pos];
      } else if ch == ')' {
        if stack == [] {
          return None;
        }
        pos := stack[|stack| - 1];
        stack := stack[..|stack| - 1];
      } else if ch == '|' {
        if stack == [] {
          return None;
        }
        pos := stack[|stack| - 1];
      }
      assert Feed(before, ch) == Some(Walk(pos, stack, distances));
      WalkedOnce(before, regex, i);
    }
    assert regex[|regex|..] == [];
    return Some(distances);
  }

  // ---------------------------------------------------------------------
  // What the walk keeps

  /** The current room and every branch point have a distance, and every
      distance lies between 0 and the number of characters read. */
  ghost predicate Sound(w: Walk, read: nat) {
    && w.pos in w.distances
    && (forall k :: 0 <= k < |w.stack| ==> w.stack[k] in w.distances)
    && forall p :: p in w.distances ==> 0 <= w.distances[p] <= read
  }

  /** w' has every room of w, at a distance no larger. */
  ghost predicate NoFarther(w: Walk, w': Walk) {
    forall p :: p in w.distances ==> p in w'.distances && w'.distances[p] <= w.distances[p]
  }

  /** One character keeps the walk sound and never raises a distance; only
      a door moves through a wall, and only a door adds a room. */
  lemma FeedKeeps(w: Walk, ch: char, read: nat)
    requires Sound(w, read) && Feed(w, ch).Some?
    ensures Sound(Feed(w, ch).value, read + 1) && NoFarther(w, Feed(w, ch).value)
    ensures !IsDoor(ch) ==> Feed(w, ch).value.distances == w.distances
    ensures !IsDoor(ch) && ch != '(' && ch != ')' && ch != '|' ==> Feed(w, ch).value == w
  {
    var w' := Feed(w, ch).value;
    if IsDoor(ch) {
      var next := Move(w.pos, ch);
      assert w'.distances[next] <= w.distances[w.pos] + 1;
    } else if ch == ')' {
      assert forall k :: 0 <= k < |w'.stack| ==> w'.stack[k] == w.stack[k];
    }
  }

  lemma NoFartherTransitive(u: Walk, v: Walk, w: Walk)
    requires NoFarther(u, v) && NoFarther(v, w)
    ensures NoFarther(u, w)
  {
  }

  /** A whole walk stays sound and never raises a distance. */
  lemma {:induction false} WalkedKeeps(w: Walk, chars: string, read: nat)
    requires Sound(w, read) && Walked(w, chars).Some?
    ensures Sound(Walked(w, chars).value, read + |chars|) && NoFarther(w, Walked(w, chars).value)
    decreases |chars|
  {
    if chars != [] {
      var w' := Feed(w, chars[0]).value;
      FeedKeeps(w, chars[0], read);
      WalkedKeeps(w', chars[1..], read + 1);
      NoFartherTransitive(w, w', Walked(w', chars[1..]).value);
    }
  }

  /** Every room the regex reaches is at most one door per character away,
      so `curr_dist + 1` stays in i32 for any regex shorter than 2^31 - 1,
      and the start room keeps distance 0. */
  lemma WalkBounds(regex: string)
    requires Walked(Start, regex).Some?
    ensures var d := Walked(Start, regex).value.distances;
            (0, 0) in d && d[(0, 0)] == 0 && forall p :: p in d ==> 0 <= d[p] <= |regex|
  {
    WalkedKeeps(Start, regex, 0);
  }

  // ---------------------------------------------------------------------
  // part1 and part2

  /** r is the largest distance in d, 0 for an empty map. */
  ghost predicate IsFurthest(d: map<Pos, int>, r: int) {
    && (d == map[] ==> r == 0)
    && (d != map[] ==> exists p :: p in d && d[p] == r)
    && forall p :: p in d ==> d[p] <= r
  }

  /** `values().max().unwrap_or(0)`. */
  method MaxDistance(d: map<Pos, int>) returns (r: int)
    ensures IsFurthest(d, r)
  {
    r := 0;
    var left := d.Keys;
    var first := true;
    while left != {}
      invariant left <= d.Keys
      invariant first <==> left == d.Keys
      invariant first ==> r == 0
      invariant !first ==> exists p :: p in d && p !in left && d[p] == r
      invariant forall p :: p in d && p !in left ==> d[p] <= r
      decreases |left|
    {
      var p :| p in left;
      if first || d[p] > r {
        r := d[p];
      }
      first := false;
      left := left - {p};
    }
    if first {
      assert d.Keys == {};
    }
  }

  /** `values().filter(d >= 1000).count()`: the rooms 1000 or more doors away. */
  method CountFar(d: map<Pos, int>) returns (n: nat)
    ensures n == |set p | p in d && d[p] >= 1000|
  {
    n := 0;
    var left := d.Keys;
    ghost var counted: set<Pos> := {};
    while left != {}
      invariant left <= d.Keys && counted == set p | p in d && p !in left && d[p] >= 1000
      invariant n == |counted|
      decreases |left|
    {
      var p :| p in left;
      if d[p] >= 1000 {
        counted := counted + {p};
        n := n + 1;
      }
      left := left - {p};
    }
    assert counted == set p | p in d && d[p] >= 1000;
  }

  /** `part1`: the largest distance for the trimmed input; None where the
      walk panics. */
  method Part1(input: string) returns (r: Option<int>)
    ensures r.None? <==> Walked(Start, Trim(input)).None?
    ensures r.Some? ==> IsFurthest(Walked(Start, Trim(input)).value.distances, r.value)
  {
    var distances := ParseRegex(Trim(input));
    if distances.None? {
      return None;
    }
    var furthest := MaxDistance(distances.value);
    return Some(furthest);
  }

  /** `part2`: how many rooms are at least 1000 doors away. */
  method Part2(input: string) returns (r: Option<nat>)
    ensures r.None? <==> Walked(Start, Trim(input)).None?
    ensures r.Some? ==> var d := Walked(Start, Trim(input)).value.distances;
                        r.value == |set p | p in d && d[p] >= 1000|
  {
    var distances := ParseRegex(Trim(input));
    if distances.None? {
      return None;
    }
    var far := CountFar(distances.value);
    return Some(far);
  }

  // ---------------------------------------------------------------------
  // The first sample

  lemma SampleWalk()
    ensures Walked(Start, "^WNE$")
            == Some(Walk((0, -1), [], map[(0, 0) := 0, (-1, 0) := 1, (-1, -1) := 2, (0, -1) := 3]))
  {
    var s := "^WNE$";
    var w1 := Walk((-1, 0), [], map[(0, 0) := 0, (-1, 0) := 1]);
    var w2 := Walk((-1, -1), [], map[(0, 0) := 0, (-1, 0) := 1, (-1, -1) := 2]);
    var w3 := Walk((0, -1), [], map[(0, 0) := 0, (-1, 0) := 1, (-1, -1) := 2, (0, -1) := 3]);
    assert Feed(Start, '^') == Some(Start);
    assert Feed(Start, 'W') == Some(w1);
    assert Feed(w1, 'N') == Some(w2);
    assert Feed(w2, 'E') == Some(w3);
    assert Feed(w3, '$') == Some(w3);
    assert s[1..] == "WNE$" && s[2..] == "NE$" && s[3..] == "E$" && s[4..] == "$";
    assert Walked(w3, "$") == Some(w3) by { assert "$"[1..] == []; }
  }

  /** "^WNE$" gives 3. */
  lemma SampleFurthest(r: int)
    requires IsFurthest(Walked(Start, "^WNE$").value.distances, r)
    ensures r == 3
  {
    SampleWalk();
    var m := map[(0, 0) := 0, (-1, 0) := 1, (-1, -1) := 2, (0, -1) := 3];
    assert m[(0, -1)] == 3;
    var p :| p in m && m[p] == r;
    assert p == (0, 0) || p == (-1, 0) || p == (-1, -1) || p == (0, -1);
  }
}
