/** Marble Mania, 9/problem1.py: the circle is a ring of nodes linked both
    ways, with a cursor on the current marble. */
module Day09Circle {

  import Day09

  /** A marble in the ring; its name never changes. */
  class Node {
    const name: nat
    var left: Node?
    var right: Node?

    constructor(name: nat, left: Node?, right: Node?)
      ensures this.name == name && this.left == left && this.right == right
    {
      this.name := name;
      this.left := left;
      this.right := right;
    }
  }

  /** The names of some nodes, in order. */
  function NamesOf(ns: seq<Node>): seq<nat> {
    seq(|ns|, i requires 0 <= i < |ns| => ns[i].name)
  }

  /** Moving the first node to the back moves its name likewise. */
  lemma NamesTurnFront(ns: seq<Node>)
    requires |ns| >= 1
    ensures NamesOf(ns[1..] + [ns[0]]) == Day09.TurnFront(NamesOf(ns))
  {
    var a := NamesOf(ns[1..] + [ns[0]]);
    var b := Day09.TurnFront(NamesOf(ns));
    assert b == NamesOf(ns)[1..] + [NamesOf(ns)[0]];
    assert forall i :: 0 <= i < |a| ==> a[i] == b[i];
  }

  /** Moving the last node to the front moves its name likewise. */
  lemma NamesTurnBack(ns: seq<Node>)
    requires |ns| >= 1
    ensures NamesOf([ns[|ns| - 1]] + ns[..|ns| - 1]) == Day09.TurnBack(NamesOf(ns))
  {
    var a := NamesOf([ns[|ns| - 1]] + ns[..|ns| - 1]);
    var b := Day09.TurnBack(NamesOf(ns));
    assert b == [NamesOf(ns)[|ns| - 1]] + NamesOf(ns)[..|ns| - 1];
    assert forall i :: 0 <= i < |a| ==> a[i] == b[i];
  }

  /** The names of a node put in front. */
  lemma NamesPush(n: Node, ns: seq<Node>)
    ensures NamesOf([n] + ns) == [n.name] + NamesOf(ns)
  {
    var a := NamesOf([n] + ns);
    assert forall i :: 0 <= i < |a| ==> a[i] == ([n.name] + NamesOf(ns))[i];
  }

  /** The names without the first node. */
  lemma NamesDrop(ns: seq<Node>)
    requires |ns| >= 1
    ensures NamesOf(ns[1..]) == NamesOf(ns)[1..]
  {
    var a := NamesOf(ns[1..]);
    assert forall i :: 0 <= i < |a| ==> a[i] == NamesOf(ns)[1..][i];
  }

  class Circle {
    var current: Node
    /** Kept by the source only for printing. */
    var zero: Node
    var size: int
    /** The ring read clockwise from the current node. */
    ghost var ring: seq<Node>
    /** The circle and every node it has held. */
    ghost var Repr: set<object>

    /** Every node's right neighbour is the next one clockwise and its left
        neighbour the one before, the ring closing on itself. */
    ghost predicate Valid()
      reads this, Repr
    {
      this in Repr && (forall i :: 0 <= i < |ring| ==> ring[i] in Repr)
      && |ring| == size >= 1 && ring[0] == current
      && (forall i, j :: 0 <= i < j < |ring| ==> ring[i] != ring[j])
      && (forall i :: 0 <= i < |ring| - 1 ==> ring[i].right == ring[i + 1])
      && (forall i :: 0 < i < |ring| ==> ring[i].left == ring[i - 1])
      && ring[|ring| - 1].right == ring[0] && ring[0].left == ring[|ring| - 1]
    }

    /** What `insert` and `remove` rely on: each node is its left
        neighbour's right neighbour and its right neighbour's left one. */
    lemma LinksAgree()
      requires Valid()
      ensures forall n :: n in ring ==> n.left != null && n.left.right == n
      ensures forall n :: n in ring ==> n.right != null && n.right.left == n
    {
      forall n | n in ring
        ensures n.left != null && n.left.right == n && n.right != null && n.right.left == n
      {
        var i :| 0 <= i < |ring| && ring[i] == n;
        if 0 < i {
          assert n.left == ring[i - 1];
        }
        if i < |ring| - 1 {
          assert n.right == ring[i + 1];
        }
      }
    }

    /** The marbles read clockwise from the current one. */
    ghost function Names(): seq<nat>
      reads this
    {
      NamesOf(ring)
    }

    /** Marble 0 alone, linked to itself. */
    constructor()
      ensures Valid() && fresh(Repr) && Names() == [0] && size == 1
    {
      var n := new Node(0, null, null);
      n.left := n;
      n.right := n;
      current := n;
      zero := n;
      size := 1;
      ring := [n];
      Repr := {this, n};
    }

    method StepCounterClockwise()
      requires Valid()
      modifies this
      ensures Valid() && size == old(size) && Repr == old(Repr)
      ensures ring == [old(ring)[|old(ring)| - 1]] + old(ring)[..|old(ring)| - 1]
      ensures Names() == Day09.TurnBack(old(Names()))
    {
      NamesTurnBack(ring);
      current := current.left;
      ring := [ring[|ring| - 1]] + ring[..|ring| - 1];
    }

    method StepClockwise()
      requires Valid()
      modifies this
      ensures Valid() && size == old(size) && Repr == old(Repr)
      ensures ring == old(ring)[1..] + [old(ring)[0]]
      ensures Names() == Day09.TurnFront(old(Names()))
    {
      NamesTurnFront(ring);
      assert current.right == if |ring| > 1 then ring[1] else ring[0];
      current := current.right;
      ring := ring[1..] + [ring[0]];
    }

    /** Two steps clockwise, then the new marble goes left of the node
        reached and becomes current. */
    method Insert(name: nat)
      requires Valid()
      modifies Repr
      ensures Valid() && fresh(Repr - old(Repr)) && size == old(size) + 1
      ensures Names() == [name] + Day09.RotateFront(old(Names()), 2)
    {
      ghost var names0 := Names();
      StepClockwise();
      StepClockwise();
      Day09.RotateFrontTwice(names0);
      Splice(name);
    }

    /** The part of `insert` after the steps: a new node between the current
        one and its left neighbour, made current. */
    method Splice(name: nat)
      requires Valid()
      modifies Repr
      ensures Valid() && fresh(Repr - old(Repr)) && size == old(size) + 1
      ensures Names() == [name] + old(Names())
    {
      ghost var r := ring;
      ghost var last := r[|r| - 1];
      var c := current;
      label linked:
      var n := new Node(name, current.left, current);
      current.left.right := n;
      current.left := n;
      current := n;
      size := size + 1;
      ring := [n] + r;
      Repr := Repr + {n};
      forall i | 0 < i < |ring| - 1
        ensures ring[i].right == ring[i + 1]
      {
        assert ring[i] == r[i - 1] != last;
        assert r[i - 1].right == old@linked(r[i - 1].right);
      }
      forall i | 1 < i < |ring|
        ensures ring[i].left == ring[i - 1]
      {
        assert ring[i] == r[i - 1] != c;
        assert r[i - 1].left == old@linked(r[i - 1].left);
      }
      NamesPush(n, r);
    }

    /** Seven steps counter-clockwise, then the node reached is unlinked,
        its right neighbour becomes current, and its name is returned. */
    method Remove() returns (score: nat)
      requires Valid() && size >= 2
      modifies Repr
      ensures Valid() && Repr == old(Repr) && size == old(size) - 1
      ensures score == Day09.RotateBack(old(Names()), 7)[0]
      ensures Names() == Day09.RotateBack(old(Names()), 7)[1..]
    {
      ghost var names0 := Names();
      for k := 0 to 7
        invariant Valid() && size == old(size) && Repr == old(Repr)
        invariant Names() == Day09.RotateBack(names0, k)
      {
        StepCounterClockwise();
      }
      score := Unlink();
    }

    /** The part of `remove` after the steps: the current node leaves the
        ring and its right neighbour becomes current. */
    method Unlink() returns (score: nat)
      requires Valid() && size >= 2
      modifies Repr
      ensures Valid() && Repr == old(Repr) && size == old(size) - 1
      ensures score == old(Names())[0] && Names() == old(Names())[1..]
    {
      ghost var r := ring;
      var p := current.left;
      var q := current.right;
      assert p == r[|r| - 1] && q == r[1];
      label linked:
      score := current.name;
      current.left.right := current.right;
      current.right.left := current.left;
      current := current.right;
      size := size - 1;
      ring := r[1..];
      forall i | 0 <= i < |ring| - 1
        ensures ring[i].right == ring[i + 1]
      {
        assert ring[i] == r[i + 1] != p;
        assert r[i + 1].right == old@linked(r[i + 1].right);
      }
      forall i | 0 < i < |ring|
        ensures ring[i].left == ring[i - 1]
      {
        assert ring[i] == r[i + 1] != q;
        assert r[i + 1].left == old@linked(r[i + 1].left);
      }
      NamesDrop(r);
    }
  }

  /** The marble taken by the last multiple of 23 up to `m`, or -1. */
  function LastRemoved(players: nat, m: nat): (r: int)
    requires players > 0
    ensures r == -1 || r >= 0
  {
    if m == 0 then -1
    else
      var rest := m - 1;
      Day09.DivStep(m);
      if m % 23 == 0 then Day09.RotateBack(Day09.Play(players, rest).circle, 7)[0]
      else LastRemoved(players, rest)
  }

  lemma LastRemovedStep(players: nat, m: nat, rest: nat)
    requires players > 0 && rest + 1 == m
    ensures |Day09.Play(players, rest).circle| >= 1
    ensures LastRemoved(players, m)
         == if m % 23 == 0 then Day09.RotateBack(Day09.Play(players, rest).circle, 7)[0]
            else LastRemoved(players, rest)
  {
    Day09.DivStep(m);
    var g := Day09.Play(players, rest);
    assert |g.circle| >= 1;
  }

  /** Before a multiple of 23 the circle has at least two marbles. */
  lemma RoomToRemove(i: nat)
    requires (i + 1) % 23 == 0
    ensures 1 + i - 2 * (i / 23) >= 2
  {
  }

  lemma {:induction false} MulAtLeast(n: int, d: int)
    requires n > 0 && d >= 1
    ensures n * d >= n
  {
    if d > 1 {
      MulAtLeast(n, d - 1);
      assert n * d == n * (d - 1) + n;
    }
  }

  /** Euclidean division has one remainder. */
  lemma ModUnique(x: int, n: int, q: int, r: int)
    requires n > 0 && 0 <= r < n && x == n * q + r
    ensures x % n == r
  {
    var q', r' := x / n, x % n;
    assert x == n * q' + r';
    assert n * q - n * q' == n * (q - q');
    if q > q' {
      MulAtLeast(n, q - q');
    } else if q < q' {
      assert n * q' - n * q == n * (q' - q);
      MulAtLeast(n, q' - q);
    }
  }

  /** `elf = (elf + 1) % N`: the elf after the one who placed marble `i`
      places marble `i + 1`. */
  method NextElf(elf: int, i: nat, players: nat) returns (elf': int)
    requires players > 0 && elf == if i == 0 then -1 else Day09.Scorer(i, players)
    ensures elf' == Day09.Scorer(i + 1, players)
  {
    elf' := (elf + 1) % players;
    if i > 0 {
      var a := i - 1;
      var q := a / players;
      var r := a % players;
      assert a == players * q + r;
      if r + 1 < players {
        ModUnique(r + 1, players, 0, r + 1);
        ModUnique(i, players, q, r + 1);
      } else {
        ModUnique(r + 1, players, 1, 0);
        ModUnique(i, players, q + 1, 0);
      }
    }
  }

  /** A multiple of 23 in `main`: the elf scores the marble and the marble
      `remove` takes from the circle. */
  method ScoreTurn(c: Circle, elfScore: seq<nat>, elf: nat, marble: nat, ghost g: Day09.Game, players: nat)
    returns (elfScore': seq<nat>, removeScore: nat)
    requires c.Valid() && c.size >= 2 && 0 < players && marble > 0 && marble % 23 == 0
    requires c.Names() == g.circle && elfScore == g.scores && |g.scores| == players
    requires elf == Day09.Scorer(marble, players)
    modifies c.Repr
    ensures c.Valid() && c.Repr == old(c.Repr)
    ensures c.Names() == Day09.Place(g, marble, players).circle
    ensures elfScore' == Day09.Place(g, marble, players).scores
    ensures removeScore == Day09.RotateBack(g.circle, 7)[0]
  {
    elfScore' := elfScore[elf := elfScore[elf] + marble];
    removeScore := c.Remove();
    ScoreParts(g, marble, players, removeScore);
    elfScore' := elfScore'[elf := elfScore'[elf] + removeScore];
  }

  /** A multiple of 23 takes the marble seven places back out of the circle,
      and its elf scores the two marbles one after the other. */
  lemma ScoreParts(g: Day09.Game, marble: nat, players: nat, removed: nat)
    requires |g.circle| >= 1 && 0 < players == |g.scores| && marble > 0 && marble % 23 == 0
    requires removed == Day09.RotateBack(g.circle, 7)[0]
    ensures Day09.Place(g, marble, players).circle == Day09.RotateBack(g.circle, 7)[1..]
    ensures var p := Day09.Scorer(marble, players);
            var s := g.scores[p := g.scores[p] + marble];
            s[p := s[p] + removed] == Day09.Place(g, marble, players).scores
  {
    var p := Day09.Scorer(marble, players);
    Day09.ScoreTwice(g, marble, players, g.scores[p := g.scores[p] + marble], removed);
  }

  /** The loop state of `main` after `i` marbles: the linked circle, the
      scores, the elf who placed marble `i` and the last marble removed. */
  ghost predicate Tracks(c: Circle, elfScore: seq<nat>, elf: int, lastRemoveScore: int, i: nat, players: nat)
    reads c, c.Repr
    requires players > 0
  {
    c.Valid() && c.Names() == Day09.Play(players, i).circle
    && elfScore == Day09.Play(players, i).scores
    && elf == (if i == 0 then -1 else Day09.Scorer(i, players))
    && lastRemoveScore == LastRemoved(players, i)
  }

  /** One pass of the loop in `main`, for marble `marble`. */
  method PlayTurn(c: Circle, elfScore: seq<nat>, elf: int, lastRemoveScore: int, marble: nat, i: nat, players: nat)
    returns (elfScore': seq<nat>, elf': int, lastRemoveScore': int)
    requires players > 0 && i + 1 == marble
    requires Tracks(c, elfScore, elf, lastRemoveScore, i, players)
    modifies c.Repr
    ensures fresh(c.Repr - old(c.Repr))
    ensures Tracks(c, elfScore', elf', lastRemoveScore', marble, players)
  {
    ghost var g := Day09.Play(players, i);
    Day09.PlayStep(players, marble, i);
    LastRemovedStep(players, marble, i);
    elf' := NextElf(elf, i, players);
    if marble % 23 == 0 {
      RoomToRemove(i);
      var removeScore;
      elfScore', removeScore := ScoreTurn(c, elfScore, elf', marble, g, players);
      lastRemoveScore' := removeScore;
    } else {
      c.Insert(marble);
      elfScore' := elfScore;
      lastRemoveScore' := lastRemoveScore;
      assert Day09.Place(g, marble, players) == Day09.Insert(g, marble);
    }
  }

  /** The state of `main` before the loop: marble 0 alone and no scores. */
  method Start(players: nat) returns (c: Circle, elfScore: seq<nat>)
    requires players > 0
    ensures fresh(c.Repr)
    ensures Tracks(c, elfScore, -1, -1, 0, players)
  {
    c := new Circle();
    elfScore := seq(players, _ => 0);
  }

  /** `main`: the game played on the linked circle, `players` elves and
      `lastMarble` marbles; it returns the last marble removed and the best
      score. */
  method RunGame(players: nat, lastMarble: nat) returns (lastRemoveScore: int, best: nat)
    requires players > 0
    ensures best == Day09.MaxOf(Day09.Play(players, lastMarble).scores)
    ensures lastRemoveScore == LastRemoved(players, lastMarble)
  {
    var c, elfScore := Start(players);
    lastRemoveScore := -1;
    var elf: int := -1;
    var i: nat := 0;
    while c.size > 0 && i < lastMarble
      invariant i <= lastMarble
      decreases lastMarble - i
      invariant fresh(c.Repr)
      invariant Tracks(c, elfScore, elf, lastRemoveScore, i, players)
    {
      var marble := i + 1;
      elfScore, elf, lastRemoveScore := PlayTurn(c, elfScore, elf, lastRemoveScore, marble, i, players);
      i := marble;
    }
    assert c.Valid() && i == lastMarble;
    best := Day09.MaxOf(elfScore);
  }
}
