/** Marble Mania (rust/src/day09.rs): marbles placed into a circle kept in a
    double-ended queue whose front is the current marble; every 23rd marble
    is scored together with the marble seven places counter-clockwise. */
module Day09 {

  import opened Wrappers

  /** The circle, front first, and each player's score. */
  datatype Game = Game(circle: seq<nat>, scores: seq<nat>)

  /** `pop_back` then `push_front`: the last marble moves to the front. */
  function TurnBack(d: seq<nat>): (r: seq<nat>)
    requires |d| >= 1
    ensures |r| == |d|
    ensures multiset(r) == multiset(d)
  {
    assert d == d[..|d| - 1] + [d[|d| - 1]];
    [d[|d| - 1]] + d[..|d| - 1]
  }

  /** `pop_front` then `push_back`: the front marble moves to the back. */
  function TurnFront(d: seq<nat>): (r: seq<nat>)
    requires |d| >= 1
    ensures |r| == |d|
    ensures multiset(r) == multiset(d)
  {
    assert d == [d[0]] + d[1..];
    d[1..] + [d[0]]
  }

  /** `k` turns counter-clockwise. */
  function RotateBack(c: seq<nat>, k: nat): (r: seq<nat>)
    requires |c| >= 1
    ensures |r| == |c|
  {
    if k == 0 then c else TurnBack(RotateBack(c, k - 1))
  }

  /** `k` turns clockwise. */
  function RotateFront(c: seq<nat>, k: nat): (r: seq<nat>)
    requires |c| >= 1
    ensures |r| == |c|
  {
    if k == 0 then c else TurnFront(RotateFront(c, k - 1))
  }

  /** Two turns clockwise are two single turns. */
  lemma RotateFrontTwice(c: seq<nat>)
    requires |c| >= 1
    ensures RotateFront(c, 2) == TurnFront(TurnFront(c))
  {
    assert RotateFront(c, 1) == TurnFront(c);
  }

  /** One more clockwise turn moves the cut one marble on. */
  lemma FrontCutStep(c: seq<nat>, k: nat)
    requires 0 < k <= |c|
    ensures TurnFront(c[k - 1..] + c[..k - 1]) == c[k..] + c[..k]
  {
    var d := c[k - 1..] + c[..k - 1];
    assert d[0] == c[k - 1];
    assert d[1..] == c[k..] + c[..k - 1];
    assert c[..k] == c[..k - 1] + [c[k - 1]];
  }

  /** Turning clockwise by `k` marbles, at most a full turn, cuts the
      circle after `k` marbles and swaps the two pieces. */
  lemma {:induction false} RotateFrontIsCut(c: seq<nat>, k: nat)
    requires 1 <= |c| && k <= |c|
    ensures RotateFront(c, k) == c[k..] + c[..k]
  {
    if k > 0 {
      RotateFrontIsCut(c, k - 1);
      FrontCutStep(c, k);
    }
  }

  /** One more counter-clockwise turn moves the cut one marble back. */
  lemma BackCutStep(c: seq<nat>, j: nat)
    requires j < |c|
    ensures TurnBack(c[j + 1..] + c[..j + 1]) == c[j..] + c[..j]
  {
    var d := c[j + 1..] + c[..j + 1];
    assert d[|d| - 1] == c[j];
    assert d[..|d| - 1] == c[j + 1..] + c[..j];
    assert c[j..] == [c[j]] + c[j + 1..];
  }

  /** Turning counter-clockwise by `k` marbles, at most a full turn, cuts the
      circle `k` marbles before its end and swaps the two pieces. */
  lemma {:induction false} RotateBackIsCut(c: seq<nat>, k: nat)
    requires 1 <= |c| && k <= |c|
    ensures RotateBack(c, k) == c[|c| - k..] + c[..|c| - k]
  {
    if k > 0 {
      RotateBackIsCut(c, k - 1);
      BackCutStep(c, |c| - k);
    }
  }

  /** A full turn either way brings the circle back. */
  lemma FullTurn(c: seq<nat>)
    requires |c| >= 1
    ensures RotateFront(c, |c|) == c && RotateBack(c, |c|) == c
  {
    RotateFrontIsCut(c, |c|);
    RotateBackIsCut(c, |c|);
  }

  /** Turning the circle clockwise keeps its marbles. */
  lemma {:induction false} RotateFrontKeepsMarbles(c: seq<nat>, k: nat)
    requires |c| >= 1
    ensures multiset(RotateFront(c, k)) == multiset(c)
  {
    if k > 0 {
      RotateFrontKeepsMarbles(c, k - 1);
    }
  }

  /** Turning the circle counter-clockwise keeps its marbles. */
  lemma {:induction false} RotateBackKeepsMarbles(c: seq<nat>, k: nat)
    requires |c| >= 1
    ensures multiset(RotateBack(c, k)) == multiset(c)
  {
    if k > 0 {
      RotateBackKeepsMarbles(c, k - 1);
    }
  }

  /** The player placing marble `marble`: players take turns from the
      first, who places marble 1. */
  function Scorer(marble: nat, players: nat): (p: nat)
    requires marble > 0 && players > 0
    ensures p < players
  {
    (marble - 1) % players
  }

  /** A multiple of 23 is kept by player `(marble - 1) mod players`, who
      also takes the marble seven places counter-clockwise; the marble
      clockwise of that one becomes current. */
  function Score(g: Game, marble: nat, players: nat): (g': Game)
    requires |g.circle| >= 1 && 0 < players == |g.scores| && marble > 0
    ensures |g'.scores| == players && |g'.circle| == |g.circle| - 1
  {
    var player := Scorer(marble, players);
    var turned := RotateBack(g.circle, 7);
    Game(turned[1..], g.scores[player := g.scores[player] + marble + turned[0]])
  }

  /** Any other marble goes between the marbles one and two places
      clockwise of the current one, and becomes current. */
  function Insert(g: Game, marble: nat): (g': Game)
    requires |g.circle| >= 1
    ensures g'.scores == g.scores && |g'.circle| == |g.circle| + 1
  {
    Game([marble] + RotateFront(g.circle, 2), g.scores)
  }

  /** Marble `marble` played by `players` players. */
  function Place(g: Game, marble: nat, players: nat): (g': Game)
    requires |g.circle| >= 1 && 0 < players == |g.scores| && marble > 0
    ensures |g'.scores| == players
    ensures |g'.circle| == if marble % 23 == 0 then |g.circle| - 1 else |g.circle| + 1
  {
    if marble % 23 == 0 then Score(g, marble, players) else Insert(g, marble)
  }

  /** How `m / 23` moves from one marble to the next. */
  lemma DivStep(m: nat)
    requires m > 0
    ensures m / 23 == (m - 1) / 23 + (if m % 23 == 0 then 1 else 0)
    ensures 2 * ((m - 1) / 23) <= m - 1
  {
  }

  /** The game after marbles 1 to `m`: the circle holds 1 + m - 2 * (m / 23)
      marbles, so it is never empty. */
  function Play(players: nat, m: nat): (g: Game)
    requires players > 0
    ensures |g.circle| == 1 + m - 2 * (m / 23) && |g.scores| == players
  {
    if m == 0 then Game([0], seq(players, _ => 0))
    else
      var g := Play(players, m - 1);
      DivStep(m);
      Place(g, m, players)
  }

  /** One more marble. */
  lemma PlayStep(players: nat, m: nat, rest: nat)
    requires players > 0 && rest + 1 == m
    ensures |Play(players, rest).circle| >= 1
    ensures Play(players, m) == Place(Play(players, rest), m, players)
  {
    DivStep(m);
  }

  /** The greatest entry. */
  function MaxOf(xs: seq<nat>): (m: nat)
    requires |xs| > 0
    ensures (forall i :: 0 <= i < |xs| ==> xs[i] <= m) && exists i :: 0 <= i < |xs| && xs[i] == m
  {
    if |xs| == 1 then xs[0]
    else
      var m := MaxOf(xs[..|xs| - 1]);
      assert forall i :: 0 <= i < |xs| - 1 ==> xs[..|xs| - 1][i] == xs[i];
      if xs[|xs| - 1] > m then xs[|xs| - 1] else m
  }

  /** The `pop_back`/`push_front` loop of `play_game`. */
  method TurnBackBy(c: seq<nat>, turns: nat) returns (circle: seq<nat>)
    requires |c| >= 1
    ensures circle == RotateBack(c, turns)
  {
    circle := c;
    for k := 0 to turns
      invariant circle == RotateBack(c, k)
    {
      var back := circle[|circle| - 1];
      circle := [back] + circle[..|circle| - 1];
    }
  }

  /** The `pop_front`/`push_back` loop of `play_game`. */
  method TurnFrontBy(c: seq<nat>, turns: nat) returns (circle: seq<nat>)
    requires |c| >= 1
    ensures circle == RotateFront(c, turns)
  {
    circle := c;
    for k := 0 to turns
      invariant circle == RotateFront(c, k)
    {
      var front := circle[0];
      circle := circle[1..] + [front];
    }
  }

  /** `play_game` adds the marble and the removed marble to the score one
      after the other. */
  lemma ScoreTwice(g: Game, marble: nat, players: nat, s: seq<nat>, removed: nat)
    requires |g.circle| >= 1 && 0 < players == |g.scores| && marble > 0
    requires s == g.scores[Scorer(marble, players) := g.scores[Scorer(marble, players)] + marble]
    requires removed == RotateBack(g.circle, 7)[0]
    ensures s[Scorer(marble, players) := s[Scorer(marble, players)] + removed] == Score(g, marble, players).scores
  {
  }

  /** One pass of the loop in `play_game`. */
  method PlaceMarble(circle: seq<nat>, scores: seq<nat>, marble: nat, players: nat)
    returns (circle': seq<nat>, scores': seq<nat>)
    requires |circle| >= 1 && 0 < players == |scores| && marble > 0
    ensures Game(circle', scores') == Place(Game(circle, scores), marble, players)
  {
    ghost var g := Game(circle, scores);
    scores' := scores;
    if marble % 23 == 0 {
      var player := Scorer(marble, players);
      scores' := scores'[player := scores'[player] + marble];
      circle' := TurnBackBy(circle, 7);
      var removed := circle'[0];
      circle' := circle'[1..];
      ScoreTwice(g, marble, players, scores', removed);
      scores' := scores'[player := scores'[player] + removed];
      assert Game(circle', scores') == Score(g, marble, players);
    } else {
      circle' := TurnFrontBy(circle, 2);
      circle' := [marble] + circle';
      assert Game(circle', scores') == Insert(g, marble);
    }
  }

  /** `play_game`: the best score after the last marble; `None` where there
      are no players, since every such game panics, on `% 0` at the first
      multiple of 23 or on `max()` of no scores at the end. */
  method PlayGame(players: nat, lastMarble: nat) returns (r: Option<nat>)
    ensures players == 0 ==> r == None
    ensures players > 0 ==> r == Some(MaxOf(Play(players, lastMarble).scores))
  {
    if players == 0 {
      return None;
    }
    var scores: seq<nat> := seq(players, _ => 0);
    var circle: seq<nat> := [0];
    var played := 0;
    while played < lastMarble
      invariant played <= lastMarble
      invariant Play(players, played) == Game(circle, scores)
    {
      var marble := played + 1;
      PlayStep(players, marble, played);
      circle, scores := PlaceMarble(circle, scores, marble, players);
      played := marble;
    }
    r := Some(MaxOf(scores));
  }

  /** A placed marble that is not a multiple of 23 becomes the current one. */
  lemma PlacedIsCurrent(players: nat, m: nat)
    requires players > 0 && m % 23 != 0
    ensures Play(players, m).circle[0] == m
  {
  }

  /** Placing a marble lowers no score. */
  lemma PlaceRaisesScores(g: Game, marble: nat, players: nat, p: nat)
    requires |g.circle| >= 1 && 0 < players == |g.scores| && p < players && marble > 0
    ensures g.scores[p] <= Place(g, marble, players).scores[p]
  {
  }

  /** No score ever goes down. */
  lemma {:induction false} ScoresNeverDrop(players: nat, m: nat, m': nat, p: nat)
    requires players > 0 && m <= m' && p < players
    ensures Play(players, m).scores[p] <= Play(players, m').scores[p]
    decreases m' - m
  {
    if m < m' {
      var rest := m' - 1;
      ScoresNeverDrop(players, m, rest, p);
      PlayStep(players, m', rest);
      PlaceRaisesScores(Play(players, rest), m', players, p);
    }
  }

  /** No marble is ever in the circle twice. */
  ghost predicate Distinct(c: seq<nat>) {
    forall x :: multiset(c)[x] <= 1
  }

  /** A circle of one marble. */
  lemma OneMarbleDistinct(c: seq<nat>)
    requires |c| == 1
    ensures Distinct(c)
  {
    assert multiset(c) == multiset{c[0]} by {
      assert c == [c[0]];
    }
  }

  /** Dropping the front marble keeps the rest distinct. */
  lemma DropDistinct(t: seq<nat>, bound: nat)
    requires |t| >= 1 && Distinct(t) && forall x :: x in t ==> x < bound
    ensures Distinct(t[1..]) && forall x :: x in t[1..] ==> x <= bound
  {
    assert t == [t[0]] + t[1..];
    assert multiset(t) == multiset{t[0]} + multiset(t[1..]);
    forall x
      ensures multiset(t[1..])[x] <= 1
    {
      assert multiset(t[1..])[x] <= multiset(t)[x];
    }
    forall x | x in t[1..]
      ensures x <= bound
    {
      assert x in multiset(t[1..]);
      assert x in multiset(t);
      assert x in t;
    }
  }

  /** Pushing a marble larger than all the others keeps them distinct. */
  lemma PushDistinct(t: seq<nat>, marble: nat)
    requires Distinct(t) && forall x :: x in t ==> x < marble
    ensures Distinct([marble] + t) && forall x :: x in [marble] + t ==> x <= marble
  {
    assert marble !in t;
    assert multiset([marble] + t) == multiset{marble} + multiset(t);
    forall x
      ensures multiset([marble] + t)[x] <= 1
    {
      if x == marble {
        assert multiset(t)[x] == 0;
      }
    }
  }

  /** Two arrangements of the same marbles. */
  lemma SameMarbles(c: seq<nat>, t: seq<nat>, bound: nat)
    requires multiset(c) == multiset(t)
    requires Distinct(c) && forall x :: x in c ==> x < bound
    ensures Distinct(t) && forall x :: x in t ==> x < bound
  {
    forall x | x in t
      ensures x < bound
    {
      assert x in multiset(t);
      assert x in multiset(c);
      assert x in c;
    }
  }

  /** Placing a marble larger than every marble in a circle of distinct
      marbles keeps them distinct. */
  lemma PlaceDistinct(g: Game, marble: nat, players: nat)
    requires |g.circle| >= 1 && 0 < players == |g.scores| && marble > 0
    requires Distinct(g.circle) && forall x :: x in g.circle ==> x < marble
    ensures Distinct(Place(g, marble, players).circle)
    ensures forall x :: x in Place(g, marble, players).circle ==> x <= marble
  {
    var c := g.circle;
    if marble % 23 == 0 {
      RotateBackKeepsMarbles(c, 7);
      SameMarbles(c, RotateBack(c, 7), marble);
      DropDistinct(RotateBack(c, 7), marble);
    } else {
      RotateFrontKeepsMarbles(c, 2);
      SameMarbles(c, RotateFront(c, 2), marble);
      PushDistinct(RotateFront(c, 2), marble);
    }
  }

  /** The circle holds distinct marbles, none of them above the last one
      played. */
  lemma {:induction false} CircleDistinct(players: nat, m: nat)
    requires players > 0
    ensures Distinct(Play(players, m).circle)
    ensures forall x :: x in Play(players, m).circle ==> x <= m
  {
    if m == 0 {
      OneMarbleDistinct(Play(players, 0).circle);
    } else {
      var rest := m - 1;
      CircleDistinct(players, rest);
      PlayStep(players, m, rest);
      PlaceDistinct(Play(players, rest), m, players);
    }
  }

  /** The sum of some marbles or scores. */
  function Total(xs: seq<nat>): nat {
    if |xs| == 0 then 0 else Total(xs[..|xs| - 1]) + xs[|xs| - 1]
  }

  lemma {:induction false} TotalAppend(a: seq<nat>, b: seq<nat>)
    ensures Total(a + b) == Total(a) + Total(b)
    decreases |b|
  {
    if |b| > 0 {
      var rest := b[..|b| - 1];
      assert (a + b)[..|a + b| - 1] == a + rest;
      TotalAppend(a, rest);
    } else {
      assert a + b == a;
    }
  }

  /** Changing one entry changes the sum by the difference. */
  lemma TotalUpdate(s: seq<nat>, p: nat, v: nat)
    requires p < |s|
    ensures Total(s[p := v]) + s[p] == Total(s) + v
  {
    assert s == s[..p] + [s[p]] + s[p + 1..];
    assert s[p := v] == s[..p] + [v] + s[p + 1..];
    TotalAppend(s[..p] + [s[p]], s[p + 1..]);
    TotalAppend(s[..p], [s[p]]);
    TotalAppend(s[..p] + [v], s[p + 1..]);
    TotalAppend(s[..p], [v]);
  }

  /** One clockwise turn keeps the sum of the marbles. */
  lemma TurnFrontKeepsTotal(d: seq<nat>)
    requires |d| >= 1
    ensures Total(TurnFront(d)) == Total(d)
  {
    calc {
      Total(TurnFront(d));
      Total(d[1..] + [d[0]]);
      { TotalAppend(d[1..], [d[0]]); }
      Total(d[1..]) + Total([d[0]]);
      { TotalAppend([d[0]], d[1..]); assert [d[0]] + d[1..] == d; }
      Total(d);
    }
  }

  /** One counter-clockwise turn keeps the sum of the marbles. */
  lemma TurnBackKeepsTotal(d: seq<nat>)
    requires |d| >= 1
    ensures Total(TurnBack(d)) == Total(d)
  {
    var last := d[|d| - 1];
    calc {
      Total(TurnBack(d));
      Total([last] + d[..|d| - 1]);
      { TotalAppend([last], d[..|d| - 1]); }
      Total([last]) + Total(d[..|d| - 1]);
      Total(d);
    }
  }

  /** Turning the circle clockwise keeps the sum of its marbles. */
  lemma {:induction false} RotateFrontKeepsTotal(c: seq<nat>, k: nat)
    requires |c| >= 1
    ensures Total(RotateFront(c, k)) == Total(c)
  {
    if k > 0 {
      RotateFrontKeepsTotal(c, k - 1);
      TurnFrontKeepsTotal(RotateFront(c, k - 1));
    }
  }

  /** Turning the circle counter-clockwise keeps the sum of its marbles. */
  lemma {:induction false} RotateBackKeepsTotal(c: seq<nat>, k: nat)
    requires |c| >= 1
    ensures Total(RotateBack(c, k)) == Total(c)
  {
    if k > 0 {
      RotateBackKeepsTotal(c, k - 1);
      TurnBackKeepsTotal(RotateBack(c, k - 1));
    }
  }

  /** Placing a marble adds it to the circle or to a score: nothing else
      appears or disappears. */
  lemma PlaceKeepsTotal(g: Game, marble: nat, players: nat)
    requires |g.circle| >= 1 && 0 < players == |g.scores| && marble > 0
    ensures Total(Place(g, marble, players).circle) + Total(Place(g, marble, players).scores)
         == Total(g.circle) + Total(g.scores) + marble
  {
    if marble % 23 == 0 {
      var turned := RotateBack(g.circle, 7);
      var player := Scorer(marble, players);
      RotateBackKeepsTotal(g.circle, 7);
      assert turned == [turned[0]] + turned[1..];
      TotalAppend([turned[0]], turned[1..]);
      TotalUpdate(g.scores, player, g.scores[player] + marble + turned[0]);
      assert Place(g, marble, players) == Score(g, marble, players);
    } else {
      RotateFrontKeepsTotal(g.circle, 2);
      TotalAppend([marble], RotateFront(g.circle, 2));
      assert Place(g, marble, players) == Insert(g, marble);
    }
  }

  /** Every marble played so far lies in the circle or in exactly one
      score: together they add up to 0 + 1 + ... + m. */
  lemma {:induction false} MarblesConserved(players: nat, m: nat)
    requires players > 0
    ensures 2 * (Total(Play(players, m).circle) + Total(Play(players, m).scores)) == m * (m + 1)
  {
    if m == 0 {
      ZeroScores(players);
      assert Total([0]) == 0;
    } else {
      var rest := m - 1;
      MarblesConserved(players, rest);
      PlayStep(players, m, rest);
      PlaceKeepsTotal(Play(players, rest), m, players);
      Triangle(m, rest);
    }
  }

  lemma Triangle(m: nat, rest: nat)
    requires rest + 1 == m
    ensures m * (m + 1) == rest * (rest + 1) + 2 * m
  {
  }

  /** Nobody has scored before the first marble. */
  lemma {:induction false} ZeroScores(players: nat)
    ensures Total(seq(players, _ => 0)) == 0
  {
    if players > 0 {
      ZeroScores(players - 1);
      assert seq(players, _ => 0)[..players - 1] == seq(players - 1, _ => 0);
    }
  }

  /** `part2` plays a hundred times as many marbles. */
  method Part2(players: nat, lastMarble: nat) returns (r: Option<nat>)
    ensures players > 0 ==> r == Some(MaxOf(Play(players, lastMarble * 100).scores))
    ensures players == 0 ==> r == None
  {
    r := PlayGame(players, lastMarble * 100);
  }
}
