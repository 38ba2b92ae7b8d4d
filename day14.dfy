// Day 14: Chocolate Charts. Two elves extend a scoreboard of recipe scores:
// each round appends the digits of the sum of their current recipes, and each
// elf then steps forward one plus its recipe's score, wrapping around.

module Day14 {
  import opened Wrappers

  /** The scoreboard and the two elves' indices into it. */
  datatype Board = Board(recipes: seq<int>, elf1: nat, elf2: nat)

  /** Every score is a digit and both elves stand on a recipe. */
  predicate Valid(b: Board)
  {
    |b.recipes| >= 2 && b.elf1 < |b.recipes| && b.elf2 < |b.recipes|
    && forall i :: 0 <= i < |b.recipes| ==> 0 <= b.recipes[i] <= 9
  }

  /** `[3, 7]` with the elves at 0 and 1. */
  function Start(): (b: Board)
    ensures Valid(b)
  {
    Board([3, 7], 0, 1)
  }

  /** The digits of a sum of two scores: "1" and the remainder from 10 on, else the sum itself. */
  function Digits(sum: int): seq<int>
  {
    if sum >= 10 then [1, sum - 10] else [sum]
  }

  /** One round: append the digits of the sum, then each elf moves on 1 + its score, modulo the new length. A board that is not valid, which no round produces, is left as it is. */
  function Step(b: Board): Board
  {
    if !Valid(b) then b
    else
      var recipes := b.recipes + Digits(b.recipes[b.elf1] + b.recipes[b.elf2]);
      Board(recipes, (b.elf1 + 1 + recipes[b.elf1]) % |recipes|, (b.elf2 + 1 + recipes[b.elf2]) % |recipes|)
  }

  /** A round keeps the board valid and appends the digits of the two elves' sum, one or two of them. */
  lemma StepAppends(b: Board)
    requires Valid(b)
    ensures Valid(Step(b))
    ensures Step(b).recipes == b.recipes + Digits(b.recipes[b.elf1] + b.recipes[b.elf2])
    ensures |b.recipes| + 1 <= |Step(b).recipes| <= |b.recipes| + 2
  {
  }

  /** The board after k rounds. */
  function Rounds(k: nat): Board
  {
    if k == 0 then Start() else Step(Rounds(k - 1))
  }

  /** Every board the rounds build is valid: scores are digits and the elves stay on the board. */
  lemma {:induction false} RoundsValid(k: nat)
    ensures Valid(Rounds(k))
  {
    if k > 0 {
      RoundsValid(k - 1);
      StepAppends(Rounds(k - 1));
    }
  }

  /** The board grows by one or two recipes a round. */
  lemma {:induction false} RoundsLength(k: nat)
    ensures k + 2 <= |Rounds(k).recipes| <= 2 * k + 2
  {
    if k > 0 {
      RoundsLength(k - 1);
      RoundsValid(k - 1);
      StepAppends(Rounds(k - 1));
    }
  }

  /** A round keeps every recipe already on the board. */
  lemma RoundKeeps(n: nat, i: nat)
    requires 0 < n && i < |Rounds(n - 1).recipes|
    ensures i < |Rounds(n).recipes| && Rounds(n).recipes[i] == Rounds(n - 1).recipes[i]
  {
    RoundsValid(n - 1);
    StepAppends(Rounds(n - 1));
  }

  /** Later rounds only append: recipe i of the board after j rounds is recipe i after any k >= j rounds. */
  lemma {:induction false} RoundsExtend(j: nat, k: nat, i: nat)
    requires j <= k && i < |Rounds(j).recipes|
    ensures i < |Rounds(k).recipes| && Rounds(k).recipes[i] == Rounds(j).recipes[i]
    decreases k - j
  {
    if j == k {
    } else {
      RoundsExtend(j, k - 1, i);
      RoundKeeps(k, i);
    }
  }

  /** Recipe i of the never-ending scoreboard. */
  function Recipe(i: nat): int
  {
    RoundsLength(i);
    Rounds(i).recipes[i]
  }

  /** Every board the rounds build agrees with the never-ending scoreboard. */
  lemma BoardIsRecipes(k: nat, i: nat)
    requires i < |Rounds(k).recipes|
    ensures Rounds(k).recipes[i] == Recipe(i)
  {
    RoundsLength(i);
    if i <= k {
      RoundsExtend(i, k, i);
    } else {
      RoundsExtend(k, i, i);
    }
  }

  lemma RecipeIsDigit(i: nat)
    ensures 0 <= Recipe(i) <= 9
  {
    RoundsLength(i);
    RoundsValid(i);
  }

  /** The scoreboard opens 3, 7, 1, 0, 1, 0. */
  lemma FirstRecipes()
    ensures Recipe(0) == 3 && Recipe(1) == 7 && Recipe(2) == 1 && Recipe(3) == 0
  {
    assert Rounds(1) == Board([3, 7, 1, 0], 0, 1);
    BoardIsRecipes(1, 0);
    BoardIsRecipes(1, 1);
    BoardIsRecipes(1, 2);
    BoardIsRecipes(1, 3);
  }

  /** One round of the loop body, on the scoreboard held in a variable. */
  method Round(recipes: seq<int>, elf1: nat, elf2: nat) returns (recipes': seq<int>, elf1': nat, elf2': nat)
    requires Valid(Board(recipes, elf1, elf2))
    ensures Board(recipes', elf1', elf2') == Step(Board(recipes, elf1, elf2))
  {
    var sum := recipes[elf1] + recipes[elf2];
    recipes' := recipes;
    if sum >= 10 {
      recipes' := recipes' + [1];
      recipes' := recipes' + [sum - 10];
    } else {
      recipes' := recipes' + [sum];
    }
    elf1' := (elf1 + 1 + recipes'[elf1]) % |recipes'|;
    elf2' := (elf2 + 1 + recipes'[elf2]) % |recipes'|;
  }

  /** make_recipes: rounds until the board holds target recipes; it stops within one recipe of the target. */
  method MakeRecipes(target: nat) returns (recipes: seq<int>)
    ensures |recipes| >= target
    ensures |recipes| <= target + 1 || |recipes| == 2
    ensures forall i :: 0 <= i < |recipes| ==> recipes[i] == Recipe(i)
  {
    var elf1: nat, elf2: nat := 0, 1;
    recipes := [3, 7];
    ghost var k := 0;
    while |recipes| < target
      invariant Board(recipes, elf1, elf2) == Rounds(k)
      invariant |recipes| <= target + 1 || |recipes| == 2
      decreases target - |recipes|
    {
      RoundsValid(k);
      recipes, elf1, elf2 := Round(recipes, elf1, elf2);
      k := k + 1;
    }
    forall i | 0 <= i < |recipes|
      ensures recipes[i] == Recipe(i)
    {
      BoardIsRecipes(k, i);
    }
  }

  /** part1: the ten scores after the first n, as digit characters. */
  method Part1(n: nat) returns (s: string)
    ensures |s| == 10
    ensures forall i :: 0 <= i < 10 ==> s[i] as int == '0' as int + Recipe(n + i)
  {
    var recipes := MakeRecipes(n + 10);
    s := [];
    for i := 0 to 10
      invariant |s| == i
      invariant forall j :: 0 <= j < i ==> s[j] as int == '0' as int + Recipe(n + j)
    {
      RecipeIsDigit(n + i);
      s := s + [('0' as int + recipes[n + i]) as char];
    }
  }

  // ---------------------------------------------------------------------
  // part2

  /** The pattern sits at index i of the never-ending scoreboard. */
  ghost predicate Occurs(pattern: seq<int>, i: nat)
  {
    forall t :: 0 <= t < |pattern| ==> Recipe(i + t) == pattern[t]
  }

  /** The pattern sits on the board just before index `end`. */
  predicate EndsAt(recipes: seq<int>, pattern: seq<int>, end: int)
  {
    |pattern| <= end <= |recipes| && recipes[end - |pattern|..end] == pattern
  }

  /** On any board the rounds build, a match ending at `end` is an occurrence in the never-ending scoreboard. */
  lemma EndsAtOccurs(k: nat, pattern: seq<int>, i: nat)
    requires i + |pattern| <= |Rounds(k).recipes|
    ensures EndsAt(Rounds(k).recipes, pattern, i + |pattern|) <==> Occurs(pattern, i)
  {
    var end := i + |pattern|;
    var window := Rounds(k).recipes[i..end];
    forall t | 0 <= t < |pattern|
      ensures window[t] == Recipe(i + t)
    {
      BoardIsRecipes(k, i + t);
    }
    if Occurs(pattern, i) {
      assert window == pattern;
    }
  }

  /** No match ends anywhere in lo .. hi. */
  predicate Clean(recipes: seq<int>, pattern: seq<int>, lo: int, hi: int)
  {
    forall e :: lo <= e <= hi ==> !EndsAt(recipes, pattern, e)
  }

  /** Appending to a board leaves every match that ends within the old board as it was. */
  lemma CleanAfterAppend(before: seq<int>, after: seq<int>, pattern: seq<int>, lo: int, hi: int)
    requires |before| <= |after| && after[..|before|] == before && hi <= |before|
    requires Clean(before, pattern, lo, hi)
    ensures Clean(after, pattern, lo, hi)
  {
    forall e | lo <= e <= hi
      ensures !EndsAt(after, pattern, e)
    {
      assert !EndsAt(before, pattern, e);
      if |pattern| <= e {
        assert after[..|before|][e - |pattern|..e] == after[e - |pattern|..e];
        assert after[e - |pattern|..e] == before[e - |pattern|..e];
      }
    }
  }

  /** No match ends at hi or hi - 1, so none ends in lo .. hi when lo > hi - 2. */
  lemma CleanLastTwo(recipes: seq<int>, pattern: seq<int>, lo: int, hi: int)
    requires hi - 2 < lo && !EndsAt(recipes, pattern, hi) && !EndsAt(recipes, pattern, hi - 1)
    ensures Clean(recipes, pattern, lo, hi)
  {
  }

  /** Two clean stretches that meet make one. */
  lemma CleanJoin(recipes: seq<int>, pattern: seq<int>, lo: int, mid: int, hi: int)
    requires Clean(recipes, pattern, lo, mid) && Clean(recipes, pattern, mid + 1, hi)
    ensures Clean(recipes, pattern, lo, hi)
  {
  }

  /** On a board the rounds build, no match ending in lo .. hi means no occurrence there. */
  lemma CleanNoOccurrence(k: nat, pattern: seq<int>, lo: int, hi: int)
    requires Clean(Rounds(k).recipes, pattern, lo, hi) && hi <= |Rounds(k).recipes|
    ensures forall j: nat :: lo <= j + |pattern| <= hi ==> !Occurs(pattern, j)
  {
    forall j: nat | lo <= j + |pattern| <= hi
      ensures !Occurs(pattern, j)
    {
      EndsAtOccurs(k, pattern, j);
    }
  }

  /** The first round takes the board to 3, 7, 1, 0. */
  lemma FirstRound()
    ensures Step(Start()).recipes == [3, 7, 1, 0]
  {
  }

  /**
   * part2, run for at most `rounds` rounds: after each round it checks for the
   * pattern ending at the last recipe, then ending one before it. A match
   * found is an occurrence; every occurrence that ends at index 3 or later and
   * starts before i - 1 would have been found first; nothing is checked that
   * ends in the first two recipes.
   */
  method Part2(pattern: seq<int>, rounds: nat) returns (r: Option<nat>)
    ensures r.Some? ==> FoundAsWritten(pattern, r.value)
    ensures r.None? ==> forall j: nat :: 3 <= j + |pattern| <= |Rounds(rounds).recipes| ==> !Occurs(pattern, j)
  {
    var m := |pattern|;
    var recipes := [3, 7];
    var elf1: nat, elf2: nat := 0, 1;
    var k := 0;
    while k < rounds
      invariant k <= rounds
      invariant Board(recipes, elf1, elf2) == Rounds(k)
      invariant k >= 1 ==> |recipes| >= 4
      invariant Clean(recipes, pattern, 3, |recipes|)
    {
      var mark := |recipes|;
      recipes, elf1, elf2 := Advance(k, recipes, elf1, elf2, pattern);
      k := k + 1;
      r := CheckEnds(recipes, pattern, mark);
      if r.Some? {
        Found(k, pattern, r.value, r.value + m - 2);
        return;
      }
    }
    CleanNoOccurrence(k, pattern, 3, |recipes|);
    r := None;
  }

  /** One round of part2's loop, with what it keeps of the checks made so far. */
  method Advance(ghost k: nat, recipes: seq<int>, elf1: nat, elf2: nat, pattern: seq<int>)
    returns (recipes': seq<int>, elf1': nat, elf2': nat)
    requires Board(recipes, elf1, elf2) == Rounds(k)
    requires k >= 1 ==> |recipes| >= 4
    requires Clean(recipes, pattern, 3, |recipes|)
    ensures Board(recipes', elf1', elf2') == Rounds(k + 1)
    ensures |recipes'| >= 4 && |recipes'| - 2 <= |recipes| <= |recipes'|
    ensures Clean(recipes', pattern, 3, |recipes|)
  {
    RoundsValid(k);
    StepAppends(Board(recipes, elf1, elf2));
    recipes', elf1', elf2' := Round(recipes, elf1, elf2);
    if k == 0 {
      FirstRound();
    }
    CleanAfterAppend(recipes, recipes', pattern, 3, |recipes|);
  }

  /**
   * What part2 promises of an index it returns: the pattern occurs there and
   * ends at index 3 or later, and no occurrence that ends at 3 or later
   * starts more than one place before it.
   */
  ghost predicate FoundAsWritten(pattern: seq<int>, i: nat)
  {
    Occurs(pattern, i) && i + |pattern| >= 3
    && forall j: nat :: j + 1 < i && j + |pattern| >= 3 ==> !Occurs(pattern, j)
  }

  /** The two checks after a round: the pattern ending at the last recipe, then one before it. */
  method CheckEnds(recipes: seq<int>, pattern: seq<int>, ghost mark: int) returns (r: Option<nat>)
    requires |recipes| >= 4
    requires |recipes| - 2 <= mark <= |recipes| && Clean(recipes, pattern, 3, mark)
    ensures r.Some? ==> |recipes| - 1 <= r.value + |pattern| <= |recipes|
    ensures r.Some? ==> EndsAt(recipes, pattern, r.value + |pattern|)
    ensures r.Some? ==> Clean(recipes, pattern, 3, r.value + |pattern| - 2)
    ensures r.None? ==> Clean(recipes, pattern, 3, |recipes|)
  {
    var m := |pattern|;
    var len := |recipes|;
    if EndsAt(recipes, pattern, len) {
      return Some(len - m);
    }
    if EndsAt(recipes, pattern, len - 1) {
      var end := len - 1;
      return Some(end - m);
    }
    CleanLastTwo(recipes, pattern, mark + 1, len);
    CleanJoin(recipes, pattern, 3, mark, len);
    return None;
  }

  /** A match part2 finds on the board after k rounds is an occurrence with no earlier one it could have missed. */
  lemma Found(k: nat, pattern: seq<int>, i: nat, mark: int)
    requires 3 <= i + |pattern| <= |Rounds(k).recipes| && EndsAt(Rounds(k).recipes, pattern, i + |pattern|)
    requires i + |pattern| - 2 <= mark <= |Rounds(k).recipes| && Clean(Rounds(k).recipes, pattern, 3, mark)
    ensures FoundAsWritten(pattern, i)
  {
    EndsAtOccurs(k, pattern, i);
    CleanNoOccurrence(k, pattern, 3, mark);
  }

  /** The opening recipes "3, 7" occur at index 0, an index part2 as written can never return for them. */
  lemma OpeningOccurs()
    ensures Occurs([3, 7], 0) && !FoundAsWritten([3, 7], 0)
  {
    FirstRecipes();
  }

  // ---------------------------------------------------------------------
  // part2 checking every end, in order

  /** The first end in [from, to] at which the pattern sits, if any. */
  method FirstEnd(recipes: seq<int>, pattern: seq<int>, from: int, to: int) returns (e: Option<int>)
    requires to <= |recipes|
    ensures e.Some? ==> from <= e.value <= to && EndsAt(recipes, pattern, e.value)
    ensures e.Some? ==> Clean(recipes, pattern, from, e.value - 1)
    ensures e.None? ==> Clean(recipes, pattern, from, to)
  {
    var d := from;
    if to < from {
      return None;
    }
    while d <= to
      invariant from <= d
      invariant Clean(recipes, pattern, from, d - 1)
    {
      if |pattern| <= d && recipes[d - |pattern|..d] == pattern {
        return Some(d);
      }
      d := d + 1;
    }
    return None;
  }

  /**
   * part2 as the puzzle means it: it checks every end on the board, the
   * opening two recipes included, in increasing order, and so returns the
   * first occurrence of the pattern.
   */
  method Part2Corrected(pattern: seq<int>, rounds: nat) returns (r: Option<nat>)
    ensures r.Some? ==> Occurs(pattern, r.value)
    ensures r.Some? ==> forall j: nat :: j < r.value ==> !Occurs(pattern, j)
    ensures r.None? ==> forall j: nat :: j + |pattern| <= |Rounds(rounds).recipes| ==> !Occurs(pattern, j)
  {
    var m := |pattern|;
    var recipes := [3, 7];
    var elf1: nat, elf2: nat := 0, 1;
    var k := 0;
    var hit := FirstEnd(recipes, pattern, m, 2);
    while hit.None? && k < rounds
      invariant k <= rounds
      invariant Board(recipes, elf1, elf2) == Rounds(k)
      invariant hit.None? ==> Clean(recipes, pattern, m, |recipes|)
      invariant hit.Some? ==> m <= hit.value <= |recipes| && EndsAt(recipes, pattern, hit.value)
      invariant hit.Some? ==> Clean(recipes, pattern, m, hit.value - 1)
    {
      var before := recipes;
      RoundsValid(k);
      StepAppends(Board(recipes, elf1, elf2));
      recipes, elf1, elf2 := Round(recipes, elf1, elf2);
      k := k + 1;
      CleanAfterAppend(before, recipes, pattern, m, |before|);
      hit := FirstEnd(recipes, pattern, |before| + 1, |recipes|);
      if hit.Some? {
        CleanJoin(recipes, pattern, m, |before|, hit.value - 1);
      } else {
        CleanJoin(recipes, pattern, m, |before|, |recipes|);
      }
    }
    if hit.Some? {
      var i := hit.value - m;
      EndsAtOccurs(k, pattern, i);
      r := Some(i);
      CleanNoOccurrence(k, pattern, m, hit.value - 1);
    } else {
      r := None;
      CleanNoOccurrence(k, pattern, m, |recipes|);
    }
  }
}
