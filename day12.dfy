// Day 12: Subterranean Sustainability. A row of pots, each holding a plant or
// not; every generation a pot's next state is decided by the five pots
// centred on it. The Rust solver keeps the set of pot numbers holding plants
// and the set of five-pot patterns that produce a plant.

module Day12 {
  import opened Wrappers
  import Text

  /** Pot numbers that hold a plant (`HashSet<i64>`). */
  type Pots = set<int>

  /** A five-pot pattern, '#' for a plant and '.' for none (`[u8; 5]`). */
  type Pattern = seq<char>

  const Prefix: string := "initial state: "
  const Arrow: string := " => "

  // ---------------------------------------------------------------------
  // parse_input

  /** The pots of the initial state holding plants: the indices of its '#'s. */
  method ParsePlants(state: string) returns (plants: Pots)
    ensures forall i :: i in plants <==> 0 <= i < |state| && state[i] == '#'
  {
    plants := {};
    for i := 0 to |state|
      invariant forall k :: k in plants <==> 0 <= k < i && state[k] == '#'
    {
      if state[i] == '#' {
        plants := plants + {i};
      }
    }
  }

  /** The arrow " => " starts at position k of the line. */
  predicate ArrowAt(line: string, k: int)
  {
    0 <= k && k + |Arrow| <= |line| && line[k..k + |Arrow|] == Arrow
  }

  /** `split_once(" => ")`: the first position from `from` on where the arrow starts. */
  function FindArrow(line: string, from: nat): (r: Option<nat>)
    requires from <= |line|
    ensures r.Some? ==> from <= r.value && ArrowAt(line, r.value)
    ensures r.Some? ==> forall k :: from <= k < r.value ==> !ArrowAt(line, k)
    ensures r.None? ==> forall k :: from <= k ==> !ArrowAt(line, k)
    decreases |line| - from
  {
    if from + |Arrow| > |line| then None
    else if line[from..from + |Arrow|] == Arrow then Some(from)
    else FindArrow(line, from + 1)
  }

  /** A rule line the Rust parser accepts: blank, or "pattern => result" with a non-empty result and at most five pattern bytes. */
  predicate RuleLineOk(line: string)
  {
    Text.Trim(line) == []
    || (FindArrow(line, 0).Some?
        && FindArrow(line, 0).value + |Arrow| < |line|
        && FindArrow(line, 0).value <= 5)
  }

  /** The pattern of a rule line, padded with '.' to five pots. */
  function PatternOf(line: string): (p: Pattern)
    requires Text.Trim(line) != [] && RuleLineOk(line)
    ensures |p| == 5
    ensures p[..FindArrow(line, 0).value] == line[..FindArrow(line, 0).value]
    ensures forall k :: FindArrow(line, 0).value <= k < 5 ==> p[k] == '.'
  {
    var n := FindArrow(line, 0).value;
    line[..n] + seq(5 - n, _ => '.')
  }

  /** The rule line yields a plant: its result starts with '#'. */
  predicate MakesPlant(line: string)
    requires Text.Trim(line) != [] && RuleLineOk(line)
  {
    line[FindArrow(line, 0).value + |Arrow|] == '#'
  }

  /** The patterns that produce a plant, from the rule lines. */
  method ParseRules(lines: seq<string>) returns (rules: set<Pattern>)
    requires forall k :: 0 <= k < |lines| ==> RuleLineOk(lines[k])
    ensures forall p :: p in rules <==>
      exists k :: 0 <= k < |lines| && Text.Trim(lines[k]) != [] && MakesPlant(lines[k]) && PatternOf(lines[k]) == p
  {
    rules := {};
    for k := 0 to |lines|
      invariant forall p :: p in rules <==>
        exists j :: 0 <= j < k && Text.Trim(lines[j]) != [] && MakesPlant(lines[j]) && PatternOf(lines[j]) == p
    {
      var line := lines[k];
      if Text.Trim(line) == [] {
        continue;
      }
      var sep := FindArrow(line, 0).value;
      if line[sep + |Arrow|] == '#' {
        var arr := seq(5, _ => '.');
        for i := 0 to sep
          invariant |arr| == 5
          invariant arr[..i] == line[..i]
          invariant forall j :: i <= j < 5 ==> arr[j] == '.'
        {
          arr := arr[i := line[i]];
        }
        assert arr == PatternOf(line);
        rules := rules + {arr};
      }
    }
  }

  /** The input lines the parser accepts without panicking. */
  predicate InputOk(lines: seq<string>)
  {
    |lines| >= 1 && Prefix <= lines[0]
    && forall k :: 2 <= k < |lines| ==> RuleLineOk(lines[k])
  }

  /** parse_input: the initial plants and the patterns that produce a plant; the second line is skipped. */
  method ParseInput(lines: seq<string>) returns (plants: Pots, rules: set<Pattern>)
    requires InputOk(lines)
    ensures forall i :: i in plants <==>
      var state := Text.Trim(lines[0][|Prefix|..]); 0 <= i < |state| && state[i] == '#'
    ensures forall p :: p in rules <==>
      exists k :: 2 <= k < |lines| && Text.Trim(lines[k]) != [] && MakesPlant(lines[k]) && PatternOf(lines[k]) == p
  {
    var state := Text.Trim(lines[0][|Prefix|..]);
    plants := ParsePlants(state);
    var ruleLines := if |lines| >= 2 then lines[2..] else [];
    rules := ParseRules(ruleLines);
    forall p
      ensures p in rules <==>
        exists k :: 2 <= k < |lines| && Text.Trim(lines[k]) != [] && MakesPlant(lines[k]) && PatternOf(lines[k]) == p
    {
      if p in rules {
        var j :| 0 <= j < |ruleLines| && Text.Trim(ruleLines[j]) != [] && MakesPlant(ruleLines[j]) && PatternOf(ruleLines[j]) == p;
        assert ruleLines[j] == lines[j + 2];
      }
      if exists k :: 2 <= k < |lines| && Text.Trim(lines[k]) != [] && MakesPlant(lines[k]) && PatternOf(lines[k]) == p {
        var k :| 2 <= k < |lines| && Text.Trim(lines[k]) != [] && MakesPlant(lines[k]) && PatternOf(lines[k]) == p;
        assert lines[k] == ruleLines[k - 2];
      }
    }
  }

  // ---------------------------------------------------------------------
  // next_generation

  /** The five pots centred on pot i, absent pots read as '.'. */
  function Window(current: Pots, i: int): (w: Pattern)
    ensures |w| == 5
    ensures forall k :: 0 <= k < 5 ==> (w[k] == '#' <==> i + k - 2 in current)
  {
    seq(5, k => if i + k - 2 in current then '#' else '.')
  }

  /** `m` is the least pot number in `s`. */
  predicate IsMin(s: Pots, m: int)
  {
    m in s && forall x :: x in s ==> m <= x
  }

  /** `m` is the greatest pot number in `s`. */
  predicate IsMax(s: Pots, m: int)
  {
    m in s && forall x :: x in s ==> x <= m
  }

  lemma NonEmpty(s: Pots)
    ensures s == {} || exists x :: x in s
  {
    if forall x :: x !in s {
      assert s == {};
    }
  }

  lemma {:induction false} MinMaxExist(s: Pots)
    requires s != {}
    ensures exists m :: IsMin(s, m)
    ensures exists m :: IsMax(s, m)
    decreases |s|
  {
    NonEmpty(s);
    var x :| x in s;
    if s == {x} {
      assert IsMin(s, x) && IsMax(s, x);
    } else {
      var rest := s - {x};
      MinMaxExist(rest);
      var lo :| IsMin(rest, lo);
      var hi :| IsMax(rest, hi);
      assert forall y :: y in s ==> y == x || y in rest;
      assert IsMin(s, if x < lo then x else lo);
      assert IsMax(s, if x > hi then x else hi);
    }
  }

  ghost function Min(s: Pots): (m: int)
    requires s != {}
    ensures IsMin(s, m)
  {
    MinMaxExist(s);
    var m :| IsMin(s, m); m
  }

  ghost function Max(s: Pots): (m: int)
    requires s != {}
    ensures IsMax(s, m)
  {
    MinMaxExist(s);
    var m :| IsMax(s, m); m
  }

  /** The next generation as the Rust solver computes it: only pots within two of the current plants are considered. */
  ghost function Next(current: Pots, rules: set<Pattern>): Pots
  {
    if current == {} then {}
    else set i | Min(current) - 2 <= i <= Max(current) + 2 && Window(current, i) in rules
  }

  /** The empty row stays empty, and every new plant lies within two pots of an old one's range. */
  lemma NextWithin(current: Pots, rules: set<Pattern>)
    ensures current == {} ==> Next(current, rules) == {}
    ensures current != {} ==> forall i :: i in Next(current, rules) ==> Min(current) - 2 <= i <= Max(current) + 2
  {
  }

  /** Inside the scanned range a pot holds a plant exactly when its window is a rule. */
  lemma NextInRange(current: Pots, rules: set<Pattern>, i: int)
    requires current != {} && Min(current) - 2 <= i <= Max(current) + 2
    ensures i in Next(current, rules) <==> Window(current, i) in rules
  {
  }

  /**
   * Unless "....." produces a plant, the bounded scan is the automaton on the
   * whole infinite row: every pot holds a plant exactly when its window is a rule.
   */
  lemma NextIsLocalRule(current: Pots, rules: set<Pattern>, i: int)
    requires "....." !in rules
    ensures i in Next(current, rules) <==> Window(current, i) in rules
  {
    if current == {} || i < Min(current) - 2 || i > Max(current) + 2 {
      assert Window(current, i) == ".....";
    }
  }

  /** iter().min() and iter().max() over a non-empty set of pots. */
  method Extremes(current: Pots) returns (lo: int, hi: int)
    requires current != {}
    ensures IsMin(current, lo) && IsMax(current, hi)
  {
    NonEmpty(current);
    var x :| x in current;
    lo, hi := x, x;
    var rest := current - {x};
    while rest != {}
      invariant rest <= current && lo in current && hi in current
      invariant forall y :: y in current && y !in rest ==> lo <= y <= hi
      decreases |rest|
    {
      NonEmpty(rest);
      var y :| y in rest;
      if y < lo {
        lo := y;
      }
      if y > hi {
        hi := y;
      }
      rest := rest - {y};
    }
  }

  /** next_generation: scans the pots from min - 2 to max + 2, reading each one's five-pot window. */
  method NextGeneration(current: Pots, rules: set<Pattern>) returns (next: Pots)
    ensures next == Next(current, rules)
  {
    if current == {} {
      return {};
    }
    var lo, hi := Extremes(current);
    assert lo == Min(current) && hi == Max(current);
    next := {};
    for i := lo - 2 to hi + 3
      invariant forall j :: j in next <==> lo - 2 <= j < i && Window(current, j) in rules
    {
      var pat := seq(5, _ => '.');
      for idx := 0 to 5
        invariant |pat| == 5
        invariant forall k :: 0 <= k < idx ==> pat[k] == Window(current, i)[k]
        invariant forall k :: idx <= k < 5 ==> pat[k] == '.'
      {
        var offset := idx - 2;
        if i + offset in current {
          pat := pat[idx := '#'];
        }
      }
      assert pat == Window(current, i);
      if pat in rules {
        next := next + {i};
      }
    }
  }

  // ---------------------------------------------------------------------
  // sum_of_plants

  ghost function Pick(s: Pots): (x: int)
    requires s != {}
    ensures x in s
  {
    NonEmpty(s);
    var x :| x in s; x
  }

  /** The sum of the pot numbers in a set. */
  ghost function SetSum(s: Pots): int
    decreases |s|
  {
    if s == {} then 0 else Pick(s) + SetSum(s - {Pick(s)})
  }

  /** The sum does not depend on the order the pots are added in: any pot can be taken out first. */
  lemma {:induction false} SetSumRemove(s: Pots, y: int)
    requires y in s
    ensures SetSum(s) == y + SetSum(s - {y})
    decreases |s|
  {
    var x := Pick(s);
    if x != y {
      SetSumRemove(s - {x}, y);
      SetSumRemove(s - {y}, x);
      assert s - {x} - {y} == s - {y} - {x};
    }
  }

  /** sum_of_plants: adds the pot numbers one at a time in whatever order the set yields them. */
  method SumOfPlants(plants: Pots) returns (sum: int)
    ensures sum == SetSum(plants)
  {
    sum := 0;
    var rest := plants;
    while rest != {}
      invariant sum + SetSum(rest) == SetSum(plants)
      decreases |rest|
    {
      NonEmpty(rest);
      var x :| x in rest;
      SetSumRemove(rest, x);
      sum := sum + x;
      rest := rest - {x};
    }
  }

  /** Adding a pot not yet present adds its number to the sum. */
  lemma SetSumAdd(s: Pots, y: int)
    requires y !in s
    ensures SetSum(s + {y}) == SetSum(s) + y
  {
    SetSumRemove(s + {y}, y);
    assert s + {y} - {y} == s;
  }

  // ---------------------------------------------------------------------
  // part1 and part2

  /** The plants after n generations. */
  ghost function Gen(start: Pots, rules: set<Pattern>, n: nat): Pots
  {
    if n == 0 then start else Next(Gen(start, rules, n - 1), rules)
  }

  lemma GenStep(start: Pots, rules: set<Pattern>, n: nat, m: nat)
    requires m == n + 1
    ensures Gen(start, rules, m) == Next(Gen(start, rules, n), rules)
  {
  }

  /** part1: the sum of the pot numbers holding plants after twenty generations. */
  method Part1(lines: seq<string>) returns (sum: int)
    requires InputOk(lines)
    ensures exists start, rules :: Parsed(lines, start, rules) && sum == SetSum(Gen(start, rules, 20))
  {
    var plants, rules := ParseInput(lines);
    ghost var start := plants;
    for n := 0 to 20
      invariant plants == Gen(start, rules, n)
    {
      var next := NextGeneration(plants, rules);
      GenStep(start, rules, n, n + 1);
      plants := next;
    }
    sum := SumOfPlants(plants);
  }

  /** What parse_input yields for these lines. */
  ghost predicate Parsed(lines: seq<string>, plants: Pots, rules: set<Pattern>)
    requires InputOk(lines)
  {
    (forall i :: i in plants <==> var state := Text.Trim(lines[0][|Prefix|..]); 0 <= i < |state| && state[i] == '#')
    && forall p :: p in rules <==>
      exists k :: 2 <= k < |lines| && Text.Trim(lines[k]) != [] && MakesPlant(lines[k]) && PatternOf(lines[k]) == p
  }

  /** The generation count part2 extrapolates to. */
  const Target: int := 50_000_000_000

  /** How many generations in a row the change of the sum must stay the same before part2 extrapolates. */
  const StableRun: int := 200

  /** The sum after n generations. */
  ghost function Sums(start: Pots, rules: set<Pattern>, n: nat): int
  {
    SetSum(Gen(start, rules, n))
  }

  /** The change of the sum in generation n; before the first generation it counts as 0. */
  ghost function Delta(start: Pots, rules: set<Pattern>, n: nat): int
  {
    if n == 0 then 0 else Sums(start, rules, n) - Sums(start, rules, n - 1)
  }

  /** For how many generations in a row, ending with n, the change has equalled the one before it. */
  ghost function Stable(start: Pots, rules: set<Pattern>, n: nat): nat
  {
    if n == 0 then 0
    else if Delta(start, rules, n) == Delta(start, rules, n - 1) then Stable(start, rules, n - 1) + 1
    else 0
  }

  /** The first generation g in (from, target] whose run of equal changes reaches `run`. */
  ghost function FirstStable(stable: nat -> nat, run: nat, from: nat, target: nat): (r: Option<nat>)
    ensures r.Some? ==> from < r.value <= target
    decreases target - from
  {
    if from >= target then None
    else if stable(from + 1) >= run then Some(from + 1)
    else FirstStable(stable, run, from + 1, target)
  }

  /** FirstStable finds the first such generation, and None means there is none. */
  lemma {:induction false} FirstStableIsFirst(stable: nat -> nat, run: nat, from: nat, target: nat)
    ensures FirstStable(stable, run, from, target).Some? ==>
      var g := FirstStable(stable, run, from, target).value;
      stable(g) >= run && forall k :: from < k < g ==> stable(k) < run
    ensures FirstStable(stable, run, from, target).None? ==> forall k :: from < k <= target ==> stable(k) < run
    decreases target - from
  {
    if from < target && stable(from + 1) < run {
      FirstStableIsFirst(stable, run, from + 1, target);
    }
  }

  lemma FirstStableStep(stable: nat -> nat, run: nat, from: nat, next: nat, target: nat)
    requires next == from + 1 && from < target && stable(next) < run
    ensures FirstStable(stable, run, from, target) == FirstStable(stable, run, next, target)
  {
  }

  ghost function StableCurve(start: Pots, rules: set<Pattern>): nat -> nat
  {
    (n: nat) => Stable(start, rules, n)
  }

  /** What part2 returns: the extrapolation from the first stable generation, or the plain sum at the target. */
  ghost function Part2Value(start: Pots, rules: set<Pattern>, target: nat): int
  {
    match FirstStable(StableCurve(start, rules), StableRun, 0, target)
    case Some(g) => Sums(start, rules, g) + (target - g) * Delta(start, rules, g)
    case None => Sums(start, rules, target)
  }

  /** The loop state of part2 after `generation` generations. */
  ghost predicate Running(start: Pots, rules: set<Pattern>, target: nat, plants: Pots, lastSum: int, lastDelta: int,
                          stableSteps: int, generation: nat)
  {
    plants == Gen(start, rules, generation)
    && lastSum == Sums(start, rules, generation)
    && lastDelta == Delta(start, rules, generation)
    && stableSteps == Stable(start, rules, generation)
    && FirstStable(StableCurve(start, rules), StableRun, 0, target) == FirstStable(StableCurve(start, rules), StableRun, generation, target)
  }

  /** One turn of part2's loop body up to the stability test. */
  method Generation(ghost start: Pots, rules: set<Pattern>, ghost target: nat, plants: Pots, lastSum: int, lastDelta: int,
                    stableSteps: int, generation: nat)
    returns (plants': Pots, currentSum: int, delta: int, stableSteps': int, generation': nat)
    requires generation < target
    requires Running(start, rules, target, plants, lastSum, lastDelta, stableSteps, generation)
    ensures generation' == generation + 1
    ensures plants' == Gen(start, rules, generation') && currentSum == Sums(start, rules, generation')
    ensures delta == Delta(start, rules, generation') && stableSteps' == Stable(start, rules, generation')
    ensures stableSteps' < StableRun ==> Running(start, rules, target, plants', currentSum, delta, stableSteps', generation')
    ensures stableSteps' >= StableRun ==> FirstStable(StableCurve(start, rules), StableRun, 0, target) == Some(generation')
  {
    generation' := generation + 1;
    GenStep(start, rules, generation, generation');
    plants' := NextGeneration(plants, rules);
    currentSum := SumOfPlants(plants');
    delta := currentSum - lastSum;
    if delta == lastDelta {
      stableSteps' := stableSteps + 1;
    } else {
      stableSteps' := 0;
    }
    assert stableSteps' == StableCurve(start, rules)(generation');
    if stableSteps' < StableRun {
      FirstStableStep(StableCurve(start, rules), StableRun, generation, generation', target);
    }
  }

  /** part2: run generations until the change of the sum has held for 200 of them, then extrapolate linearly. */
  method Part2(lines: seq<string>) returns (result: int)
    requires InputOk(lines)
    ensures exists start, rules :: Parsed(lines, start, rules) && result == Part2Value(start, rules, Target)
  {
    var plants, rules := ParseInput(lines);
    ghost var start := plants;
    var lastSum := SumOfPlants(plants);
    var lastDelta := 0;
    var stableSteps := 0;
    var generation: nat := 0;
    while generation < Target
      invariant generation <= Target
      invariant Running(start, rules, Target, plants, lastSum, lastDelta, stableSteps, generation)
      decreases Target - generation
    {
      var currentSum, delta;
      plants, currentSum, delta, stableSteps, generation :=
        Generation(start, rules, Target, plants, lastSum, lastDelta, stableSteps, generation);
      if stableSteps >= StableRun {
        var remaining := Target - generation;
        result := currentSum + remaining * delta;
        assert Parsed(lines, start, rules);
        assert result == Part2Value(start, rules, Target);
        return;
      }
      lastSum, lastDelta := currentSum, delta;
    }
    result := lastSum;
    assert Parsed(lines, start, rules);
    assert FirstStable(StableCurve(start, rules), StableRun, generation, Target) == None;
  }

  /** A sum that changes by d in every generation after g reaches sums(g) + (target - g) * d at the target. */
  lemma {:induction false} LinearGrowth(sums: nat -> int, d: int, g: nat, target: nat)
    requires g <= target
    requires forall k: nat :: g < k <= target ==> sums(k) - sums(k - 1) == d
    ensures sums(g) + (target - g) * d == sums(target)
    decreases target - g
  {
    if target > g {
      LinearGrowth(sums, d, g, target - 1);
      assert sums(target) - sums(target - 1) == d;
      assert (target - g) * d == (target - 1 - g) * d + d;
    }
  }

  ghost function SumCurve(start: Pots, rules: set<Pattern>): nat -> int
  {
    (n: nat) => Sums(start, rules, n)
  }

  /** The extrapolation is exact when the sum really grows linearly from generation g to the target. */
  lemma ExtrapolationExact(start: Pots, rules: set<Pattern>, g: nat, target: nat)
    requires g <= target
    requires forall k :: g < k <= target ==> Delta(start, rules, k) == Delta(start, rules, g)
    ensures Sums(start, rules, g) + (target - g) * Delta(start, rules, g) == Sums(start, rules, target)
  {
    var sums := SumCurve(start, rules);
    forall k: nat | g < k <= target
      ensures sums(k) - sums(k - 1) == Delta(start, rules, g)
    {
      assert Delta(start, rules, k) == Delta(start, rules, g);
    }
    LinearGrowth(sums, Delta(start, rules, g), g, target);
  }
}
