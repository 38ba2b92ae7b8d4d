// Day 12, the Python script: a fixed row of 2N pots with pot 0 at index N, a
// dictionary from five-pot keys to the pot's next character, twenty
// generations written into a fresh list each time, and the sum of the pot
// numbers holding plants.

module Day12Script {
  import Day12

  /** Pot 0 sits at index N of a row of 2N pots. */
  const N: int := 180

  /** Generations the script runs. */
  const Generations: int := 20

  function Dots(n: nat): (r: seq<char>)
    ensures |r| == n && forall k :: 0 <= k < n ==> r[k] == '.'
  {
    seq(n, _ => '.')
  }

  /** `state[:N] + init + state[len(init) + N:]` over a row of 2N dots. */
  function Initial(init: string): (state: seq<char>)
    ensures |state| == if |init| <= N then 2 * N else N + |init|
    ensures forall k :: 0 <= k < |init| ==> state[N + k] == init[k]
    ensures forall k :: 0 <= k < N ==> state[k] == '.'
    ensures forall k :: N + |init| <= k < |state| ==> state[k] == '.'
  {
    var row := Dots(2 * N);
    row[..N] + init + (if |init| + N <= 2 * N then row[|init| + N..] else [])
  }

  /** A rule line split at " => ": its pattern and its result text. */
  datatype Rule = Rule(pattern: string, result: string)

  /** The result character of the last rule with this pattern, which is what the dictionary keeps. */
  function LastResult(rules: seq<Rule>, key: string): (c: char)
    requires forall k :: 0 <= k < |rules| ==> |rules[k].result| >= 1
    requires exists k :: 0 <= k < |rules| && rules[k].pattern == key
    ensures exists k :: (0 <= k < |rules| && rules[k].pattern == key && rules[k].result[0] == c
                         && forall j :: k < j < |rules| ==> rules[j].pattern != key)
  {
    var last := |rules| - 1;
    if rules[last].pattern == key then rules[last].result[0]
    else LastResult(rules[..last], key)
  }

  /** The `patterns` dictionary: later rules for the same key overwrite earlier ones. */
  method BuildPatterns(rules: seq<Rule>) returns (patterns: map<string, char>)
    requires forall k :: 0 <= k < |rules| ==> |rules[k].result| >= 1
    ensures forall key :: key in patterns <==> exists k :: 0 <= k < |rules| && rules[k].pattern == key
    ensures forall key :: key in patterns ==> patterns[key] == LastResult(rules, key)
  {
    patterns := map[];
    for i := 0 to |rules|
      invariant forall key :: key in patterns <==> exists k :: 0 <= k < i && rules[k].pattern == key
      invariant forall key :: key in patterns ==> patterns[key] == LastResult(rules[..i], key)
    {
      patterns := patterns[rules[i].pattern := rules[i].result[0]];
      forall key | key in patterns
        ensures patterns[key] == LastResult(rules[..i + 1], key)
      {
        LastResultStep(rules, i, key);
      }
    }
    assert rules[..|rules|] == rules;
  }

  /** One more rule: it decides its own pattern and leaves the others. */
  lemma LastResultStep(rules: seq<Rule>, i: nat, key: string)
    requires i < |rules| && forall k :: 0 <= k < |rules| ==> |rules[k].result| >= 1
    requires rules[i].pattern == key || exists k :: 0 <= k < i && rules[k].pattern == key
    ensures rules[i].pattern == key ==> LastResult(rules[..i + 1], key) == rules[i].result[0]
    ensures rules[i].pattern != key ==> LastResult(rules[..i + 1], key) == LastResult(rules[..i], key)
  {
    var upTo := rules[..i + 1];
    assert upTo[i] == rules[i] && upTo[..i] == rules[..i];
    assert forall k :: 0 <= k < i ==> upTo[k] == rules[k];
  }

  /** `"".join(state[i:i+5])`: Python's slice, cut short at the end of the row. */
  function Key(state: seq<char>, i: nat): (key: string)
    ensures i + 5 <= |state| ==> key == state[i..i + 5]
  {
    var lo := if i <= |state| then i else |state|;
    var hi := if i + 5 <= |state| then i + 5 else |state|;
    state[lo..hi]
  }

  /** The row after one generation: index k is the dictionary's entry for the key starting at k - 2, for k in 2 .. 2N - 4, and '.' elsewhere. */
  function NextState(state: seq<char>, patterns: map<string, char>): (next: seq<char>)
    ensures |next| == 2 * N
  {
    seq(2 * N, k => if 2 <= k < 2 * N - 3 && Key(state, k - 2) in patterns then patterns[Key(state, k - 2)] else '.')
  }

  /** One generation: a fresh list of dots, written at i + 2 for every i in range(2N - 5) whose key is in the dictionary. */
  method Generation(state: seq<char>, patterns: map<string, char>) returns (next: seq<char>)
    ensures next == NextState(state, patterns)
  {
    var row := new char[2 * N](_ => '.');
    for i := 0 to 2 * N - 5
      invariant forall k :: 0 <= k < 2 * N ==> row[k] == (if 2 <= k < i + 2 && Key(state, k - 2) in patterns then patterns[Key(state, k - 2)] else '.')
    {
      var key := Key(state, i);
      if key in patterns {
        row[i + 2] := patterns[key];
      }
    }
    next := row[..];
  }

  /** The first two pots and the last three never hold anything but '.'. */
  lemma EdgesStayEmpty(state: seq<char>, patterns: map<string, char>)
    ensures var next := NextState(state, patterns);
      next[0] == '.' && next[1] == '.' && forall k :: 2 * N - 3 <= k < 2 * N ==> next[k] == '.'
  {
  }

  // ---------------------------------------------------------------------
  // Agreement with the Rust solver

  /** The row shows exactly the pots of `plants`, pot p at index p + N. */
  ghost predicate Shows(state: seq<char>, plants: Day12.Pots)
  {
    |state| == 2 * N
    && (forall k :: 0 <= k < 2 * N ==> state[k] == (if k - N in plants then '#' else '.'))
    && forall p :: p in plants ==> -N <= p < N
  }

  /** Every plant is at least four pots away from both ends of the row. */
  ghost predicate Clear(plants: Day12.Pots)
  {
    forall p :: p in plants ==> -N + 4 <= p <= N - 6
  }

  /** The rules of the dictionary in the Rust solver's form: the keys whose entry is '#'. */
  function PlantRules(patterns: map<string, char>): set<Day12.Pattern>
  {
    set key | key in patterns && patterns[key] == '#'
  }

  /** Dictionary entries are '#' or '.'. */
  predicate PlainEntries(patterns: map<string, char>)
  {
    forall key :: key in patterns ==> patterns[key] == '#' || patterns[key] == '.'
  }

  lemma KeyIsWindow(state: seq<char>, plants: Day12.Pots, k: int)
    requires Shows(state, plants) && 2 <= k <= 2 * N - 3
    ensures Key(state, k - 2) == Day12.Window(plants, k - N)
  {
    var key := Key(state, k - 2);
    var w := Day12.Window(plants, k - N);
    forall j | 0 <= j < 5
      ensures key[j] == w[j]
    {
      assert key[j] == state[k - 2 + j];
    }
  }

  /**
   * One generation of the list agrees with one generation of the Rust set of
   * pots, as long as the plants stay clear of the row's ends and "....." does
   * not make a plant.
   */
  lemma GenerationAgrees(state: seq<char>, plants: Day12.Pots, patterns: map<string, char>)
    requires Shows(state, plants) && Clear(plants) && PlainEntries(patterns)
    requires "....." !in PlantRules(patterns)
    ensures Shows(NextState(state, patterns), Day12.Next(plants, PlantRules(patterns)))
  {
    var rules := PlantRules(patterns);
    var next := NextState(state, patterns);
    var grown := Day12.Next(plants, rules);
    forall k | 0 <= k < 2 * N
      ensures next[k] == (if k - N in grown then '#' else '.')
    {
      Day12.NextIsLocalRule(plants, rules, k - N);
      if 2 <= k < 2 * N - 3 {
        KeyIsWindow(state, plants, k);
      } else {
        assert Day12.Window(plants, k - N) == ".....";
      }
    }
    Day12.NextWithin(plants, rules);
  }

  // ---------------------------------------------------------------------
  // The answer

  /** The sum of i - N over the indices i < n holding '#'. */
  function Score(state: seq<char>, n: nat): int
    requires n <= |state|
  {
    if n == 0 then 0 else Score(state, n - 1) + (if state[n - 1] == '#' then n - 1 - N else 0)
  }

  /** The final loop over `enumerate(state)`. */
  method Answer(state: seq<char>) returns (s: int)
    ensures s == Score(state, |state|)
  {
    s := 0;
    for i := 0 to |state|
      invariant s == Score(state, i)
    {
      if state[i] == '#' {
        s := s + (i - N);
      }
    }
  }

  /** The pots shown left of index n. */
  function Below(plants: Day12.Pots, n: int): Day12.Pots
  {
    set p | p in plants && p < n - N
  }

  /** Scanning the first n indices adds up the pots shown there. */
  lemma {:induction false} ScoreIsSetSum(state: seq<char>, plants: Day12.Pots, n: nat)
    requires Shows(state, plants) && n <= 2 * N
    ensures Score(state, n) == Day12.SetSum(Below(plants, n))
  {
    if n == 0 {
      assert Below(plants, 0) == {};
    } else {
      ScoreIsSetSum(state, plants, n - 1);
      if state[n - 1] == '#' {
        assert Below(plants, n) == Below(plants, n - 1) + {n - 1 - N};
        Day12.SetSumAdd(Below(plants, n - 1), n - 1 - N);
      } else {
        assert Below(plants, n) == Below(plants, n - 1);
      }
    }
  }

  /** The script's answer is sum_of_plants of the pots the row shows. */
  lemma AnswerIsSumOfPlants(state: seq<char>, plants: Day12.Pots)
    requires Shows(state, plants)
    ensures Score(state, |state|) == Day12.SetSum(plants)
  {
    ScoreIsSetSum(state, plants, 2 * N);
    assert Below(plants, 2 * N) == plants;
  }

  /** The row after n generations. */
  function After(state: seq<char>, patterns: map<string, char>, n: nat): seq<char>
  {
    if n == 0 then state else NextState(After(state, patterns, n - 1), patterns)
  }

  /** The script: place the initial state, build the dictionary, run twenty generations, add up the pot numbers. */
  method Run(init: string, rules: seq<Rule>) returns (s: int)
    requires forall k :: 0 <= k < |rules| ==> |rules[k].result| >= 1
    ensures exists patterns :: ((forall key :: key in patterns <==> exists k :: 0 <= k < |rules| && rules[k].pattern == key)
                                && (forall key :: key in patterns ==> patterns[key] == LastResult(rules, key))
                                && var final := After(Initial(init), patterns, Generations); s == Score(final, |final|))
  {
    var state := Initial(init);
    ghost var start := state;
    var patterns := BuildPatterns(rules);
    for gen := 0 to Generations
      invariant state == After(start, patterns, gen)
    {
      state := Generation(state, patterns);
    }
    s := Answer(state);
  }
}
