/** The Sum of Its Parts (rust/src/day07.rs): steps with prerequisites, done
    one at a time in alphabetical order of the steps that are ready, and then
    by several workers in parallel, each step taking a fixed base time plus
    its letter's position in the alphabet. */
module Day07 {

  import opened Wrappers

  /** A line split at whitespace: its words, none of them empty. */
  type Words = seq<string>

  predicate WordsNonEmpty(lines: seq<Words>) {
    forall i, k :: 0 <= i < |lines| && 0 <= k < |lines[i]| ==> |lines[i][k]| > 0
  }

  /** The first characters of words 1 and 7 of a line of at least 10 words:
      the prerequisite and the step. */
  function Edge(line: Words): (char, char)
    requires |line| >= 10 && |line[1]| > 0 && |line[7]| > 0
  {
    (line[1][0], line[7][0])
  }

  /** `all_steps` after the given lines. */
  function AllSteps(lines: seq<Words>): set<char>
    requires WordsNonEmpty(lines)
  {
    if lines == [] then {}
    else
      var line := lines[|lines| - 1];
      var before := AllSteps(lines[..|lines| - 1]);
      if |line| >= 10 then before + {Edge(line).0, Edge(line).1} else before
  }

  /** `dependencies` after the given lines: each step's prerequisites in the
      order of the lines. */
  function Deps(lines: seq<Words>): map<char, seq<char>>
    requires WordsNonEmpty(lines)
  {
    if lines == [] then map[]
    else
      var line := lines[|lines| - 1];
      var before := Deps(lines[..|lines| - 1]);
      if |line| >= 10 then
        var (p, s) := Edge(line);
        before[s := (if s in before then before[s] else []) + [p]]
      else before
  }

  /** Every step and every prerequisite of `dependencies` is in `all_steps`. */
  lemma {:induction false} DepsInSteps(lines: seq<Words>)
    requires WordsNonEmpty(lines)
    ensures forall s :: s in Deps(lines) ==> s in AllSteps(lines)
    ensures forall s, p :: s in Deps(lines) && p in Deps(lines)[s] ==> p in AllSteps(lines)
  {
    if lines != [] {
      DepsInSteps(lines[..|lines| - 1]);
    }
  }

  /** `parse_input`: lines of fewer than 10 words are ignored. */
  method ParseInput(lines: seq<Words>) returns (allSteps: set<char>, dependencies: map<char, seq<char>>)
    requires WordsNonEmpty(lines)
    ensures allSteps == AllSteps(lines) && dependencies == Deps(lines)
  {
    allSteps, dependencies := {}, map[];
    for n := 0 to |lines|
      invariant allSteps == AllSteps(lines[..n]) && dependencies == Deps(lines[..n])
    {
      assert lines[..n + 1][..n] == lines[..n];
      var words := lines[n];
      if |words| >= 10 {
        var prerequisite := words[1][0];
        var step := words[7][0];
        allSteps := allSteps + {prerequisite};
        allSteps := allSteps + {step};
        dependencies := dependencies[step := (if step in dependencies then dependencies[step] else []) + [prerequisite]];
      }
    }
    assert lines[..|lines|] == lines;
  }

  lemma {:induction false} LeastExists(s: set<char>)
    requires s != {}
    ensures exists c :: c in s && forall d :: d in s ==> c <= d
    decreases |s|
  {
    var x :| x in s;
    if s != {x} {
      LeastExists(s - {x});
      var c :| c in s - {x} && forall d :: d in s - {x} ==> c <= d;
      var m := if x < c then x else c;
      forall d | d in s
        ensures m <= d
      {
        if d != x {
          assert d in s - {x};
        }
      }
    } else {
      assert forall d :: d in s ==> x <= d;
    }
  }

  /** The alphabetically first element: `available.sort()` then `[0]`. */
  ghost function Least(s: set<char>): (c: char)
    requires s != {}
    ensures c in s && forall d :: d in s ==> c <= d
  {
    LeastExists(s);
    var c :| c in s && forall d :: d in s ==> c <= d;
    c
  }

  /** The smallest element of a non-empty set, by a scan over it. */
  method LeastOf(s: set<char>) returns (c: char)
    requires s != {}
    ensures c == Least(s)
  {
    c :| c in s;
    var rest := s - {c};
    while rest != {}
      invariant rest <= s && c in s && forall d :: d in s && d !in rest ==> c <= d
      decreases rest
    {
      var d :| d in rest;
      if d < c {
        c := d;
      }
      rest := rest - {d};
    }
    ghost var l := Least(s);
    assert c <= l && l <= c;
  }

  /** The `k` alphabetically first elements of `s` (all of them if fewer). */
  ghost function Smallest(s: set<char>, k: nat): (t: set<char>)
    ensures t <= s
    decreases k
  {
    if k == 0 || s == {} then {}
    else {Least(s)} + Smallest(s - {Least(s)}, k - 1)
  }

  lemma {:induction false} SmallestCard(s: set<char>, k: nat)
    ensures |Smallest(s, k)| <= k
    decreases k
  {
    if k > 0 && s != {} {
      SmallestCard(s - {Least(s)}, k - 1);
      UnionCard({Least(s)}, Smallest(s - {Least(s)}, k - 1));
    }
  }

  lemma UnionCard(a: set<char>, b: set<char>)
    ensures |a + b| <= |a| + |b|
  {
    if b != {} {
      var x :| x in b;
      UnionCard(a, b - {x});
      assert a + b == (a + (b - {x})) + {x};
    }
  }

  /** `deps.retain(|&c| c != step)`. */
  function Retain(deps: seq<char>, step: char): (r: seq<char>)
    ensures forall c :: c in r <==> c in deps && c != step
  {
    if deps == [] then []
    else Retain(deps[..|deps| - 1], step) + (if deps[|deps| - 1] != step then [deps[|deps| - 1]] else [])
  }

  /** The `retain` loop over every step's prerequisites. */
  function Cleared(dependencies: map<char, seq<char>>, step: char): (d: map<char, seq<char>>)
    ensures d.Keys == dependencies.Keys
    ensures forall s :: s in d ==> d[s] == Retain(dependencies[s], step)
  {
    map s | s in dependencies :: Retain(dependencies[s], step)
  }

  /** The steps with no remaining prerequisites. */
  function Ready(steps: set<char>, dependencies: map<char, seq<char>>): set<char> {
    set s | s in steps && (s !in dependencies || dependencies[s] == [])
  }

  /** The order `part1` emits; None when no step is ready although steps
      remain (`available[0]` panics). */
  ghost function Order(steps: set<char>, dependencies: map<char, seq<char>>): Option<string>
    decreases |steps|
  {
    if steps == {} then Some([])
    else if Ready(steps, dependencies) == {} then None
    else
      var c := Least(Ready(steps, dependencies));
      match Order(steps - {c}, Cleared(dependencies, c))
      case None => None
      case Some(rest) => Some([c] + rest)
  }

  /** `result` followed by the rest of the order, if there is one. */
  function Prepend(result: string, rest: Option<string>): Option<string> {
    match rest
    case None => None
    case Some(t) => Some(result + t)
  }

  /** `part1` on the parsed steps. */
  method Steps(allSteps0: set<char>, dependencies0: map<char, seq<char>>) returns (r: Option<string>)
    ensures r == Order(allSteps0, dependencies0)
  {
    var allSteps, dependencies := allSteps0, dependencies0;
    var result := "";
    assert Prepend(result, Order(allSteps, dependencies)) == Order(allSteps0, dependencies0) by {
      if Order(allSteps, dependencies).Some? {
        assert result + Order(allSteps, dependencies).value == Order(allSteps, dependencies).value;
      }
    }
    while allSteps != {}
      invariant Prepend(result, Order(allSteps, dependencies)) == Order(allSteps0, dependencies0)
      decreases |allSteps|
    {
      var available := set s | s in allSteps && (s !in dependencies || dependencies[s] == []);
      assert available == Ready(allSteps, dependencies);
      if available == {} {
        return None;
      }
      var nextStep := LeastOf(available);
      ghost var rest := Order(allSteps - {nextStep}, Cleared(dependencies, nextStep));
      assert Order(allSteps, dependencies) == Prepend([nextStep], rest);
      if rest.Some? {
        assert result + ([nextStep] + rest.value) == (result + [nextStep]) + rest.value;
      }
      result := result + [nextStep];
      allSteps := allSteps - {nextStep};
      var cleared := map s | s in dependencies :: Retain(dependencies[s], nextStep);
      assert cleared == Cleared(dependencies, nextStep);
      dependencies := cleared;
    }
    r := Some(result);
    assert result + [] == result;
  }

  /** `part1`. */
  method Part1(lines: seq<Words>) returns (r: Option<string>)
    requires WordsNonEmpty(lines)
    ensures r == Order(AllSteps(lines), Deps(lines))
  {
    var allSteps, dependencies := ParseInput(lines);
    r := Steps(allSteps, dependencies);
  }

  /** The emitted string holds every step exactly once. */
  lemma {:induction false} OrderEmitsEach(steps: set<char>, dependencies: map<char, seq<char>>)
    requires Order(steps, dependencies).Some?
    ensures var r := Order(steps, dependencies).value;
      && |r| == |steps|
      && (forall c :: c in r <==> c in steps)
      && forall i, j :: 0 <= i < j < |r| ==> r[i] != r[j]
    decreases |steps|
  {
    if steps != {} {
      var c := Least(Ready(steps, dependencies));
      OrderEmitsEach(steps - {c}, Cleared(dependencies, c));
    }
  }

  /** A prerequisite is emitted before the step that needs it. */
  lemma {:induction false} OrderRespectsDeps(steps: set<char>, dependencies: map<char, seq<char>>)
    requires Order(steps, dependencies).Some?
    ensures var r := Order(steps, dependencies).value;
      forall i, j :: 0 <= i < |r| && 0 <= j < |r| && r[j] in dependencies && r[i] in dependencies[r[j]] ==> i < j
    decreases |steps|
  {
    if steps != {} {
      var c := Least(Ready(steps, dependencies));
      var d := Cleared(dependencies, c);
      var t := Order(steps - {c}, d).value;
      var r := Order(steps, dependencies).value;
      OrderRespectsDeps(steps - {c}, d);
      OrderEmitsEach(steps - {c}, d);
      assert r == [c] + t;
      assert c in Ready(steps, dependencies);
      forall i, j | 0 <= i < |r| && 0 <= j < |r| && r[j] in dependencies && r[i] in dependencies[r[j]]
        ensures i < j
      {
        if i > 0 && j > 0 {
          assert r[i] == t[i - 1] && r[j] == t[j - 1];
          assert t[i - 1] in d[t[j - 1]];
        }
      }
    }
  }

  /** The steps ready once the steps of `done` are finished: not finished
      themselves, and every prerequisite finished. */
  ghost function ReadyAfter(steps: set<char>, dependencies: map<char, seq<char>>, done: set<char>): set<char> {
    set s | s in steps && s !in done && (s !in dependencies || forall p :: p in dependencies[s] ==> p in done)
  }

  ghost function Elems(r: string): set<char> {
    set c | c in r
  }

  /** Step `k` of `r` is the alphabetically first step ready after the
      steps before it. */
  ghost predicate GreedyAt(steps: set<char>, dependencies: map<char, seq<char>>, r: string, k: nat)
    requires k < |r|
  {
    ReadyAfter(steps, dependencies, Elems(r[..k])) != {} && r[k] == Least(ReadyAfter(steps, dependencies, Elems(r[..k])))
  }

  lemma ReadyAfterStep(steps: set<char>, dependencies: map<char, seq<char>>, c: char, done: set<char>)
    requires c !in done
    ensures ReadyAfter(steps - {c}, Cleared(dependencies, c), done) == ReadyAfter(steps, dependencies, done + {c})
  {
  }

  /** The first step of the order is the least ready one, and each later step
      is greedy for the rest of the order. */
  lemma GreedyStep(steps: set<char>, dependencies: map<char, seq<char>>, c: char, t: string, k: nat)
    requires c !in t && 0 < k <= |t|
    requires GreedyAt(steps - {c}, Cleared(dependencies, c), t, k - 1)
    ensures GreedyAt(steps, dependencies, [c] + t, k)
  {
    var r := [c] + t;
    assert r[..k] == [c] + t[..k - 1];
    assert Elems(r[..k]) == Elems(t[..k - 1]) + {c};
    assert c !in Elems(t[..k - 1]);
    ReadyAfterStep(steps, dependencies, c, Elems(t[..k - 1]));
  }

  /** Each emitted step is the alphabetically first of the steps whose
      prerequisites have all been emitted before it. */
  lemma {:induction false} OrderIsGreedy(steps: set<char>, dependencies: map<char, seq<char>>)
    requires Order(steps, dependencies).Some?
    ensures var r := Order(steps, dependencies).value;
      forall k :: 0 <= k < |r| ==> GreedyAt(steps, dependencies, r, k)
    decreases |steps|
  {
    if steps != {} {
      var c := Least(Ready(steps, dependencies));
      var d := Cleared(dependencies, c);
      var t := Order(steps - {c}, d).value;
      var r := Order(steps, dependencies).value;
      OrderIsGreedy(steps - {c}, d);
      OrderEmitsEach(steps - {c}, d);
      assert r == [c] + t;
      assert c !in t;
      GreedyFirst(steps, dependencies, r);
      forall k | 0 < k < |r|
        ensures GreedyAt(steps, dependencies, r, k)
      {
        GreedyStep(steps, dependencies, c, t, k);
      }
    }
  }

  lemma GreedyFirst(steps: set<char>, dependencies: map<char, seq<char>>, r: string)
    requires steps != {} && Ready(steps, dependencies) != {} && |r| > 0 && r[0] == Least(Ready(steps, dependencies))
    ensures GreedyAt(steps, dependencies, r, 0)
  {
    assert Elems(r[..0]) == {};
    forall s | s in dependencies && dependencies[s] != []
      ensures exists p :: p in dependencies[s] && p !in {}
    {
      assert dependencies[s][0] in dependencies[s];
    }
    assert ReadyAfter(steps, dependencies, {}) == Ready(steps, dependencies);
  }
}
