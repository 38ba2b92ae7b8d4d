/** The loop of `part2` in rust/src/day07.rs, proved against the schedule
    it follows. */
module Day07Loop {

  import opened Wrappers
  import opened Day07
  import opened Day07Workers

  /** The assignment loop: the available steps in alphabetical order, as
      many as there are idle workers. */
  method Assign(steps: set<char>, w: Work, idle: nat, baseTime: nat) returns (w': Work)
    requires forall s :: s in steps ==> s >= 'A'
    ensures w' == Start(steps, w, idle, baseTime)
  {
    var available := Available(steps, w);
    var inProgress := w.inProgress;
    ghost var taken: set<char> := {};
    StartMapNone(w.inProgress, baseTime);
    var rest := available;
    var n := 0;
    while n < idle && rest != {}
      invariant n <= idle && rest <= available && taken <= available && taken !! rest
      invariant taken + Smallest(rest, idle - n) == Smallest(available, idle)
      invariant inProgress == StartMap(w.inProgress, taken, baseTime)
      decreases idle - n
    {
      var step := LeastOf(rest);
      StartMapAdd(w.inProgress, taken, step, baseTime);
      inProgress := inProgress[step := Duration(step, baseTime)];
      taken := taken + {step};
      rest := rest - {step};
      n := n + 1;
    }
    w' := w.(inProgress := inProgress);
  }

  /** The least value of a non-empty map, by a scan. */
  method MinOfValues(m: map<char, nat>) returns (v: nat)
    requires m != map[]
    ensures v == MinRemaining(m)
  {
    var s0 :| s0 in m;
    v := m[s0];
    var rest := m.Keys - {s0};
    ghost var at := s0;
    while rest != {}
      invariant rest <= m.Keys && at in m && v == m[at] && forall s :: s in m && s !in rest ==> v <= m[s]
      decreases rest
    {
      var s :| s in rest;
      if m[s] < v {
        v := m[s];
        at := s;
      }
      rest := rest - {s};
    }
    assert v <= m[MinKey(m)];
  }

  /** `part2` on the parsed steps, for at most `fuel` iterations. */
  method Workers(steps: set<char>, dependencies: map<char, seq<char>>, workers: nat, baseTime: nat, fuel: nat)
    returns (r: Option<nat>)
    requires forall s :: s in steps ==> s >= 'A'
    ensures r == Schedule(steps, Work({}, map[], 0, dependencies), workers, baseTime, fuel)
  {
    r := Run(steps, Work({}, map[], 0, dependencies), workers, baseTime, fuel);
  }

  /** The loop of `part2` from the state `start`. */
  method Run(steps: set<char>, start: Work, workers: nat, baseTime: nat, fuel: nat)
    returns (r: Option<nat>)
    requires forall s :: s in steps ==> s >= 'A'
    ensures r == Schedule(steps, start, workers, baseTime, fuel)
  {
    var w := start;
    var f := fuel;
    ghost var target := Schedule(steps, w, workers, baseTime, f);
    while f > 0
      invariant Schedule(steps, w, workers, baseTime, f) == target
      decreases f
    {
      var rest := f - 1;
      ghost var w0 := w;
      w := Finish(w);
      if |w.completed| == |steps| {
        ScheduleEnds(steps, w0, workers, baseTime, f);
        return Some(w.time);
      }
      if workers < |w.inProgress| {
        ScheduleStuck(steps, w0, workers, baseTime, f);
        return None;
      }
      var idle := Idle(w, workers);
      w := Round(steps, w, idle, baseTime);
      ScheduleRound(steps, w0, w, workers, baseTime, f, rest);
      f := rest;
    }
    r := None;
  }

  /** The rest of an iteration: assign the idle workers, then advance
      time. */
  method Round(steps: set<char>, w1: Work, idle: nat, baseTime: nat) returns (w: Work)
    requires forall s :: s in steps ==> s >= 'A'
    ensures w == Advance(Start(steps, w1, idle, baseTime))
  {
    var w2 := Assign(steps, w1, idle, baseTime);
    w := AdvanceTime(w2);
  }

  /** "Advance time", as the loop does it. */
  method AdvanceTime(w2: Work) returns (w: Work)
    ensures w == Advance(w2)
  {
    w := w2;
    if w.inProgress != map[] {
      var minTime := MinOfValues(w.inProgress);
      w := w.(inProgress := Shift(w.inProgress, minTime), time := w.time + minTime);
    }
  }

  /** `Schedule` when every step is complete after finishing. */
  lemma ScheduleEnds(steps: set<char>, w: Work, workers: nat, baseTime: nat, fuel: nat)
    requires forall s :: s in steps ==> s >= 'A'
    requires fuel > 0 && |Finish(w).completed| == |steps|
    ensures Schedule(steps, w, workers, baseTime, fuel) == Some(Finish(w).time)
  {
  }

  /** `Schedule` when more steps run than there are workers. */
  lemma ScheduleStuck(steps: set<char>, w: Work, workers: nat, baseTime: nat, fuel: nat)
    requires forall s :: s in steps ==> s >= 'A'
    requires fuel > 0 && |Finish(w).completed| != |steps| && workers < |Finish(w).inProgress|
    ensures Schedule(steps, w, workers, baseTime, fuel) == None
  {
  }

  /** One unfolding of `Schedule` past an iteration that does not end. */
  lemma ScheduleStep(steps: set<char>, w: Work, w': Work, workers: nat, baseTime: nat, rest: nat)
    requires forall s :: s in steps ==> s >= 'A'
    requires |Finish(w).completed| != |steps| && |Finish(w).inProgress| <= workers
    requires w' == Advance(Start(steps, Finish(w), Idle(Finish(w), workers), baseTime))
    ensures Schedule(steps, w, workers, baseTime, rest + 1) == Schedule(steps, w', workers, baseTime, rest)
  {
  }

  /** `ScheduleStep` with the fuel before the iteration named. */
  lemma ScheduleRound(steps: set<char>, w: Work, w': Work, workers: nat, baseTime: nat, fuel: nat, rest: nat)
    requires forall s :: s in steps ==> s >= 'A'
    requires rest + 1 == fuel && |Finish(w).completed| != |steps| && |Finish(w).inProgress| <= workers
    requires w' == Advance(Start(steps, Finish(w), Idle(Finish(w), workers), baseTime))
    ensures Schedule(steps, w, workers, baseTime, fuel) == Schedule(steps, w', workers, baseTime, rest)
  {
    ScheduleStep(steps, w, w', workers, baseTime, rest);
  }

  /** `part2` with its parsing. */
  method Part2(lines: seq<Words>, workers: nat, baseTime: nat, fuel: nat) returns (r: Option<nat>)
    requires WordsNonEmpty(lines) && forall s :: s in AllSteps(lines) ==> s >= 'A'
    ensures r == Schedule(AllSteps(lines), Work({}, map[], 0, Deps(lines)), workers, baseTime, fuel)
  {
    var allSteps, dependencies := ParseInput(lines);
    r := Workers(allSteps, dependencies, workers, baseTime, fuel);
  }

  /** A run that ends reports a time at which every step is complete, having
      kept the invariant all along. */
  lemma {:induction false} ScheduleEndsComplete(steps: set<char>, deps0: map<char, seq<char>>, w: Work, workers: nat, baseTime: nat, fuel: nat)
    requires forall s :: s in steps ==> s >= 'A'
    requires Sane(steps, deps0, w, workers)
    requires Schedule(steps, w, workers, baseTime, fuel).Some?
    ensures exists w' ::
      Sane(steps, deps0, w', workers) && w'.completed == steps && Schedule(steps, w, workers, baseTime, fuel) == Some(w'.time)
    decreases fuel
  {
    var w1 := Finish(w);
    ScheduleRuns(steps, w, workers, baseTime, fuel);
    if |w1.completed| == |steps| {
      AllFinished(steps, deps0, w, workers);
      ScheduleEnds(steps, w, workers, baseTime, fuel);
    } else {
      var rest: nat := fuel - 1;
      var next := Advance(Start(steps, w1, Idle(w1, workers), baseTime));
      NextSane(steps, deps0, w, workers, baseTime);
      ScheduleStep(steps, w, next, workers, baseTime, rest);
      ScheduleEndsComplete(steps, deps0, next, workers, baseTime, rest);
      EndsCarried(steps, deps0, Schedule(steps, w, workers, baseTime, fuel), Schedule(steps, next, workers, baseTime, rest), workers);
    }
  }

  /** A schedule that ends has fuel left, and never more running steps
      than workers. */
  lemma ScheduleRuns(steps: set<char>, w: Work, workers: nat, baseTime: nat, fuel: nat)
    requires forall s :: s in steps ==> s >= 'A'
    requires Schedule(steps, w, workers, baseTime, fuel).Some?
    ensures fuel > 0
    ensures |Finish(w).completed| != |steps| ==> |Finish(w).inProgress| <= workers
  {
  }

  /** A final state witnessing one schedule result witnesses an equal one. */
  lemma EndsCarried(steps: set<char>, deps0: map<char, seq<char>>, r: Option<nat>, r': Option<nat>, workers: nat)
    requires r == r'
    requires exists w' :: Sane(steps, deps0, w', workers) && w'.completed == steps && r' == Some(w'.time)
    ensures exists w' :: Sane(steps, deps0, w', workers) && w'.completed == steps && r == Some(w'.time)
  {
  }

  /** When every step is complete after finishing, the invariant holds
      with all steps complete. */
  lemma AllFinished(steps: set<char>, deps0: map<char, seq<char>>, w: Work, workers: nat)
    requires Sane(steps, deps0, w, workers)
    requires |Finish(w).completed| == |steps|
    ensures Sane(steps, deps0, Finish(w), workers) && Finish(w).completed == steps
  {
    var w1 := Finish(w);
    FinishSane(steps, deps0, w, workers);
    assert steps == w1.completed + (steps - w1.completed);
  }

  /** A whole iteration that does not end keeps the invariant. */
  lemma NextSane(steps: set<char>, deps0: map<char, seq<char>>, w: Work, workers: nat, baseTime: nat)
    requires forall s :: s in steps ==> s >= 'A'
    requires Sane(steps, deps0, w, workers)
    ensures Sane(steps, deps0, Advance(Start(steps, Finish(w), Idle(Finish(w), workers), baseTime)), workers)
  {
    var w1 := Finish(w);
    FinishSane(steps, deps0, w, workers);
    StartSane(steps, deps0, w1, workers, baseTime);
    AdvanceSane(steps, deps0, Start(steps, w1, Idle(w1, workers), baseTime), workers);
  }
}
