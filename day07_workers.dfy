/** `part2` of rust/src/day07.rs: the steps done by several workers in
    parallel, each step taking a fixed base time plus its letter's position
    in the alphabet. */
module Day07Workers {

  import opened Wrappers
  import opened Day07


  /** `step_time`: the base time plus 1 for 'A', 2 for 'B', ... */
  function Duration(step: char, baseTime: nat): (d: nat)
    requires step >= 'A'
    ensures d == baseTime + (step as int - 'A' as int + 1) && d >= baseTime + 1
  {
    baseTime + (step as int - 'A' as int + 1)
  }

  /** The variables of `part2`'s loop. */
  datatype Work = Work(completed: set<char>, inProgress: map<char, nat>, time: nat, deps: map<char, seq<char>>)

  /** `deps.retain` for every step of `finished`. */
  function Without(deps: seq<char>, finished: set<char>): (r: seq<char>)
    ensures forall c :: c in r <==> c in deps && c !in finished
  {
    if deps == [] then []
    else Without(deps[..|deps| - 1], finished) + (if deps[|deps| - 1] !in finished then [deps[|deps| - 1]] else [])
  }

  function ClearAll(dependencies: map<char, seq<char>>, finished: set<char>): (d: map<char, seq<char>>)
    ensures d.Keys == dependencies.Keys
    ensures forall s :: s in d ==> d[s] == Without(dependencies[s], finished)
  {
    map s | s in dependencies :: Without(dependencies[s], finished)
  }

  /** "Process completed steps": those with no time remaining leave
      `in_progress`, join `completed` and leave every prerequisite list. */
  function Finish(w: Work): (w': Work)
    ensures w'.inProgress.Keys <= w.inProgress.Keys
  {
    var finished := set s | s in w.inProgress && w.inProgress[s] == 0;
    w.(completed := w.completed + finished,
       inProgress := map s | s in w.inProgress && w.inProgress[s] != 0 :: w.inProgress[s],
       deps := ClearAll(w.deps, finished))
  }

  /** The steps that may start. */
  function Available(steps: set<char>, w: Work): set<char> {
    set s | s in steps && s !in w.completed && s !in w.inProgress && (s !in w.deps || w.deps[s] == [])
  }

  /** `in_progress` with the steps of `take` inserted with their durations. */
  function StartMap(inProgress: map<char, nat>, take: set<char>, baseTime: nat): (m: map<char, nat>)
    requires forall s :: s in take ==> s >= 'A'
    ensures m.Keys == inProgress.Keys + take
  {
    inProgress + map s | s in take :: Duration(s, baseTime)
  }

  lemma StartMapAdd(inProgress: map<char, nat>, take: set<char>, step: char, baseTime: nat)
    requires step >= 'A' && forall s :: s in take ==> s >= 'A'
    ensures StartMap(inProgress, take + {step}, baseTime) == StartMap(inProgress, take, baseTime)[step := Duration(step, baseTime)]
  {
  }

  lemma StartMapNone(inProgress: map<char, nat>, baseTime: nat)
    ensures StartMap(inProgress, {}, baseTime) == inProgress
  {
  }

  /** A non-empty map to naturals has a key with the least value. */
  lemma {:induction false} LeastKeyBelow(m: map<char, nat>, k: char)
    requires k in m
    ensures exists j :: j in m && forall s :: s in m ==> m[j] <= m[s]
    decreases m[k]
  {
    if j :| j in m && m[j] < m[k] {
      LeastKeyBelow(m, j);
    } else {
      assert forall s :: s in m ==> m[k] <= m[s];
    }
  }

  /** A step with the least remaining time. */
  ghost function MinKey(m: map<char, nat>): (k: char)
    requires m != map[]
    ensures k in m && forall s :: s in m ==> m[k] <= m[s]
  {
    var k0 :| k0 in m;
    LeastKeyBelow(m, k0);
    var k :| k in m && forall s :: s in m ==> m[k] <= m[s];
    k
  }

  /** The least remaining time: `in_progress.values().min()`. */
  ghost function MinRemaining(m: map<char, nat>): (v: nat)
    requires m != map[]
    ensures forall s :: s in m ==> v <= m[s]
  {
    m[MinKey(m)]
  }

  /** "Advance time" by the least remaining time, subtracted from every
      step in progress. */
  ghost function Advance(w: Work): Work {
    if w.inProgress == map[] then w
    else
      var m := MinRemaining(w.inProgress);
      w.(inProgress := Shift(w.inProgress, m), time := w.time + m)
  }

  /** Every remaining time lowered by `m`. */
  function Shift(inProgress: map<char, nat>, m: nat): (r: map<char, nat>)
    requires forall s :: s in inProgress ==> m <= inProgress[s]
    ensures r.Keys == inProgress.Keys
  {
    map s | s in inProgress :: inProgress[s] - m
  }

  /** The number of idle workers. */
  function Idle(w: Work, workers: nat): (idle: nat)
    ensures |w.inProgress| <= workers ==> idle + |w.inProgress| == workers
  {
    if |w.inProgress| <= workers then workers - |w.inProgress| else 0
  }

  /** "Assign available steps to idle workers": the alphabetically first
      available steps start, one per idle worker. */
  ghost function Start(steps: set<char>, w: Work, idle: nat, baseTime: nat): (w': Work)
    requires forall s :: s in steps ==> s >= 'A'
    ensures w'.inProgress.Keys == w.inProgress.Keys + Smallest(Available(steps, w), idle)
  {
    w.(inProgress := StartMap(w.inProgress, Smallest(Available(steps, w), idle), baseTime))
  }

  /** `part2`'s loop with at most `fuel` iterations; None when the fuel runs
      out (a step that can never start makes the source loop forever) or
      more steps are running than there are workers. */
  ghost function Schedule(steps: set<char>, w: Work, workers: nat, baseTime: nat, fuel: nat): Option<nat>
    requires forall s :: s in steps ==> s >= 'A'
    decreases fuel
  {
    if fuel == 0 then None
    else
      var w1 := Finish(w);
      if |w1.completed| == |steps| then Some(w1.time)
      else if workers < |w1.inProgress| then None
      else Schedule(steps, Advance(Start(steps, w1, Idle(w1, workers), baseTime)), workers, baseTime, fuel - 1)
  }

  /** At most `workers` steps run. */
  ghost predicate Bounded(w: Work, workers: nat) {
    |w.inProgress| <= workers
  }

  /** Running and complete steps are steps, and none is both. */
  ghost predicate Within(steps: set<char>, w: Work) {
    w.completed <= steps && forall s :: s in w.inProgress ==> s in steps && s !in w.completed
  }

  /** The remaining prerequisite lists are the original ones without the
      completed steps. */
  ghost predicate Tracks(deps0: map<char, seq<char>>, w: Work) {
    && w.deps.Keys == deps0.Keys
    && forall s :: s in deps0 ==> forall p :: p in w.deps[s] <==> p in deps0[s] && p !in w.completed
  }

  /** Every running or complete step has all its prerequisites complete. */
  ghost predicate PrereqsDone(deps0: map<char, seq<char>>, w: Work) {
    forall s :: (s in w.inProgress || s in w.completed) && s in deps0 ==> forall p :: p in deps0[s] ==> p in w.completed
  }

  /** The scheduling invariant. */
  ghost predicate Sane(steps: set<char>, deps0: map<char, seq<char>>, w: Work, workers: nat) {
    Bounded(w, workers) && Within(steps, w) && Tracks(deps0, w) && PrereqsDone(deps0, w)
  }

  lemma SubsetCard(a: set<char>, b: set<char>)
    requires a <= b
    ensures |a| <= |b|
  {
    assert b == a + (b - a);
  }

  /** The start of the loop: nothing complete or running, and no steps
      beyond `all_steps`. */
  lemma InitialSane(steps: set<char>, deps0: map<char, seq<char>>, workers: nat)
    ensures Sane(steps, deps0, Work({}, map[], 0, deps0), workers)
  {
  }

  /** Finishing keeps the invariant. */
  lemma FinishSane(steps: set<char>, deps0: map<char, seq<char>>, w: Work, workers: nat)
    requires Sane(steps, deps0, w, workers)
    ensures Sane(steps, deps0, Finish(w), workers)
  {
    var w1 := Finish(w);
    SubsetCard(w1.inProgress.Keys, w.inProgress.Keys);
  }

  /** Starting the first available steps on the idle workers keeps the
      invariant: a step starts only once its prerequisites are complete. */
  lemma StartSane(steps: set<char>, deps0: map<char, seq<char>>, w: Work, workers: nat, baseTime: nat)
    requires forall s :: s in steps ==> s >= 'A'
    requires Sane(steps, deps0, w, workers)
    ensures Sane(steps, deps0, Start(steps, w, Idle(w, workers), baseTime), workers)
  {
    var take := Smallest(Available(steps, w), Idle(w, workers));
    var w2 := Start(steps, w, Idle(w, workers), baseTime);
    SmallestCard(Available(steps, w), Idle(w, workers));
    StartBounded(w, take, workers, baseTime);
    StartWithin(steps, w, take, baseTime);
    StartPrereqs(steps, deps0, w, take, baseTime);
    SaneParts(steps, deps0, w, w2, workers);
  }

  lemma StartBounded(w: Work, take: set<char>, workers: nat, baseTime: nat)
    requires forall s :: s in take ==> s >= 'A'
    requires |w.inProgress| <= workers && |take| <= Idle(w, workers)
    ensures Bounded(w.(inProgress := StartMap(w.inProgress, take, baseTime)), workers)
  {
    UnionCard(w.inProgress.Keys, take);
  }

  lemma StartWithin(steps: set<char>, w: Work, take: set<char>, baseTime: nat)
    requires forall s :: s in take ==> s >= 'A'
    requires Within(steps, w) && take <= Available(steps, w)
    ensures Within(steps, w.(inProgress := StartMap(w.inProgress, take, baseTime)))
  {
  }

  lemma StartPrereqs(steps: set<char>, deps0: map<char, seq<char>>, w: Work, take: set<char>, baseTime: nat)
    requires forall s :: s in take ==> s >= 'A'
    requires Tracks(deps0, w) && PrereqsDone(deps0, w) && take <= Available(steps, w)
    ensures PrereqsDone(deps0, w.(inProgress := StartMap(w.inProgress, take, baseTime)))
  {
    forall s | s in take && s in deps0
      ensures forall p :: p in deps0[s] ==> p in w.completed
    {
      TakenReady(steps, deps0, w, s);
    }
  }

  /** The invariant's parts that a step leaves to check. */
  lemma SaneParts(steps: set<char>, deps0: map<char, seq<char>>, w: Work, w': Work, workers: nat)
    requires Tracks(deps0, w) && w'.deps == w.deps && w'.completed == w.completed
    requires Bounded(w', workers) && Within(steps, w') && PrereqsDone(deps0, w')
    ensures Sane(steps, deps0, w', workers)
  {
    TracksSame(deps0, w, w');
  }

  lemma TracksSame(deps0: map<char, seq<char>>, w: Work, w': Work)
    requires Tracks(deps0, w) && w'.deps == w.deps && w'.completed == w.completed
    ensures Tracks(deps0, w')
  {
  }

  /** A step that is available has all its prerequisites complete. */
  lemma TakenReady(steps: set<char>, deps0: map<char, seq<char>>, w: Work, s: char)
    requires Tracks(deps0, w) && s in Available(steps, w) && s in deps0
    ensures forall p :: p in deps0[s] ==> p in w.completed
  {
    forall p | p in deps0[s]
      ensures p in w.completed
    {
      assert p !in w.deps[s];
    }
  }

  /** Advancing time keeps the invariant. */
  lemma AdvanceSane(steps: set<char>, deps0: map<char, seq<char>>, w: Work, workers: nat)
    requires Sane(steps, deps0, w, workers)
    ensures Sane(steps, deps0, Advance(w), workers)
  {
    if w.inProgress != map[] {
      var m := MinRemaining(w.inProgress);
      var w' := w.(inProgress := Shift(w.inProgress, m), time := w.time + m);
      assert Advance(w) == w';
      SameKeysSane(steps, deps0, w, w', workers);
    }
  }

  /** The invariant speaks only of which steps run, not of their times. */
  lemma SameKeysSane(steps: set<char>, deps0: map<char, seq<char>>, w: Work, w': Work, workers: nat)
    requires Sane(steps, deps0, w, workers)
    requires w'.inProgress.Keys == w.inProgress.Keys && w'.deps == w.deps && w'.completed == w.completed
    ensures Sane(steps, deps0, w', workers)
  {
    assert |w'.inProgress| == |w'.inProgress.Keys| == |w.inProgress.Keys| == |w.inProgress|;
    TracksSame(deps0, w, w');
  }

}
