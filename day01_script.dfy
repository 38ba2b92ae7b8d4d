/** The Python frequency-repeat script (1/problem2.py): the same search as
    `Day01.Part2`, written as a `for` over the lines inside a `while run`. */
module Day01Script {

  import opened Wrappers
  import opened Day01

  /** The script over the lines' integer values. `freq` collects the totals
      before each change, 0 first; the first total already in `freq` is the
      answer. The script loops forever on an empty file or when no total
      repeats; here that is `None`, the latter once `fuel` changes have been
      applied. */
  method FirstRepeat(values: seq<int>, fuel: nat) returns (r: Option<int>)
    ensures r.Some? ==> |values| > 0 && exists n :: 0 < n <= fuel && FirstRepeatAt(values, n) && r.value == Total(values, n)
    ensures r.None? && |values| > 0 ==> NoRepeatUpTo(values, fuel)
  {
    if |values| == 0 {
      return None;
    }
    var s := 0;
    var freq: set<int> := {};
    var applied := 0;
    var run := true;
    while run
      invariant 0 <= applied <= fuel
      invariant CycleIndex(values, applied) == 0
      invariant s == Total(values, applied)
      invariant freq == SeenBefore(values, applied)
      invariant NoRepeatUpTo(values, applied)
      invariant !run ==> applied == fuel
      decreases fuel - applied, run
    {
      var i := 0;
      ghost var start := applied;
      while i < |values|
        invariant 0 <= i <= |values|
        invariant applied == start + i
        invariant 0 <= applied <= fuel
        invariant CycleIndex(values, applied) == if i == |values| then 0 else i
        invariant s == Total(values, applied)
        invariant freq == SeenBefore(values, applied)
        invariant NoRepeatUpTo(values, applied)
      {
        if applied == fuel {
          return None;
        }
        freq := freq + {s};
        s := s + values[i];
        applied := applied + 1;
        if s in freq {
          assert FirstRepeatAt(values, applied);
          return Some(s);
        }
        i := i + 1;
      }
      if applied == fuel {
        run := false;
      }
    }
    return None;
  }
}
