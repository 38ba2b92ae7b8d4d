/** Guard sleep records (python/4/problem2.py): events keyed by timestamp,
    replayed in ascending order; every nap adds one to each of its minutes in
    `total_sleep` and in the guard's own 60-minute array; the guard with the
    largest single-minute count is chosen, and the answer is that guard's id
    times that minute. */
module Day04Guards {

  import opened Wrappers

  /** A record as the script sees it after its regular expressions and
      `time.mktime`: the timestamp, the minute after the last ':' of the date,
      the digits matched after '#' (None when that match fails) and the text. */
  datatype Record = Record(epoch: int, minute: nat, guardDigits: Option<nat>, description: string)

  datatype Kind = ShiftStart | StartSleep | StopSleep | Unclassified

  /** An `Event`; `guard` is None when the description has no '#'. */
  datatype Event = Event(epoch: int, minute: nat, guard: Option<int>, kind: Kind)

  /** How a run of the script ends. */
  datatype Outcome<T> = Done(value: T) | Exited | Crashed

  /** Python's `sub in s`: `sub` occurs at some position of `s`. */
  predicate Contains(s: string, sub: string)
    decreases |s|
  {
    |sub| <= |s| && (s[..|sub|] == sub || Contains(s[1..], sub))
  }

  /** The classification of `Event.__init__`, in its order. */
  function KindOf(description: string): (k: Kind)
    ensures k == ShiftStart <==> Contains(description, "Guard")
    ensures k == StartSleep <==> !Contains(description, "Guard") && Contains(description, "falls asleep")
    ensures k == Unclassified <==>
      !Contains(description, "Guard") && !Contains(description, "falls asleep") && !Contains(description, "wakes up")
  {
    if Contains(description, "Guard") then ShiftStart
    else if Contains(description, "falls asleep") then StartSleep
    else if Contains(description, "wakes up") then StopSleep
    else Unclassified
  }

  /** `Event(epoch, date, description)`; a '#' whose guard match fails raises. */
  function NewEvent(r: Record): (e: Option<Event>)
    ensures e.None? <==> Contains(r.description, "#") && r.guardDigits.None?
    ensures e.Some? ==> e.value.epoch == r.epoch && e.value.minute == r.minute && e.value.kind == KindOf(r.description)
    ensures e.Some? ==> (e.value.guard.Some? <==> Contains(r.description, "#"))
  {
    if Contains(r.description, "#") then
      if r.guardDigits.None? then None
      else Some(Event(r.epoch, r.minute, Some(r.guardDigits.value as int), KindOf(r.description)))
    else Some(Event(r.epoch, r.minute, None, KindOf(r.description)))
  }

  /** The epochs of `rs` are pairwise distinct. */
  predicate DistinctEpochs(rs: seq<Record>) {
    forall i, j :: 0 <= i < j < |rs| ==> rs[i].epoch != rs[j].epoch
  }

  /** The first loop over the records, as a function of the records read so far. */
  function Collect(rs: seq<Record>): Outcome<map<int, Event>> {
    if rs == [] then Done(map[])
    else
      match Collect(rs[..|rs| - 1])
      case Done(events) =>
        var r := rs[|rs| - 1];
        var e := NewEvent(r);
        if e.None? then Crashed
        else if r.epoch in events then Exited
        else Done(events[r.epoch := e.value])
      case other => other
  }

  /** Building `events` either crashes on a record, exits on a repeated
      timestamp, or keys every record's event by its timestamp. */
  lemma {:induction false} CollectMeans(rs: seq<Record>)
    ensures Collect(rs).Done? <==> DistinctEpochs(rs) && forall i :: 0 <= i < |rs| ==> NewEvent(rs[i]).Some?
    ensures Collect(rs).Done? ==>
      && (forall t :: t in Collect(rs).value <==> exists i :: 0 <= i < |rs| && rs[i].epoch == t)
      && forall i :: 0 <= i < |rs| ==> Collect(rs).value[rs[i].epoch] == NewEvent(rs[i]).value
  {
    if rs != [] {
      var init := rs[..|rs| - 1];
      CollectMeans(init);
      var r := rs[|rs| - 1];
      assert forall i :: 0 <= i < |init| ==> init[i] == rs[i];
      if Collect(init).Done? && NewEvent(r).Some? && r.epoch in Collect(init).value {
        var i :| 0 <= i < |init| && init[i].epoch == r.epoch;
        assert rs[i].epoch == rs[|rs| - 1].epoch;
      }
    }
  }

  /** The loop building `events`. */
  method BuildEvents(rs: seq<Record>) returns (r: Outcome<map<int, Event>>)
    ensures r == Collect(rs)
  {
    var events: map<int, Event> := map[];
    for n := 0 to |rs|
      invariant Collect(rs[..n]) == Done(events)
    {
      assert rs[..n + 1][..n] == rs[..n];
      var e := NewEvent(rs[n]);
      if e.None? {
        assert Collect(rs[..n + 1]) == Crashed;
        CrashedStays(rs, n + 1);
        assert rs[..|rs|] == rs;
        return Crashed;
      }
      if rs[n].epoch in events {
        assert Collect(rs[..n + 1]) == Exited;
        ExitedStays(rs, n + 1);
        assert rs[..|rs|] == rs;
        return Exited;
      }
      events := events[rs[n].epoch := e.value];
    }
    assert rs[..|rs|] == rs;
    r := Done(events);
  }

  lemma {:induction false} CrashedStays(rs: seq<Record>, n: nat)
    requires n <= |rs| && Collect(rs[..n]) == Crashed
    ensures Collect(rs) == Crashed
    decreases |rs| - n
  {
    if n < |rs| {
      assert rs[..n + 1][..n] == rs[..n];
      CrashedStays(rs, n + 1);
    } else {
      assert rs[..n] == rs;
    }
  }

  lemma {:induction false} ExitedStays(rs: seq<Record>, n: nat)
    requires n <= |rs| && Collect(rs[..n]) == Exited
    ensures Collect(rs) == Exited
    decreases |rs| - n
  {
    if n < |rs| {
      assert rs[..n + 1][..n] == rs[..n];
      ExitedStays(rs, n + 1);
    } else {
      assert rs[..n] == rs;
    }
  }

  /** The replay's variables: `guard`, `sleep_start` (None before the first
      "falls asleep"), `total_sleep`, `guard_sleep` and the order in which
      `guard_sleep` received its keys. */
  datatype Tally = Tally(guard: Option<int>, sleepStart: Option<nat>, total: seq<int>,
                         perGuard: map<Option<int>, seq<int>>, order: seq<Option<int>>)

  /** `total_sleep` and every guard's array have 60 entries. */
  ghost predicate Shaped(t: Tally) {
    |t.total| == 60 && forall g :: g in t.perGuard ==> |t.perGuard[g]| == 60
  }

  /** The guards of `order` appear once each and are exactly the keys. */
  ghost predicate ListsKeys(perGuard: map<Option<int>, seq<int>>, order: seq<Option<int>>) {
    && (forall g :: g in perGuard <==> g in order)
    && forall i, j :: 0 <= i < j < |order| ==> order[i] != order[j]
  }

  /** Sum over the guards of `order` of their count at `minute`. */
  function SumAt(perGuard: map<Option<int>, seq<int>>, order: seq<Option<int>>, minute: nat): int
    requires forall g :: g in order ==> g in perGuard && minute < |perGuard[g]|
  {
    if order == [] then 0
    else SumAt(perGuard, order[..|order| - 1], minute) + perGuard[order[|order| - 1]][minute]
  }

  /** The invariant of the replay: keys listed once, and every minute's
      total the sum of the guards' counts at that minute. */
  ghost predicate Valid(t: Tally) {
    && Shaped(t)
    && ListsKeys(t.perGuard, t.order)
    && forall i :: 0 <= i < 60 ==> t.total[i] == SumAt(t.perGuard, t.order, i)
  }

  /** `total_sleep = [0] * 60`, `guard_sleep = {}`, `guard = -1`. */
  function Initial(): (t: Tally)
    ensures Valid(t)
  {
    Tally(Some(-1), None, seq(60, _ => 0), map[], [])
  }

  /** One iteration of the `range` loop: minute `i` of the current guard,
      whose array is created on its first minute. */
  function AddMinute(t: Tally, i: nat): (t': Tally)
    requires i < 60 && Shaped(t)
    ensures Shaped(t') && t'.guard == t.guard && t'.sleepStart == t.sleepStart
  {
    var arr := if t.guard in t.perGuard then t.perGuard[t.guard] else seq(60, _ => 0);
    var order := if t.guard in t.perGuard then t.order else t.order + [t.guard];
    t.(total := t.total[i := t.total[i] + 1], perGuard := t.perGuard[t.guard := arr[i := arr[i] + 1]], order := order)
  }

  /** Minutes `s .. e - 1` of the current guard. */
  function AddMinutes(t: Tally, s: nat, e: nat): (t': Tally)
    requires e <= 60 && Shaped(t)
    ensures Shaped(t') && t'.guard == t.guard && t'.sleepStart == t.sleepStart
    decreases e
  {
    if e <= s then t else AddMinute(AddMinutes(t, s, e - 1), e - 1)
  }

  lemma {:induction false} SumAtOther(perGuard: map<Option<int>, seq<int>>, order: seq<Option<int>>, g: Option<int>, a: seq<int>, minute: nat)
    requires forall h :: h in order ==> h in perGuard && minute < |perGuard[h]|
    requires g !in order && minute < |a|
    ensures SumAt(perGuard[g := a], order, minute) == SumAt(perGuard, order, minute)
  {
    if order != [] {
      SumAtOther(perGuard, order[..|order| - 1], g, a, minute);
    }
  }

  /** Changing one listed guard's count changes the sum by the same amount. */
  lemma {:induction false} SumAtUpdate(perGuard: map<Option<int>, seq<int>>, order: seq<Option<int>>, g: Option<int>, a: seq<int>, minute: nat)
    requires forall h :: h in order ==> h in perGuard && minute < |perGuard[h]|
    requires forall i, j :: 0 <= i < j < |order| ==> order[i] != order[j]
    requires g in order && minute < |a|
    ensures SumAt(perGuard[g := a], order, minute) == SumAt(perGuard, order, minute) - perGuard[g][minute] + a[minute]
  {
    var init := order[..|order| - 1];
    assert forall h :: h in init ==> h in order;
    if order[|order| - 1] == g {
      assert g !in init;
      SumAtOther(perGuard, init, g, a, minute);
    } else {
      assert g in init;
      SumAtUpdate(perGuard, init, g, a, minute);
    }
  }

  /** After one minute, the total at minute `m` is still the guards' sum. */
  lemma AddMinuteSum(t: Tally, i: nat, m: nat)
    requires i < 60 && m < 60 && Valid(t)
    ensures AddMinute(t, i).total[m] == SumAt(AddMinute(t, i).perGuard, AddMinute(t, i).order, m)
  {
    var g := t.guard;
    var arr := if g in t.perGuard then t.perGuard[g] else seq(60, _ => 0);
    var a := arr[i := arr[i] + 1];
    assert t.total[m] == SumAt(t.perGuard, t.order, m);
    if g in t.perGuard {
      SumAtUpdate(t.perGuard, t.order, g, a, m);
    } else {
      assert g !in t.order;
      SumAtOther(t.perGuard, t.order, g, a, m);
      var order' := t.order + [g];
      assert order'[..|order'| - 1] == t.order;
    }
  }

  /** One minute keeps the replay's invariant. */
  lemma AddMinuteValid(t: Tally, i: nat)
    requires i < 60 && Valid(t)
    ensures Valid(AddMinute(t, i))
  {
    var t' := AddMinute(t, i);
    assert ListsKeys(t'.perGuard, t'.order) by {
      if t.guard !in t.perGuard {
        assert t.guard !in t.order;
      }
    }
    forall m | 0 <= m < 60
      ensures t'.total[m] == SumAt(t'.perGuard, t'.order, m)
    {
      AddMinuteSum(t, i, m);
    }
  }

  lemma {:induction false} AddMinutesValid(t: Tally, s: nat, e: nat)
    requires e <= 60 && Valid(t)
    ensures Valid(AddMinutes(t, s, e))
    decreases e
  {
    if s < e {
      AddMinutesValid(t, s, e - 1);
      AddMinuteValid(AddMinutes(t, s, e - 1), e - 1);
    }
  }

  /** The `range(sleep_start, sleep_end)` loop adds one to the minutes from
      falling asleep up to, not including, waking up. */
  lemma {:induction false} AddMinutesTotal(t: Tally, s: nat, e: nat)
    requires e <= 60 && Shaped(t)
    ensures forall i :: 0 <= i < 60 ==> AddMinutes(t, s, e).total[i] == t.total[i] + (if s <= i < e then 1 else 0)
    decreases e
  {
    if s < e {
      AddMinutesTotal(t, s, e - 1);
    }
  }

  /** The same minutes are added to the current guard's array, which exists
      afterwards when the nap is not empty. */
  lemma {:induction false} AddMinutesOwn(t: Tally, s: nat, e: nat)
    requires e <= 60 && s < e && Shaped(t)
    ensures t.guard in AddMinutes(t, s, e).perGuard
    ensures forall i :: 0 <= i < 60 ==>
      AddMinutes(t, s, e).perGuard[t.guard][i] == (if t.guard in t.perGuard then t.perGuard[t.guard][i] else 0) + (if s <= i < e then 1 else 0)
    decreases e
  {
    if s < e - 1 {
      AddMinutesOwn(t, s, e - 1);
    }
  }

  /** The other guards' arrays are untouched. */
  lemma {:induction false} AddMinutesOthers(t: Tally, s: nat, e: nat)
    requires e <= 60 && Shaped(t)
    ensures forall g :: g != t.guard ==> (g in AddMinutes(t, s, e).perGuard <==> g in t.perGuard)
    ensures forall g :: g != t.guard && g in t.perGuard ==> AddMinutes(t, s, e).perGuard[g] == t.perGuard[g]
    decreases e
  {
    if s < e {
      AddMinutesOthers(t, s, e - 1);
    }
  }

  /** The `range` loop for a nap from `s` to `e`; a minute past 59 raises
      IndexError. */
  function Nap(t: Tally, s: nat, e: nat): Option<Tally>
    requires Shaped(t)
  {
    if e <= s then Some(t)
    else if e > 60 then None
    else Some(AddMinutes(t, s, e))
  }

  /** One event of the sorted replay; a wake-up before any sleep raises
      NameError, an unclassified event AttributeError. */
  function Apply(t: Tally, e: Event): (r: Option<Tally>)
    requires Valid(t)
    ensures r.Some? ==> Valid(r.value)
  {
    match e.kind
    case ShiftStart => Some(t.(guard := e.guard))
    case StartSleep => Some(t.(sleepStart := Some(e.minute)))
    case StopSleep =>
      if t.sleepStart.None? then None
      else
        var s := t.sleepStart.value;
        if e.minute <= s || e.minute > 60 then Nap(t, s, e.minute)
        else AddMinutesValid(t, s, e.minute); Nap(t, s, e.minute)
    case Unclassified => None
  }

  /** The replay of `es` in order. */
  function Replay(es: seq<Event>): (r: Option<Tally>)
    ensures r.Some? ==> Valid(r.value)
  {
    if es == [] then Some(Initial())
    else
      var t := Replay(es[..|es| - 1]);
      if t.None? then None else Apply(t.value, es[|es| - 1])
  }

  lemma {:induction false} ReplayNoneStays(es: seq<Event>, n: nat)
    requires n <= |es| && Replay(es[..n]).None?
    ensures Replay(es).None?
    decreases |es| - n
  {
    if n < |es| {
      assert es[..n + 1][..n] == es[..n];
      ReplayNoneStays(es, n + 1);
    } else {
      assert es[..n] == es;
    }
  }

  /** The events in the order of the sorted timestamps. */
  function InOrder(events: map<int, Event>, order: seq<int>): (es: seq<Event>)
    requires forall k :: 0 <= k < |order| ==> order[k] in events
    ensures |es| == |order| && forall k :: 0 <= k < |order| ==> es[k] == events[order[k]]
  {
    seq(|order|, k requires 0 <= k < |order| => events[order[k]])
  }

  /** `sorted(events)`: the timestamps ascending (the sort itself is a library call). */
  predicate SortedKeys(events: map<int, Event>, order: seq<int>) {
    && (forall k :: 0 <= k < |order| ==> order[k] in events)
    && (forall t :: t in events ==> t in order)
    && forall i, j :: 0 <= i < j < |order| ==> order[i] < order[j]
  }

  /** The `range(sleep_start, sleep_end)` loop on the script's variables. */
  method NapLoop(t: Tally, s: nat, e: nat) returns (r: Option<Tally>)
    requires Shaped(t)
    ensures r == Nap(t, s, e)
  {
    if e <= s {
      return Some(t);
    }
    var total, guardSleep, keys := t.total, t.perGuard, t.order;
    var i := s;
    while i < e
      invariant s <= i <= e && (i == s || i <= 60)
      invariant i <= 60 ==> AddMinutes(t, s, i) == t.(total := total, perGuard := guardSleep, order := keys)
    {
      if i >= 60 {
        return None;
      }
      total := total[i := total[i] + 1];
      if t.guard !in guardSleep {
        guardSleep := guardSleep[t.guard := seq(60, _ => 0)];
        keys := keys + [t.guard];
      }
      guardSleep := guardSleep[t.guard := guardSleep[t.guard][i := guardSleep[t.guard][i] + 1]];
      i := i + 1;
    }
    r := Some(t.(total := total, perGuard := guardSleep, order := keys));
  }

  /** The `for epoch in sorted(events)` loop. */
  method ReplayEvents(events: map<int, Event>, order: seq<int>) returns (r: Option<Tally>)
    requires SortedKeys(events, order)
    ensures r == Replay(InOrder(events, order))
  {
    var es := InOrder(events, order);
    var t := Initial();
    for n := 0 to |order|
      invariant Replay(es[..n]) == Some(t)
    {
      assert es[..n + 1][..n] == es[..n];
      var e := events[order[n]];
      if e.kind == ShiftStart {
        t := t.(guard := e.guard);
      } else if e.kind == StartSleep {
        t := t.(sleepStart := Some(e.minute));
      } else if e.kind == StopSleep && t.sleepStart.Some? {
        var next := NapLoop(t, t.sleepStart.value, e.minute);
        if next.None? {
          ReplayNoneStays(es, n + 1);
          assert es[..|es|] == es;
          return None;
        }
        t := next.value;
      } else {
        ReplayNoneStays(es, n + 1);
        assert es[..|es|] == es;
        return None;
      }
    }
    assert es[..|order|] == es;
    r := Some(t);
  }

  /** `max(enumerate(a), key=itemgetter(1))[0]`: the first index of a largest entry. */
  function FirstMax(a: seq<int>): (k: nat)
    requires |a| > 0
    ensures k < |a|
    ensures forall j :: 0 <= j < |a| ==> a[j] <= a[k]
    ensures forall j :: 0 <= j < k ==> a[j] < a[k]
  {
    if |a| == 1 then 0
    else
      var k := FirstMax(a[..|a| - 1]);
      if a[|a| - 1] > a[k] then |a| - 1 else k
  }

  /** A guard's largest single-minute count. */
  function MaxOf(a: seq<int>): int
    requires |a| > 0
  {
    a[FirstMax(a)]
  }

  /** The position in `order` of `max_guard` after the first `n` guards;
      None while no guard beat `best_time = -1`. */
  function Pick(perGuard: map<Option<int>, seq<int>>, order: seq<Option<int>>, n: nat): (p: Option<nat>)
    requires n <= |order| && forall g :: g in order ==> g in perGuard && |perGuard[g]| == 60
    ensures p.Some? ==> p.value < n
  {
    if n == 0 then None
    else
      var prev := Pick(perGuard, order, n - 1);
      var best := if prev.None? then -1 else MaxOf(perGuard[order[prev.value]]);
      if MaxOf(perGuard[order[n - 1]]) > best then Some(n - 1) else prev
  }

  /** The chosen guard has the largest single-minute count of all guards and
      is the first in `guard_sleep`'s order to reach it. */
  lemma {:induction false} PickIsBest(perGuard: map<Option<int>, seq<int>>, order: seq<Option<int>>, n: nat)
    requires n <= |order| && forall g :: g in order ==> g in perGuard && |perGuard[g]| == 60
    ensures Pick(perGuard, order, n).None? ==> forall j :: 0 <= j < n ==> MaxOf(perGuard[order[j]]) <= -1
    ensures Pick(perGuard, order, n).Some? ==>
      var best := MaxOf(perGuard[order[Pick(perGuard, order, n).value]]);
      && best > -1
      && (forall j :: 0 <= j < n ==> MaxOf(perGuard[order[j]]) <= best)
      && forall j :: 0 <= j < Pick(perGuard, order, n).value ==> MaxOf(perGuard[order[j]]) < best
  {
    if n > 0 {
      PickIsBest(perGuard, order, n - 1);
    }
  }

  /** The printed product; no guard (NameError) or a guard that is None
      (TypeError) is a crash. */
  function Answer(t: Tally): Outcome<int>
    requires Valid(t)
  {
    var p := Pick(t.perGuard, t.order, |t.order|);
    if p.None? || t.order[p.value].None? then Crashed
    else
      var g := t.order[p.value];
      Done(g.value * FirstMax(t.perGuard[g]))
  }

  /** The final `for guard in guard_sleep` loop. */
  method Choose(t: Tally) returns (r: Outcome<int>)
    requires Valid(t)
    ensures r == Answer(t)
  {
    var bestTime := -1;
    var found: Option<nat> := None;
    var maxGuard: Option<int> := None;
    var bestMinute: nat := 0;
    for n := 0 to |t.order|
      invariant found == Pick(t.perGuard, t.order, n)
      invariant found.None? ==> bestTime == -1
      invariant found.Some? ==> && maxGuard == t.order[found.value]
                                && bestMinute == FirstMax(t.perGuard[maxGuard])
                                && bestTime == MaxOf(t.perGuard[maxGuard])
    {
      var a := t.perGuard[t.order[n]];
      var sleepTimeMinute := FirstMax(a);
      var sleepTime := a[sleepTimeMinute];
      if sleepTime > bestTime {
        bestTime := sleepTime;
        bestMinute := sleepTimeMinute;
        maxGuard := t.order[n];
        found := Some(n);
      }
    }
    if found.None? || maxGuard.None? {
      return Crashed;
    }
    r := Done(maxGuard.value * bestMinute);
  }

  /** The records' timestamps, ascending. */
  ghost predicate SortedEpochs(rs: seq<Record>, order: seq<int>) {
    && (forall t :: t in order <==> exists i :: 0 <= i < |rs| && rs[i].epoch == t)
    && forall i, j :: 0 <= i < j < |order| ==> order[i] < order[j]
  }

  /** The sorted timestamps are exactly the keys of `events`. */
  lemma SortedEpochsKeys(rs: seq<Record>, order: seq<int>)
    requires SortedEpochs(rs, order) && Collect(rs).Done?
    ensures SortedKeys(Collect(rs).value, order)
  {
    CollectMeans(rs);
    var events := Collect(rs).value;
    forall k | 0 <= k < |order|
      ensures order[k] in events
    {
      assert order[k] in order;
    }
  }

  /** The whole script: build `events`, replay them in timestamp order, choose. */
  function Run(rs: seq<Record>, order: seq<int>): Outcome<int>
    requires SortedEpochs(rs, order)
  {
    match Collect(rs)
    case Exited => Exited
    case Crashed => Crashed
    case Done(events) =>
      SortedEpochsKeys(rs, order);
      var t := Replay(InOrder(events, order));
      if t.None? then Crashed else Answer(t.value)
  }

  /** The script over parsed records, given the sorted timestamps. */
  method Script(rs: seq<Record>, order: seq<int>) returns (r: Outcome<int>)
    requires SortedEpochs(rs, order)
    ensures r == Run(rs, order)
  {
    var built := BuildEvents(rs);
    if built == Exited {
      return Exited;
    } else if built == Crashed {
      return Crashed;
    }
    SortedEpochsKeys(rs, order);
    var t := ReplayEvents(built.value, order);
    if t.None? {
      return Crashed;
    }
    r := Choose(t.value);
  }
}
