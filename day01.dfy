/** Chronal Calibration (rust/src/day01.rs): a list of frequency changes,
    their sum, and the first running total that is reached twice. */
module Day01 {

  import opened Wrappers
  import opened Text

  const I32_MIN: int := -0x8000_0000
  const I32_MAX: int := 0x7FFF_FFFF

  /** The decimal value of a digit string, most significant digit first. */
  function DigitsValue(ds: string): (v: nat)
    requires forall i :: 0 <= i < |ds| ==> IsDigit(ds[i])
  {
    if ds == [] then 0
    else
      assert IsDigit(ds[|ds| - 1]);
      DigitsValue(ds[..|ds| - 1]) * 10 + (ds[|ds| - 1] as int - '0' as int)
  }

  /** `str::parse::<i32>`: an optional '+' or '-' followed by at least one
      ASCII digit, with a value that fits in 32 bits. */
  function ParseI32(s: string): (r: Option<int>)
    ensures r.Some? ==> I32_MIN <= r.value <= I32_MAX
    ensures r.Some? ==> s != [] && (IsDigit(s[0]) || s[0] == '+' || s[0] == '-')
  {
    var neg := s != [] && s[0] == '-';
    var digits := if s != [] && (s[0] == '+' || s[0] == '-') then s[1..] else s;
    if digits == [] || exists i :: 0 <= i < |digits| && !IsDigit(digits[i]) then None
    else
      var v: int := if neg then 0 - DigitsValue(digits) else DigitsValue(digits);
      if I32_MIN <= v <= I32_MAX then Some(v) else None
  }

  /** The changes `part1` and `part2` read: every trimmed line that parses. */
  function Changes(lines: seq<string>): (cs: seq<int>)
    ensures |cs| <= |lines|
  {
    if lines == [] then []
    else
      var rest := Changes(lines[1..]);
      match ParseI32(Trim(lines[0]))
      case Some(v) => [v] + rest
      case None => rest
  }

  function Sum(xs: seq<int>): int {
    if xs == [] then 0 else xs[0] + Sum(xs[1..])
  }

  /** `part1`: the sum of the lines that parse, skipping the others. */
  function Part1(lines: seq<string>): int {
    Sum(Changes(lines))
  }

  lemma {:induction false} SumAppend(a: seq<int>, b: seq<int>)
    ensures Sum(a + b) == Sum(a) + Sum(b)
  {
    if a == [] {
      assert a + b == b;
    } else {
      assert (a + b)[1..] == a[1..] + b;
      SumAppend(a[1..], b);
    }
  }

  /** `part1` adds up line by line: a line that does not parse contributes
      nothing, one that does contributes its value. */
  lemma {:induction false} Part1Append(a: seq<string>, b: seq<string>)
    ensures Part1(a + b) == Part1(a) + Part1(b)
    ensures Part1([]) == 0
    ensures forall l :: Part1([l]) == ParseI32(Trim(l)).GetOr(0)
  {
    ChangesAppend(a, b);
    SumAppend(Changes(a), Changes(b));
    forall l ensures Part1([l]) == ParseI32(Trim(l)).GetOr(0) {
      assert [l][1..] == [];
      assert Changes([l][1..]) == [];
      match ParseI32(Trim(l))
      case Some(v) =>
        assert Changes([l]) == [v] + [];
        assert [v][1..] == [];
        assert Sum([v]) == v + Sum([]);
      case None =>
        assert Changes([l]) == [];
    }
  }

  lemma {:induction false} ChangesAppend(a: seq<string>, b: seq<string>)
    ensures Changes(a + b) == Changes(a) + Changes(b)
  {
    if a == [] {
      assert a + b == b;
    } else {
      assert (a + b)[1..] == a[1..] + b;
      ChangesAppend(a[1..], b);
    }
  }

  /** The position in `cs` of the change applied at step `n` (from 0) when
      the list is cycled: it counts up and wraps to 0 at the end. */
  function CycleIndex(cs: seq<int>, n: nat): (i: nat)
    requires |cs| > 0
    ensures i < |cs|
  {
    if n == 0 then 0
    else if CycleIndex(cs, n - 1) + 1 == |cs| then 0
    else CycleIndex(cs, n - 1) + 1
  }

  /** The running total after `n` changes taken cyclically from `cs`. */
  function Total(cs: seq<int>, n: nat): int
    requires |cs| > 0
  {
    if n == 0 then 0 else Total(cs, n - 1) + cs[CycleIndex(cs, n - 1)]
  }

  /** The totals reached before step `n`, the initial 0 included. */
  function SeenBefore(cs: seq<int>, n: nat): set<int>
    requires |cs| > 0
  {
    if n == 0 then {} else SeenBefore(cs, n - 1) + {Total(cs, n - 1)}
  }

  lemma {:induction false} SeenBeforeMeans(cs: seq<int>, n: nat, x: int)
    requires |cs| > 0
    ensures x in SeenBefore(cs, n) <==> exists k :: 0 <= k < n && Total(cs, k) == x
  {
    if n > 0 {
      SeenBeforeMeans(cs, n - 1, x);
      if x == Total(cs, n - 1) {
        assert 0 <= n - 1 < n && Total(cs, n - 1) == x;
      }
    }
  }

  /** The total after step `m` differs from every earlier total. */
  predicate IsNewTotal(cs: seq<int>, m: nat)
    requires |cs| > 0
  {
    Total(cs, m) !in SeenBefore(cs, m)
  }

  /** No running total among the first `n` steps repeats an earlier one. */
  predicate NoRepeatUpTo(cs: seq<int>, n: nat)
    requires |cs| > 0
  {
    n == 0 || (NoRepeatUpTo(cs, n - 1) && IsNewTotal(cs, n))
  }

  lemma {:induction false} NoRepeatUpToMeans(cs: seq<int>, n: nat)
    requires |cs| > 0
    ensures NoRepeatUpTo(cs, n) <==> forall m :: 0 < m <= n ==> IsNewTotal(cs, m)
  {
    if n > 0 {
      NoRepeatUpToMeans(cs, n - 1);
      if forall m :: 0 < m <= n ==> IsNewTotal(cs, m) {
        assert IsNewTotal(cs, n);
      }
    }
  }

  /** Step `n` is the first at which a running total repeats. */
  predicate FirstRepeatAt(cs: seq<int>, n: nat)
    requires |cs| > 0
  {
    n > 0 && !IsNewTotal(cs, n) && NoRepeatUpTo(cs, n - 1)
  }

  /** There is at most one first repeat. */
  lemma {:induction false} FirstRepeatUnique(cs: seq<int>, n: nat, n': nat)
    requires |cs| > 0
    requires FirstRepeatAt(cs, n) && FirstRepeatAt(cs, n')
    ensures n == n'
  {
    NoRepeatUpToMeans(cs, n - 1);
    NoRepeatUpToMeans(cs, n' - 1);
  }

  /** `part2` over the parsed changes. The loop cycles forever when no total
      repeats and `unreachable!` panics on an empty list: both give `None`,
      the first once `fuel` changes have been applied. */
  method Part2(changes: seq<int>, fuel: nat) returns (r: Option<int>)
    ensures r.Some? ==> |changes| > 0 && exists n :: 0 < n <= fuel && FirstRepeatAt(changes, n) && r.value == Total(changes, n)
    ensures r.None? && |changes| > 0 ==> NoRepeatUpTo(changes, fuel)
  {
    if |changes| == 0 {
      return None;
    }
    var frequency := 0;
    var seen: set<int> := {0};
    var steps := 0;
    var next := 0;
    while steps < fuel
      invariant 0 <= steps <= fuel
      invariant next == CycleIndex(changes, steps)
      invariant frequency == Total(changes, steps)
      invariant seen == SeenBefore(changes, steps + 1)
      invariant NoRepeatUpTo(changes, steps)
    {
      frequency := frequency + changes[next];
      steps := steps + 1;
      next := if next + 1 == |changes| then 0 else next + 1;
      if frequency in seen {
        assert FirstRepeatAt(changes, steps);
        r := Some(frequency);
        return;
      }
      seen := seen + {frequency};
    }
    return None;
  }

  /** The samples of `test_part1`. */
  lemma Part1Samples()
    ensures Part1(["+1", "-2", "+3", "+1"]) == 3
  {
    ParseLine('+', '1');
    ParseLine('-', '2');
    ParseLine('+', '3');
    assert Changes(["+1"]) == [1] by { assert ["+1"][1..] == []; }
    assert Changes(["+3", "+1"]) == [3, 1] by { assert ["+3", "+1"][1..] == ["+1"]; }
    assert Changes(["-2", "+3", "+1"]) == [-2, 3, 1] by { assert ["-2", "+3", "+1"][1..] == ["+3", "+1"]; }
    assert Changes(["+1", "-2", "+3", "+1"]) == [1, -2, 3, 1] by { assert ["+1", "-2", "+3", "+1"][1..] == ["-2", "+3", "+1"]; }
  }

  lemma Part1NegativeSample()
    ensures Part1(["-1", "-2", "-3"]) == -6
  {
    ParseLine('-', '1');
    ParseLine('-', '2');
    ParseLine('-', '3');
    assert Changes(["-3"]) == [-3] by { assert ["-3"][1..] == []; }
    assert Changes(["-2", "-3"]) == [-2, -3] by { assert ["-2", "-3"][1..] == ["-3"]; }
    assert Changes(["-1", "-2", "-3"]) == [-1, -2, -3] by { assert ["-1", "-2", "-3"][1..] == ["-2", "-3"]; }
  }

  /** A two-character line, a sign and one digit, parses to its value. */
  lemma ParseLine(sign: char, d: char)
    requires sign == '+' || sign == '-'
    requires IsDigit(d)
    ensures ParseI32(Trim([sign, d])) == Some(if sign == '-' then '0' as int - d as int else d as int - '0' as int)
  {
    ParseOneDigit(sign, d);
    assert Trim([sign, d]) == [sign, d];
  }

  lemma ParseOneDigit(sign: char, d: char)
    requires sign == '+' || sign == '-'
    requires IsDigit(d)
    ensures ParseI32([sign, d]) == Some(if sign == '-' then '0' as int - d as int else d as int - '0' as int)
  {
    var digits := [sign, d][1..];
    assert digits == [d];
    assert forall i :: 0 <= i < |digits| ==> IsDigit(digits[i]);
    assert digits[..0] == [];
    assert DigitsValue(digits) == d as int - '0' as int;
  }

  /** `test_part2`'s first sample: totals 0, 1, -1, 2, 3, 4, 2 repeat 2 at step 6. */
  lemma Part2Sample()
    ensures FirstRepeatAt([1, -2, 3, 1], 6) && Total([1, -2, 3, 1], 6) == 2
  {
  }
}
