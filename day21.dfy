/** Chronal Conversion (rust/src/day21.rs): run the program from all-zero
    registers and, each time instruction 28 is about to run, note register
    1; the first value noted is the one that halts the program soonest, and
    the last one before a value repeats is the one that halts it latest. */
module Day21 {

  import opened Wrappers
  import opened ElfCode

  /** The instruction at which `find_halting_values` looks at register 1. */
  const CheckIp: int := 28

  predicate Distinct(xs: seq<int>) {
    forall i, j :: 0 <= i < j < |xs| ==> xs[i] != xs[j]
  }

  /** The registers once ip has been written to the bound register. */
  function Bound(p: Program, s: Cpu): (r: seq<int>)
    requires p.ipRegister < |s.regs|
    ensures |r| == |s.regs|
  {
    s.regs[p.ipRegister := s.ip]
  }

  /** `find_halting_values` from state s with the values noted so far, for
      at most fuel steps: the values once ip leaves the program or a value
      repeats; None where a step panics or fuel runs out. */
  function Halting(p: Program, s: Cpu, values: seq<int>, fuel: nat): Option<seq<int>>
    requires |s.regs| == 6
    decreases fuel
  {
    if !Running(p, s) then Some(values)
    else if fuel == 0 || p.ipRegister >= 6 then None
    else if s.ip == CheckIp && Bound(p, s)[1] in values then Some(values)
    else
      var noted := if s.ip == CheckIp then values + [Bound(p, s)[1]] else values;
      match Step(p, s)
      case None => None
      case Some(t) => Halting(p, t, noted, fuel - 1)
  }

  /** Register 1 at every visit of instruction 28 in the first fuel steps of
      the run, repeats included, up to a halt or a panic. */
  function Visits(p: Program, s: Cpu, fuel: nat): seq<int>
    requires |s.regs| == 6
    decreases fuel
  {
    if !Running(p, s) || fuel == 0 || p.ipRegister >= 6 then []
    else
      var seen := if s.ip == CheckIp then [Bound(p, s)[1]] else [];
      match Step(p, s)
      case None => seen
      case Some(t) => seen + Visits(p, t, fuel - 1)
  }

  /** vs is values followed by the longest start of trace in which no
      value repeats: no value twice, in the order first seen, and the next
      value of the trace, if any, is one of them. */
  ghost predicate FirstRepeat(values: seq<int>, vs: seq<int>, trace: seq<int>) {
    && |values| <= |vs| && vs[..|values|] == values
    && Distinct(vs)
    && |vs| - |values| <= |trace| && vs[|values|..] == trace[..|vs| - |values|]
    && (|vs| - |values| < |trace| ==> trace[|vs| - |values|] in vs)
  }

  lemma FirstRepeatNoted(values: seq<int>, v: int, vs: seq<int>, rest: seq<int>)
    requires FirstRepeat(values + [v], vs, rest)
    ensures FirstRepeat(values, vs, [v] + rest)
  {
    var noted := values + [v];
    assert vs[..|values|] == vs[..|noted|][..|values|];
    assert vs[|values|..] == [v] + vs[|noted|..];
  }

  lemma FirstRepeatSeen(values: seq<int>, v: int, rest: seq<int>)
    requires Distinct(values) && v in values
    ensures FirstRepeat(values, values, [v] + rest)
  {
  }

  /** What `find_halting_values` returns is what it started with followed by
      the longest run of visits to instruction 28 without a repeated value. */
  lemma {:induction false} HaltingIsFirstRepeat(p: Program, s: Cpu, values: seq<int>, fuel: nat)
    requires |s.regs| == 6 && Distinct(values)
    ensures Halting(p, s, values, fuel).Some? ==>
              FirstRepeat(values, Halting(p, s, values, fuel).value, Visits(p, s, fuel))
    decreases fuel
  {
    if Running(p, s) && fuel > 0 && p.ipRegister < 6 {
      var v := Bound(p, s)[1];
      if s.ip == CheckIp && v in values {
        FirstRepeatSeen(values, v, Visits(p, s, fuel)[1..]);
        assert Visits(p, s, fuel) == [v] + Visits(p, s, fuel)[1..];
      } else {
        var noted := if s.ip == CheckIp then values + [v] else values;
        assert Distinct(noted);
        match Step(p, s)
        case None =>
        case Some(t) =>
          HaltingIsFirstRepeat(p, t, noted, fuel - 1);
          if s.ip == CheckIp && Halting(p, t, noted, fuel - 1).Some? {
            FirstRepeatNoted(values, v, Halting(p, t, noted, fuel - 1).value, Visits(p, t, fuel - 1));
          }
      }
    }
  }

  /** One pass of the loop that neither stops nor panics. */
  lemma HaltingOnce(p: Program, s: Cpu, values: seq<int>, rest: nat)
    requires |s.regs| == 6 && Running(p, s) && p.ipRegister < 6
    requires !(s.ip == CheckIp && Bound(p, s)[1] in values)
    requires Step(p, s).Some?
    ensures Halting(p, s, values, rest + 1)
            == Halting(p, Step(p, s).value, if s.ip == CheckIp then values + [Bound(p, s)[1]] else values, rest)
  {
  }

  /** The same pass, with the step spelled out as the instruction run on
      the registers after the bind. */
  lemma HaltingPass(p: Program, s: Cpu, values: seq<int>, rest: nat, regs: seq<int>)
    requires |s.regs| == 6 && Running(p, s) && p.ipRegister < 6
    requires !(s.ip == CheckIp && Bound(p, s)[1] in values)
    requires Exec(p.instructions[s.ip], Bound(p, s)) == Some(regs)
    ensures Halting(p, s, values, rest + 1)
            == Halting(p, Cpu(regs[p.ipRegister] + 1, regs), if s.ip == CheckIp then values + [Bound(p, s)[1]] else values, rest)
  {
    StepBy(p, s, regs);
    HaltingOnce(p, s, values, rest);
  }

  /** Without fuel, or with the bound register out of range, the search
      gives up. */
  lemma HaltingOutOfFuel(p: Program, s: Cpu, values: seq<int>, fuel: nat)
    requires |s.regs| == 6 && Running(p, s) && (fuel == 0 || p.ipRegister >= 6)
    ensures Halting(p, s, values, fuel) == None
  {
  }

  /** At instruction 28 with a value already noted, the search stops. */
  lemma HaltingRepeat(p: Program, s: Cpu, values: seq<int>, fuel: nat)
    requires |s.regs| == 6 && Running(p, s) && fuel > 0 && p.ipRegister < 6
    requires s.ip == CheckIp && Bound(p, s)[1] in values
    ensures Halting(p, s, values, fuel) == Some(values)
  {
  }

  /** An instruction that panics ends the search with None. */
  lemma HaltingPanics(p: Program, s: Cpu, values: seq<int>, rest: nat)
    requires |s.regs| == 6 && Running(p, s) && p.ipRegister < 6
    requires !(s.ip == CheckIp && Bound(p, s)[1] in values)
    requires Exec(p.instructions[s.ip], Bound(p, s)).None?
    ensures Halting(p, s, values, rest + 1) == None
  {
  }

  /** `find_halting_values`: the loop on the register array, with a set of
      the values already noted. */
  method FindHaltingValues(p: Program, fuel: nat) returns (r: Option<seq<int>>)
    ensures r == Halting(p, Start(0), [], fuel)
  {
    var regs := new int[6](i => 0);
    assert regs[..] == Start(0).regs;
    var ip := 0;
    var values: seq<int> := [];
    var seen: set<int> := {};
    var left := fuel;
    while 0 <= ip < |p.instructions|
      invariant regs.Length == 6
      invariant forall v :: v in seen <==> v in values
      invariant Halting(p, Cpu(ip, regs[..]), values, left) == Halting(p, Start(0), [], fuel)
      decreases left
    {
      ghost var before := Cpu(ip, regs[..]);
      if left == 0 || p.ipRegister >= 6 {
        HaltingOutOfFuel(p, before, values, left);
        return None;
      }
      ghost var valuesBefore := values;
      var rest := left - 1;
      regs[p.ipRegister] := ip;
      assert regs[..] == Bound(p, before);
      if ip == CheckIp {
        if regs[1] in seen {
          assert Bound(p, before)[1] in values by { assert regs[1] == regs[..][1]; }
          HaltingRepeat(p, before, values, left);
          return Some(values);
        }
        assert regs[1] == Bound(p, before)[1];
        values := values + [regs[1]];
        seen := seen + {regs[1]};
      }
      var ok := ExecuteNamed(p.instructions[ip], regs);
      if !ok {
        HaltingPanics(p, before, valuesBefore, rest);
        return None;
      }
      ip := regs[p.ipRegister] + 1;
      HaltingPass(p, before, valuesBefore, rest, regs[..]);
      left := rest;
    }
    return Some(values);
  }

  /** The first value noted, 0 if none. */
  function FirstNoted(vs: seq<int>): int {
    if vs == [] then 0 else vs[0]
  }

  /** The last value noted, 0 if none. */
  function LastNoted(vs: seq<int>): int {
    if vs == [] then 0 else vs[|vs| - 1]
  }

  /** `part1`: the first value noted, 0 if none; None where parsing or a
      step panics or fuel runs out. */
  method Part1(lines: seq<string>, fuel: nat) returns (r: Option<int>)
    ensures ParseInput(lines).None? ==> r.None?
    ensures ParseInput(lines).Some? ==>
              r == match Halting(ParseInput(lines).value, Start(0), [], fuel)
                   case None => None
                   case Some(vs) => Some(FirstNoted(vs))
  {
    var p := ParseInput(lines);
    if p.None? {
      return None;
    }
    var values := FindHaltingValues(p.value, fuel);
    if values.None? {
      return None;
    }
    return Some(FirstNoted(values.value));
  }

  /** `part2`: the last value noted, 0 if none. */
  method Part2(lines: seq<string>, fuel: nat) returns (r: Option<int>)
    ensures ParseInput(lines).None? ==> r.None?
    ensures ParseInput(lines).Some? ==>
              r == match Halting(ParseInput(lines).value, Start(0), [], fuel)
                   case None => None
                   case Some(vs) => Some(LastNoted(vs))
  {
    var p := ParseInput(lines);
    if p.None? {
      return None;
    }
    var values := FindHaltingValues(p.value, fuel);
    if values.None? {
      return None;
    }
    return Some(LastNoted(values.value));
  }
}
