// Day 16: Chronal Classification. Samples show the registers before and
// after one instruction whose opcode number is unknown; part 1 counts the
// samples that three or more opcodes explain, part 2 narrows each number's
// candidates to the opcodes every one of its samples allows, fixes numbers
// with a single candidate one at a time, and runs the test program.

module Day16 {
  import opened Wrappers
  import opened Machine

  /** An instruction as read: opcode number and three operands, all usize. */
  datatype Instruction = Instruction(opcode: nat, a: nat, b: nat, c: nat)

  /** A sample: four registers before, the instruction, four registers after. */
  datatype Sample = Sample(before: seq<int>, instruction: Instruction, after: seq<int>)

  /**
   * A sample every opcode can be tried on without a panic: four registers
   * on each side, and operands that all name a register.
   */
  predicate Usable(s: Sample)
  {
    |s.before| == 4 && |s.after| == 4 && s.instruction.a < 4 && s.instruction.b < 4 && s.instruction.c < 4
  }

  /** The opcode turns the sample's before registers into its after registers. */
  predicate Matches(s: Sample, op: Op)
  {
    Usable(s) && Apply(op, s.before, s.instruction.a, s.instruction.b, s.instruction.c) == s.after
  }

  /** matches_sample: runs the instruction on a copy of the before registers and compares with after. */
  method MatchesSample(s: Sample, op: Op) returns (m: bool)
    requires Usable(s)
    ensures m <==> Matches(s, op)
  {
    var regs := new int[4](k requires 0 <= k < 4 => s.before[k]);
    Execute(op, regs, s.instruction.a, s.instruction.b, s.instruction.c);
    m := regs[..] == s.after;
  }

  /** The number of opcodes among ops that match the sample. */
  function MatchCount(s: Sample, ops: seq<Op>): (n: nat)
    ensures n <= |ops|
  {
    if ops == [] then 0
    else MatchCount(s, ops[..|ops| - 1]) + (if Matches(s, ops[|ops| - 1]) then 1 else 0)
  }

  /** The number of samples that at least three of the sixteen opcodes match. */
  function Ambiguous(samples: seq<Sample>): (n: nat)
    ensures n <= |samples|
  {
    if samples == [] then 0
    else Ambiguous(samples[..|samples| - 1]) + (if MatchCount(samples[|samples| - 1], AllOps()) >= 3 then 1 else 0)
  }

  /** part1: counts the samples with at least three matching opcodes. */
  method Part1(samples: seq<Sample>) returns (count: nat)
    requires forall k :: 0 <= k < |samples| ==> Usable(samples[k])
    ensures count == Ambiguous(samples)
  {
    var ops := AllOps();
    count := 0;
    for k := 0 to |samples|
      invariant count == Ambiguous(samples[..k])
    {
      assert samples[..k + 1][..k] == samples[..k];
      var matching := 0;
      for j := 0 to |ops|
        invariant matching == MatchCount(samples[k], ops[..j])
      {
        assert ops[..j + 1][..j] == ops[..j];
        var m := MatchesSample(samples[k], ops[j]);
        if m {
          matching := matching + 1;
        }
      }
      assert ops[..|ops|] == ops;
      if matching >= 3 {
        count := count + 1;
      }
    }
    assert samples[..|samples|] == samples;
  }

  /** The sample of the puzzle text: Before [3, 2, 1, 1], 9 2 1 2, After [3, 2, 2, 1]. */
  function Example(): (s: Sample)
    ensures Usable(s)
  {
    Sample([3, 2, 1, 1], Instruction(9, 2, 1, 2), [3, 2, 2, 1])
  }

  /** The example sample is matched by exactly mulr, addi and seti. */
  lemma ExampleMatchers(op: Op)
    ensures Matches(Example(), op) <==> op == Mulr || op == Addi || op == Seti
  {
    match op
    case Banr => assert And(1, 2) == 0;
    case Bani => assert And(1, 1) == 1;
    case Borr => assert Or(1, 2) == 3;
    case Bori => assert Or(1, 1) == 1;
    case _ =>
  }

  /** How many of ops are mulr, addi or seti. */
  function ExampleHits(ops: seq<Op>): nat
  {
    if ops == [] then 0
    else ExampleHits(ops[..|ops| - 1]) + (if ops[|ops| - 1] in {Mulr, Addi, Seti} then 1 else 0)
  }

  /** Counting the example's matches counts mulr, addi and seti. */
  lemma {:induction false} ExampleCount(ops: seq<Op>)
    ensures MatchCount(Example(), ops) == ExampleHits(ops)
  {
    if ops != [] {
      ExampleCount(ops[..|ops| - 1]);
      ExampleMatchers(ops[|ops| - 1]);
    }
  }

  /** Two of the first eight opcodes listed are mulr, addi or seti... */
  lemma ExampleHitsFront()
    ensures ExampleHits(AllOps()[..8]) == 2
  {
    var ops := AllOps();
    assert ExampleHits(ops[..1]) == 0 by { assert ops[..1][..0] == ops[..0]; }
    assert ExampleHits(ops[..2]) == 1 by { assert ops[..2][..1] == ops[..1]; }
    assert ExampleHits(ops[..3]) == 2 by { assert ops[..3][..2] == ops[..2]; }
    assert ExampleHits(ops[..4]) == 2 by { assert ops[..4][..3] == ops[..3]; }
    assert ExampleHits(ops[..5]) == 2 by { assert ops[..5][..4] == ops[..4]; }
    assert ExampleHits(ops[..6]) == 2 by { assert ops[..6][..5] == ops[..5]; }
    assert ExampleHits(ops[..7]) == 2 by { assert ops[..7][..6] == ops[..6]; }
    assert ExampleHits(ops[..8]) == 2 by { assert ops[..8][..7] == ops[..7]; }
  }

  /** ...and one of the last eight. */
  lemma ExampleHitsAll()
    ensures ExampleHits(AllOps()) == 3
  {
    var ops := AllOps();
    ExampleHitsFront();
    assert ExampleHits(ops[..9]) == 2 by { assert ops[..9][..8] == ops[..8]; }
    assert ExampleHits(ops[..10]) == 3 by { assert ops[..10][..9] == ops[..9]; }
    assert ExampleHits(ops[..11]) == 3 by { assert ops[..11][..10] == ops[..10]; }
    assert ExampleHits(ops[..12]) == 3 by { assert ops[..12][..11] == ops[..11]; }
    assert ExampleHits(ops[..13]) == 3 by { assert ops[..13][..12] == ops[..12]; }
    assert ExampleHits(ops[..14]) == 3 by { assert ops[..14][..13] == ops[..13]; }
    assert ExampleHits(ops[..15]) == 3 by { assert ops[..15][..14] == ops[..14]; }
    assert ExampleHits(ops[..16]) == 3 by { assert ops[..16][..15] == ops[..15]; }
    assert ops[..16] == ops;
  }

  /** The example sample has three matching opcodes, so part1 counts it. */
  lemma ExampleMatches()
    ensures MatchCount(Example(), AllOps()) == 3
    ensures Ambiguous([Example()]) == 1
  {
    ExampleCount(AllOps());
    ExampleHitsAll();
    assert [Example()][..0] == [];
  }

  // ---------------------------------------------------------------------
  // part2

  /** The opcodes that every sample with opcode number n matches. */
  function Consistent(samples: seq<Sample>, n: int): (r: set<Op>)
    ensures forall op :: op in r <==>
              forall k :: 0 <= k < |samples| && samples[k].instruction.opcode == n ==> Matches(samples[k], op)
  {
    assert forall op :: op in AllOps() by {
      forall op: Op { AllOpsComplete(op); }
    }
    set op | op in AllOps() && forall k :: 0 <= k < |samples| && samples[k].instruction.opcode == n ==> Matches(samples[k], op)
  }

  /** Each of the sixteen numbers has exactly the opcodes consistent with the samples as candidates. */
  ghost predicate Narrowed(samples: seq<Sample>, possible: map<int, set<Op>>)
  {
    (forall n :: n in possible <==> 0 <= n < 16)
    && forall n :: n in possible ==> possible[n] == Consistent(samples, n)
  }

  /** Before any sample, every number has all sixteen opcodes as candidates. */
  lemma NarrowedStart(possible: map<int, set<Op>>)
    requires forall n :: n in possible <==> 0 <= n < 16
    requires forall n, op :: n in possible ==> op in possible[n]
    ensures Narrowed([], possible)
  {
  }

  /** The candidates with those of number num cut down to matches. */
  function Narrow(possible: map<int, set<Op>>, num: int, matches: set<Op>): map<int, set<Op>>
  {
    if num in possible then possible[num := possible[num] * matches] else possible
  }

  /**
   * One more sample narrows the candidates of its own number to the ones
   * it matches, and no other number's; a number outside 0..15 narrows
   * nothing.
   */
  lemma NarrowStep(samples: seq<Sample>, k: int, possible: map<int, set<Op>>, matches: set<Op>)
    requires 0 <= k < |samples| && Narrowed(samples[..k], possible)
    requires forall op :: op in matches <==> Matches(samples[k], op)
    ensures Narrowed(samples[..k + 1], Narrow(possible, samples[k].instruction.opcode, matches))
  {
    assert samples[..k + 1][k] == samples[k];
    assert forall j :: 0 <= j < k ==> samples[..k + 1][j] == samples[..k][j];
  }

  /** No two opcode numbers are given the same opcode. */
  predicate Injective(mapping: map<int, Op>)
  {
    forall n, n' :: n in mapping && n' in mapping && n != n' ==> mapping[n] != mapping[n']
  }

  /** The opcodes that match the sample, gathered by trying each in turn. */
  method MatchingOps(s: Sample) returns (matches: set<Op>)
    requires Usable(s)
    ensures forall op :: op in matches <==> Matches(s, op)
  {
    var ops := AllOps();
    matches := {};
    for j := 0 to |ops|
      invariant forall op :: op in matches <==> op in ops[..j] && Matches(s, op)
    {
      var m := MatchesSample(s, ops[j]);
      if m {
        matches := matches + {ops[j]};
      }
    }
    forall op
      ensures op in ops
    {
      AllOpsComplete(op);
    }
    assert ops[..|ops|] == ops;
  }

  /** The candidate sets before any sample: every opcode for each of the numbers 0 to 15. */
  method AllCandidates() returns (possible: map<int, set<Op>>)
    ensures forall n :: n in possible <==> 0 <= n < 16
    ensures forall n, op :: n in possible ==> op in possible[n]
  {
    var all := set op | op in AllOps();
    forall op
      ensures op in all
    {
      AllOpsComplete(op);
    }
    possible := map[];
    for n := 0 to 16
      invariant forall m :: m in possible <==> 0 <= m < n
      invariant forall m :: m in possible ==> possible[m] == all
    {
      possible := possible[n := all];
    }
  }

  /** The candidate sets after the elimination pass: each number's opcodes consistent with all its samples. */
  method Eliminate(samples: seq<Sample>) returns (possible: map<int, set<Op>>)
    requires forall k :: 0 <= k < |samples| ==> Usable(samples[k])
    ensures Narrowed(samples, possible)
  {
    possible := AllCandidates();
    NarrowedStart(possible);
    for k := 0 to |samples|
      invariant Narrowed(samples[..k], possible)
    {
      var s := samples[k];
      var num := s.instruction.opcode;
      var matches := MatchingOps(s);
      NarrowStep(samples, k, possible, matches);
      if num in possible {
        possible := possible[num := possible[num] * matches];
      }
    }
    assert samples[..|samples|] == samples;
  }

  /** What the deduction loop keeps: candidates within the consistent opcodes, none of them already given away. */
  ghost predicate Deducing(samples: seq<Sample>, possible: map<int, set<Op>>, mapping: map<int, Op>)
  {
    (forall n :: n in possible <==> 0 <= n < 16)
    && (forall n :: n in mapping ==> n in possible && mapping[n] in Consistent(samples, n))
    && (forall n :: n in possible ==> possible[n] <= Consistent(samples, n))
    && (forall n, n' :: n in possible && n' in mapping ==> mapping[n'] !in possible[n])
    && Injective(mapping)
  }

  /** The candidate sets with op removed from each. */
  function Without(possible: map<int, set<Op>>, op: Op): (r: map<int, set<Op>>)
    ensures r.Keys == possible.Keys
    ensures forall n :: n in r ==> r[n] == possible[n] - {op}
  {
    map n | n in possible :: possible[n] - {op}
  }

  /** Giving an unmapped number its single candidate, and removing that candidate everywhere, keeps the deduction invariant. */
  lemma DeduceStep(samples: seq<Sample>, possible: map<int, set<Op>>, mapping: map<int, Op>, num: int, op: Op)
    requires Deducing(samples, possible, mapping)
    requires num in possible && |possible[num]| == 1 && op in possible[num] && num !in mapping
    ensures Deducing(samples, Without(possible, op), mapping[num := op])
  {
    assert |possible[num] - {op}| == 0;
    forall n | n in mapping
      ensures mapping[n] != op
    {
    }
  }

  /** The opcodes already given to some number. */
  function Taken(mapping: map<int, Op>): (taken: set<Op>)
    ensures forall n :: n in mapping ==> mapping[n] in taken
  {
    set n | n in mapping :: mapping[n]
  }

  /** Giving an unmapped number an opcode adds exactly that opcode to the ones taken. */
  lemma Given(mapping: map<int, Op>, num: int, op: Op)
    requires num !in mapping
    ensures Taken(mapping[num := op]) == Taken(mapping) + {op}
  {
    var m := mapping[num := op];
    assert m[num] == op;
    forall o | o in Taken(m)
      ensures o in Taken(mapping) + {op}
    {
      var n :| n in m && m[n] == o;
      if n != num {
        assert mapping[n] == o;
      }
    }
    forall o | o in Taken(mapping)
      ensures o in Taken(m)
    {
      var n :| n in mapping && mapping[n] == o;
      assert m[n] == o;
    }
  }

  /** Each number's candidates are its starting ones less the opcodes taken. */
  ghost predicate Remaining(possible0: map<int, set<Op>>, possible: map<int, set<Op>>, mapping: map<int, Op>)
  {
    forall n :: n in possible ==> n in possible0 && possible[n] == possible0[n] - Taken(mapping)
  }

  /** Giving an unmapped number its opcode, and removing that opcode everywhere, keeps every candidate set the starting one less the opcodes given away. */
  lemma GiveAway(possible0: map<int, set<Op>>, possible: map<int, set<Op>>, mapping: map<int, Op>, num: int, op: Op)
    requires num !in mapping && Remaining(possible0, possible, mapping)
    ensures Remaining(possible0, Without(possible, op), mapping[num := op])
  {
    Given(mapping, num, op);
  }

  /**
   * The deduction loop: while fewer than 16 numbers are mapped, some
   * unmapped number with a single candidate (the first in hash order, here
   * any) is given it, and that opcode leaves every candidate set.
   */
  method Deduce(samples: seq<Sample>, possible0: map<int, set<Op>>) returns (mapping: map<int, Op>, ghost possible: map<int, set<Op>>)
    requires Narrowed(samples, possible0)
    ensures Deducing(samples, possible, mapping)
    ensures forall n :: n in possible ==> possible[n] == possible0[n] - Taken(mapping)
    ensures |mapping| < 16 ==> forall n :: 0 <= n < 16 && n !in mapping ==> |possible0[n] - Taken(mapping)| != 1
  {
    var poss := possible0;
    mapping := map[];
    assert Taken(mapping) == {};
    while |mapping| < 16
      invariant Deducing(samples, poss, mapping)
      invariant Remaining(possible0, poss, mapping)
      decreases poss.Keys - mapping.Keys
    {
      if num :| num in poss && |poss[num]| == 1 && num !in mapping {
        var op :| op in poss[num];
        DeduceStep(samples, poss, mapping, num, op);
        GiveAway(possible0, poss, mapping, num, op);
        mapping := mapping[num := op];
        poss := Without(poss, op);
      } else {
        break;
      }
    }
    possible := poss;
  }

  /** The registers after the instructions, skipping unmapped numbers; None when an operand names no register. */
  function RunMapped(mapping: map<int, Op>, program: seq<Instruction>, regs: seq<int>): (r: Option<seq<int>>)
    ensures r.Some? ==> |r.value| == |regs|
  {
    if program == [] then Some(regs)
    else
      match RunMapped(mapping, program[..|program| - 1], regs)
      case None => None
      case Some(mid) =>
        var inst := program[|program| - 1];
        if inst.opcode !in mapping then Some(mid)
        else if !Fits(mapping[inst.opcode], inst.a, inst.b, inst.c, |mid|) then None
        else Some(Apply(mapping[inst.opcode], mid, inst.a, inst.b, inst.c))
  }

  /** An unmapped opcode number leaves the registers as they are. */
  lemma RunSkipsUnmapped(mapping: map<int, Op>, program: seq<Instruction>, regs: seq<int>, inst: Instruction)
    requires inst.opcode !in mapping
    ensures RunMapped(mapping, program + [inst], regs) == RunMapped(mapping, program, regs)
  {
    assert (program + [inst])[..|program|] == program;
  }

  /**
   * part2: eliminate, deduce, then run the test program from four zero
   * registers; register 0 at the end, or None where an operand names no
   * register and the source panics.
   */
  method Part2(samples: seq<Sample>, program: seq<Instruction>) returns (r: Option<int>, mapping: map<int, Op>)
    requires forall k :: 0 <= k < |samples| ==> Usable(samples[k])
    ensures Injective(mapping)
    ensures forall n :: n in mapping ==> 0 <= n < 16
    ensures forall n, k :: n in mapping && 0 <= k < |samples| && samples[k].instruction.opcode == n ==>
              Matches(samples[k], mapping[n])
    ensures |mapping| < 16 ==> forall n :: 0 <= n < 16 && n !in mapping ==> |Consistent(samples, n) - Taken(mapping)| != 1
    ensures r == match RunMapped(mapping, program, [0, 0, 0, 0])
                 case None => None
                 case Some(regs) => Some(regs[0])
  {
    var possible := Eliminate(samples);
    ghost var left;
    mapping, left := Deduce(samples, possible);
    var regs := new int[4](k => 0);
    assert regs[..] == [0, 0, 0, 0];
    for j := 0 to |program|
      invariant RunMapped(mapping, program[..j], [0, 0, 0, 0]) == Some(regs[..])
    {
      assert program[..j + 1][..j] == program[..j];
      var inst := program[j];
      if inst.opcode in mapping {
        var op := mapping[inst.opcode];
        if !Fits(op, inst.a, inst.b, inst.c, regs.Length) {
          assert RunMapped(mapping, program[..j + 1], [0, 0, 0, 0]) == None;
          RunStaysFailed(mapping, program, j + 1);
          return None, mapping;
        }
        Execute(op, regs, inst.a, inst.b, inst.c);
      }
    }
    assert program[..|program|] == program;
    r := Some(regs[0]);
  }

  /** Once a prefix of the program panics, the whole program does. */
  lemma {:induction false} RunStaysFailed(mapping: map<int, Op>, program: seq<Instruction>, j: nat)
    requires j <= |program| && RunMapped(mapping, program[..j], [0, 0, 0, 0]) == None
    ensures RunMapped(mapping, program, [0, 0, 0, 0]) == None
    decreases |program| - j
  {
    if j < |program| {
      assert program[..j + 1][..j] == program[..j];
      RunStaysFailed(mapping, program, j + 1);
    } else {
      assert program[..j] == program;
    }
  }
}
