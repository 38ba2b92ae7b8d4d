/** Go With The Flow (rust/src/day19.rs): run an `#ip` program
    to its halt, and, for part 2, run only the set-up that builds a large
    number in register 1 and then add up that number's divisors directly. */
module Day19 {

  import opened Wrappers
  import opened Machine
  import opened ElfCode
  import opened Tokens

  /** `run_program`: six registers, register 0 set, ip from 0, looping while
      ip is inside the program, for at most fuel steps. */
  method RunProgram(p: Program, initialReg0: int, fuel: nat) returns (out: Outcome)
    ensures out == Run(p, Start(initialReg0), fuel)
  {
    var regs := new int[6](i => 0);
    regs[0] := initialReg0;
    assert regs[..] == Start(initialReg0).regs;
    var ip := 0;
    var left := fuel;
    while 0 <= ip < |p.instructions|
      invariant Run(p, Cpu(ip, regs[..]), left) == Run(p, Start(initialReg0), fuel)
      decreases left
    {
      if left == 0 {
        return OutOfFuel(Cpu(ip, regs[..]));
      }
      var next := StepInPlace(p, ip, regs);
      if next.None? {
        return Faulted;
      }
      ip := next.value;
      left := left - 1;
    }
    return Halted(regs[..]);
  }

  /** `part1`: register 0 once the program, started with register 0 at 0,
      halts; None where parsing or a step panics or fuel runs out. */
  method Part1(lines: seq<string>, fuel: nat) returns (r: Option<int>)
    ensures r.Some? <==> ParseInput(lines).Some? && Run(ParseInput(lines).value, Start(0), fuel).Halted?
    ensures r.Some? ==> r.value == Run(ParseInput(lines).value, Start(0), fuel).regs[0]
  {
    var p := ParseInput(lines);
    if p.None? {
      return None;
    }
    var out := RunProgram(p.value, 0, fuel);
    if !out.Halted? {
      return None;
    }
    return Some(out.regs[0]);
  }

  // ---------------------------------------------------------------------
  // The sample program

  function Sample(): Program {
    Program(0, [Instruction("seti", 5, 0, 1), Instruction("seti", 6, 0, 2), Instruction("addi", 0, 1, 0),
                Instruction("addr", 1, 2, 3), Instruction("setr", 1, 0, 0), Instruction("seti", 8, 0, 4),
                Instruction("seti", 9, 0, 5)])
  }

  function SampleText(): seq<string> {
    ["#ip 0", "seti 5 0 1", "seti 6 0 2", "addi 0 1 0", "addr 1 2 3", "setr 1 0 0", "seti 8 0 4", "seti 9 0 5"]
  }

  /** A line whose three operands are single digits. */
  lemma ShowDigitLine(inst: Instruction)
    requires 0 <= inst.a < 10 && 0 <= inst.b < 10 && 0 <= inst.c < 10
    ensures ShowLine(inst) == inst.opcode + [' ', DigitChar(inst.a), ' ', DigitChar(inst.b), ' ', DigitChar(inst.c)]
  {
    var a, b, c := ShowInt(inst.a), ShowInt(inst.b), ShowInt(inst.c);
    assert a == [DigitChar(inst.a)] && b == [DigitChar(inst.b)] && c == [DigitChar(inst.c)];
    var w3, w2, w1 := [c], [b, c], [a, b, c];
    var ws := [inst.opcode, a, b, c];
    assert JoinSpaces(w3) == c;
    assert JoinSpaces(w2) == b + " " + c by { assert w2[1..] == w3; }
    assert JoinSpaces(w1) == a + " " + (b + " " + c) by { assert w1[1..] == w2; }
    assert JoinSpaces(ws) == inst.opcode + " " + (a + " " + (b + " " + c)) by { assert ws[1..] == w1; }
  }

  lemma SampleLine(i: nat)
    requires i < 7
    ensures ShowLine(Sample().instructions[i]) == SampleText()[i + 1]
  {
    var inst := Sample().instructions[i];
    ShowDigitLine(inst);
    assert DigitChar(0) == '0' && DigitChar(1) == '1' && DigitChar(2) == '2' && DigitChar(3) == '3';
    assert DigitChar(4) == '4' && DigitChar(5) == '5' && DigitChar(6) == '6';
    assert DigitChar(8) == '8' && DigitChar(9) == '9';
  }

  lemma SampleShown()
    ensures ShowProgram(Sample()) == SampleText()
  {
    var ls := Sample().instructions;
    var shown := ShowProgram(Sample());
    assert |shown| == 8;
    assert shown[0] == "#ip 0" by { assert ShowNat(0) == "0"; }
    forall i | 1 <= i < 8
      ensures shown[i] == SampleText()[i]
    {
      ShowLinesAt(ls, i - 1);
      SampleLine(i - 1);
    }
  }

  lemma SampleWritable(i: nat)
    requires i < 7
    ensures Writable(Sample().instructions[i])
  {
    var w := Sample().instructions[i].opcode;
    assert |w| == 4;
    assert forall k :: 0 <= k < 4 ==> 'a' <= w[k] <= 'z';
  }

  /** The sample text parses to the sample program. */
  lemma SampleParses()
    ensures ParseInput(SampleText()) == Some(Sample())
  {
    var p, text := Sample(), SampleText();
    forall i | 0 <= i < |p.instructions|
      ensures Writable(p.instructions[i])
    {
      SampleWritable(i);
    }
    ParseShowProgram(p);
    SampleShown();
    assert ShowProgram(p) == text;
  }

  /** The sample run, step by step: five steps, and register 0 ends at 6. */
  lemma SampleStep1()
    ensures Step(Sample(), Start(0)) == Some(Cpu(1, [0, 5, 0, 0, 0, 0]))
  {
    var inst := Sample().instructions[0];
    assert inst == Instruction("seti", 5, 0, 1);
    NamesRoundTrip(Seti);
    assert OpNamed(inst.opcode) == Some(Seti);
    assert Start(0).regs[0 := 0] == [0, 0, 0, 0, 0, 0];
    assert Apply(Seti, [0, 0, 0, 0, 0, 0], inst.a, inst.b, inst.c) == [0, 5, 0, 0, 0, 0];
    assert Exec(inst, [0, 0, 0, 0, 0, 0]) == Some([0, 5, 0, 0, 0, 0]);
  }

  lemma SampleStep2()
    ensures Step(Sample(), Cpu(1, [0, 5, 0, 0, 0, 0])) == Some(Cpu(2, [1, 5, 6, 0, 0, 0]))
  {
    var inst := Sample().instructions[1];
    assert inst == Instruction("seti", 6, 0, 2);
    NamesRoundTrip(Seti);
    assert OpNamed(inst.opcode) == Some(Seti);
    assert [0, 5, 0, 0, 0, 0][0 := 1] == [1, 5, 0, 0, 0, 0];
    assert Apply(Seti, [1, 5, 0, 0, 0, 0], 6, 0, 2) == [1, 5, 6, 0, 0, 0];
    assert Exec(inst, [1, 5, 0, 0, 0, 0]) == Some([1, 5, 6, 0, 0, 0]);
  }

  lemma SampleStep3()
    ensures Step(Sample(), Cpu(2, [1, 5, 6, 0, 0, 0])) == Some(Cpu(4, [3, 5, 6, 0, 0, 0]))
  {
    var inst := Sample().instructions[2];
    assert inst == Instruction("addi", 0, 1, 0);
    NamesRoundTrip(Addi);
    assert OpNamed(inst.opcode) == Some(Addi);
    assert [1, 5, 6, 0, 0, 0][0 := 2] == [2, 5, 6, 0, 0, 0];
    assert Apply(Addi, [2, 5, 6, 0, 0, 0], inst.a, inst.b, inst.c) == [3, 5, 6, 0, 0, 0];
    assert Exec(inst, [2, 5, 6, 0, 0, 0]) == Some([3, 5, 6, 0, 0, 0]);
  }

  lemma SampleStep4()
    ensures Step(Sample(), Cpu(4, [3, 5, 6, 0, 0, 0])) == Some(Cpu(6, [5, 5, 6, 0, 0, 0]))
  {
    var inst := Sample().instructions[4];
    assert inst == Instruction("setr", 1, 0, 0);
    NamesRoundTrip(Setr);
    assert OpNamed(inst.opcode) == Some(Setr);
    assert [3, 5, 6, 0, 0, 0][0 := 4] == [4, 5, 6, 0, 0, 0];
    assert Apply(Setr, [4, 5, 6, 0, 0, 0], inst.a, inst.b, inst.c) == [5, 5, 6, 0, 0, 0];
    assert Exec(inst, [4, 5, 6, 0, 0, 0]) == Some([5, 5, 6, 0, 0, 0]);
  }

  lemma SampleStep5()
    ensures Step(Sample(), Cpu(6, [5, 5, 6, 0, 0, 0])) == Some(Cpu(7, [6, 5, 6, 0, 0, 9]))
  {
    var inst := Sample().instructions[6];
    assert inst == Instruction("seti", 9, 0, 5);
    NamesRoundTrip(Seti);
    assert OpNamed(inst.opcode) == Some(Seti);
    assert [5, 5, 6, 0, 0, 0][0 := 6] == [6, 5, 6, 0, 0, 0];
    assert Apply(Seti, [6, 5, 6, 0, 0, 0], inst.a, inst.b, inst.c) == [6, 5, 6, 0, 0, 9];
    assert Exec(inst, [6, 5, 6, 0, 0, 0]) == Some([6, 5, 6, 0, 0, 9]);
  }

  lemma SampleHalts(fuel: nat)
    requires fuel >= 5
    ensures Run(Sample(), Start(0), fuel) == Halted([6, 5, 6, 0, 0, 9])
  {
    var p := Sample();
    var f1, f2, f3, f4, f5 := fuel - 1, fuel - 2, fuel - 3, fuel - 4, fuel - 5;
    SampleStep1();
    RunOnce(p, Start(0), f1);
    SampleStep2();
    RunOnce(p, Cpu(1, [0, 5, 0, 0, 0, 0]), f2);
    SampleStep3();
    RunOnce(p, Cpu(2, [1, 5, 6, 0, 0, 0]), f3);
    SampleStep4();
    RunOnce(p, Cpu(4, [3, 5, 6, 0, 0, 0]), f4);
    SampleStep5();
    RunOnce(p, Cpu(6, [5, 5, 6, 0, 0, 0]), f5);
  }

  // ---------------------------------------------------------------------
  // sum_of_divisors

  predicate Divides(d: int, n: int)
    requires d > 0
  {
    n % d == 0
  }

  /** The sum of the divisors of n among 1..=k. */
  function DivisorSum(n: int, k: int): int
    decreases k
  {
    if k < 1 then 0 else DivisorSum(n, k - 1) + (if Divides(k, n) then k else 0)
  }

  /** `sum_of_divisors`: adds each i in 1..=n that divides n. */
  method SumOfDivisors(n: int) returns (sum: int)
    ensures sum == DivisorSum(n, n)
  {
    sum := 0;
    var i := 1;
    while i <= n
      invariant 1 <= i <= if n >= 1 then n + 1 else 1
      invariant sum == DivisorSum(n, i - 1)
    {
      if n % i == 0 {
        sum := sum + i;
      }
      i := i + 1;
    }
  }

  predicate IsPrime(n: int) {
    n >= 2 && forall d :: 2 <= d < n ==> !Divides(d, n)
  }

  /** With no divisor among 2..=k, the sum up to k is just 1. */
  lemma {:induction false} OnlyOne(n: int, k: int)
    requires k >= 1
    requires forall d :: 2 <= d <= k ==> !Divides(d, n)
    ensures DivisorSum(n, k) == 1
    decreases k
  {
    if k > 1 {
      OnlyOne(n, k - 1);
    }
  }

  /** Each divisor up to k adds at least itself; 1 always divides. */
  lemma {:induction false} DivisorCounted(n: int, k: int, d: int)
    requires 1 < d <= k && Divides(d, n)
    ensures DivisorSum(n, k) >= 1 + d
    decreases k
  {
    if k > d {
      DivisorCounted(n, k - 1, d);
      AtLeastOne(n, k - 1);
    } else {
      AtLeastOne(n, k - 1);
    }
  }

  lemma {:induction false} AtLeastOne(n: int, k: int)
    requires k >= 1
    ensures DivisorSum(n, k) >= 1
    decreases k
  {
    if k > 1 {
      AtLeastOne(n, k - 1);
    }
  }

  lemma {:induction false} Nonneg(n: int, k: int)
    ensures DivisorSum(n, k) >= 0
    decreases k
  {
    if k >= 1 {
      Nonneg(n, k - 1);
    }
  }

  /** For n >= 2 the divisor sum is n + 1 exactly when n is prime, and more
      otherwise; it is 1 for n = 1 and 0 for n <= 0. */
  lemma DivisorSumPrime(n: int)
    ensures n <= 0 ==> DivisorSum(n, n) == 0
    ensures n == 1 ==> DivisorSum(n, n) == 1
    ensures n >= 2 ==> (DivisorSum(n, n) == n + 1 <==> IsPrime(n))
    ensures n >= 2 ==> DivisorSum(n, n) >= n + 1
  {
    if n >= 2 {
      assert DivisorSum(n, n) == DivisorSum(n, n - 1) + n by {
        assert Divides(n, n);
      }
      if IsPrime(n) {
        OnlyOne(n, n - 1);
      } else {
        var d :| 2 <= d < n && Divides(d, n);
        DivisorCounted(n, n - 1, d);
      }
      AtLeastOne(n, n - 1);
    }
  }

  // ---------------------------------------------------------------------
  // part2

  /** The set-up loop of `part2`: at most 100 steps, and it stops early when
      the next ip is 1 after more than 50; None where a step panics. */
  function WarmUp(p: Program, s: Cpu, iterations: nat): Option<Cpu>
    decreases 100 - iterations
  {
    if !Running(p, s) || iterations >= 100 then Some(s)
    else
      match Step(p, s)
      case None => None
      case Some(t) =>
        if t.ip == 1 && iterations + 1 > 50 then Some(t) else WarmUp(p, t, iterations + 1)
  }

  /** The number of steps WarmUp takes. */
  function WarmUpSteps(p: Program, s: Cpu, iterations: nat): nat
    decreases 100 - iterations
  {
    if !Running(p, s) || iterations >= 100 then 0
    else
      match Step(p, s)
      case None => 1
      case Some(t) =>
        if t.ip == 1 && iterations + 1 > 50 then 1 else 1 + WarmUpSteps(p, t, iterations + 1)
  }

  /** The set-up is the start of the full run: it takes at most 100 - iterations
      steps, and running that many steps reaches the same state (or the same
      panic). */
  lemma {:induction false} WarmUpIsRunPrefix(p: Program, s: Cpu, iterations: nat)
    ensures iterations <= 100 ==> WarmUpSteps(p, s, iterations) <= 100 - iterations
    ensures Run(p, s, WarmUpSteps(p, s, iterations)) ==
              match WarmUp(p, s, iterations)
              case None => Faulted
              case Some(t) => Run(p, t, 0)
    decreases 100 - iterations
  {
    if Running(p, s) && iterations < 100 {
      match Step(p, s)
      case None =>
      case Some(t) =>
        if !(t.ip == 1 && iterations + 1 > 50) {
          WarmUpIsRunPrefix(p, t, iterations + 1);
        }
    }
  }

  /** `part2`: run the set-up from register 0 = 1, then the divisor sum of
      register 1; None where parsing or a step panics. */
  method Part2(lines: seq<string>) returns (r: Option<int>)
    ensures ParseInput(lines).None? ==> r.None?
    ensures ParseInput(lines).Some? ==>
              r == match WarmUp(ParseInput(lines).value, Start(1), 0)
                   case None => None
                   case Some(t) => if |t.regs| == 6 then Some(DivisorSum(t.regs[1], t.regs[1])) else None
  {
    var parsed := ParseInput(lines);
    if parsed.None? {
      return None;
    }
    var p := parsed.value;
    var regs := new int[6](i => 0);
    regs[0] := 1;
    assert regs[..] == Start(1).regs;
    var ip := 0;
    var iterations := 0;
    while 0 <= ip < |p.instructions| && iterations < 100
      invariant iterations <= 100 && regs.Length == 6
      invariant WarmUp(p, Cpu(ip, regs[..]), iterations) == WarmUp(p, Start(1), 0)
      decreases 100 - iterations
    {
      var next := StepInPlace(p, ip, regs);
      if next.None? {
        return None;
      }
      ip := next.value;
      iterations := iterations + 1;
      if ip == 1 && iterations > 50 {
        break;
      }
    }
    var sum := SumOfDivisors(regs[1]);
    return Some(sum);
  }
}
