/** The `#ip` machine of days 19 and 21 (rust/src/day19.rs,
    rust/src/day21.rs): a program text "#ip N" followed by one instruction
    per line, run on six registers, register N holding the address of
    the next instruction. */
module ElfCode {

  import opened Wrappers
  import opened Machine
  import opened Tokens

  /** An instruction as parsed: the opcode stays a name until it runs. */
  datatype Instruction = Instruction(opcode: string, a: int, b: int, c: int)

  datatype Program = Program(ipRegister: nat, instructions: seq<Instruction>)

  // ---------------------------------------------------------------------
  // parse_input

  /** One instruction line: its first word and the next three as i64; words
      after the fourth are ignored, and anything less is a panic. */
  function ParseLine(line: string): (r: Option<Instruction>)
    ensures r.Some? ==> IsWord(r.value.opcode)
    ensures r.Some? ==> I64_MIN <= r.value.a <= I64_MAX && I64_MIN <= r.value.b <= I64_MAX
                        && I64_MIN <= r.value.c <= I64_MAX
  {
    var parts := SplitWhitespace(line);
    if |parts| < 4 then None
    else
      match (ParseI64(parts[1]), ParseI64(parts[2]), ParseI64(parts[3]))
      case (Some(a), Some(b), Some(c)) => Some(Instruction(parts[0], a, b, c))
      case _ => None
  }

  /** Every line as an instruction, or None if one of them panics. */
  function ParseLines(lines: seq<string>): (r: Option<seq<Instruction>>)
    ensures r.Some? ==> |r.value| == |lines|
  {
    if lines == [] then Some([])
    else
      match (ParseLine(lines[0]), ParseLines(lines[1..]))
      case (Some(inst), Some(rest)) => Some([inst] + rest)
      case _ => None
  }

  /** The lines parse exactly when each of them does, and then the i-th
      instruction is the i-th line's. */
  lemma {:induction false} ParsedLines(lines: seq<string>)
    ensures ParseLines(lines).Some? <==> forall i :: 0 <= i < |lines| ==> ParseLine(lines[i]).Some?
    ensures ParseLines(lines).Some? ==>
              forall i :: 0 <= i < |lines| ==> ParseLine(lines[i]) == Some(ParseLines(lines).value[i])
  {
    if lines != [] {
      var tail := lines[1..];
      ParsedLines(tail);
      assert forall i :: 1 <= i < |lines| ==> lines[i] == tail[i - 1];
      match (ParseLine(lines[0]), ParseLines(tail))
      case (Some(inst), Some(rest)) =>
        var all := [inst] + rest;
        assert ParseLines(lines) == Some(all);
        forall i | 0 <= i < |lines|
          ensures ParseLine(lines[i]) == Some(all[i])
        {
          if i > 0 { assert all[i] == rest[i - 1]; }
        }
      case _ =>
        assert ParseLines(lines) == None;
    }
  }

  /** The first line: "#ip " and a usize. */
  function ParseHeader(line: string): Option<nat>
  {
    if |line| >= 4 && line[..4] == "#ip " then ParseUsize(line[4..]) else None
  }

  /** `parse_input`: None where it panics (no first line, a malformed header or line). */
  function ParseInput(lines: seq<string>): (r: Option<Program>)
    ensures r.Some? ==> |lines| >= 1 && ParseHeader(lines[0]) == Some(r.value.ipRegister)
    ensures r.Some? ==> |r.value.instructions| == |lines| - 1
  {
    if lines == [] then None
    else
      match (ParseHeader(lines[0]), ParseLines(lines[1..]))
      case (Some(ip), Some(instructions)) => Some(Program(ip, instructions))
      case _ => None
  }

  /** An instruction written out as the text parse_input reads. */
  function ShowLine(inst: Instruction): string
  {
    JoinSpaces([inst.opcode, ShowInt(inst.a), ShowInt(inst.b), ShowInt(inst.c)])
  }

  function ShowLines(instructions: seq<Instruction>): (lines: seq<string>)
    ensures |lines| == |instructions|
  {
    if instructions == [] then [] else [ShowLine(instructions[0])] + ShowLines(instructions[1..])
  }

  lemma {:induction false} ShowLinesAt(instructions: seq<Instruction>, i: nat)
    requires i < |instructions|
    ensures ShowLines(instructions)[i] == ShowLine(instructions[i])
  {
    if i > 0 {
      ShowLinesAt(instructions[1..], i - 1);
    }
  }

  /** A program written out: the header and one line per instruction. */
  function ShowProgram(p: Program): seq<string>
  {
    ["#ip " + ShowNat(p.ipRegister)] + ShowLines(p.instructions)
  }

  /** The instructions a text can hold: word opcodes and 64-bit operands. */
  predicate Writable(inst: Instruction) {
    IsWord(inst.opcode)
    && I64_MIN <= inst.a <= I64_MAX && I64_MIN <= inst.b <= I64_MAX && I64_MIN <= inst.c <= I64_MAX
  }

  lemma ParseShowLine(inst: Instruction)
    requires Writable(inst)
    ensures ParseLine(ShowLine(inst)) == Some(inst)
  {
    var ws := [inst.opcode, ShowInt(inst.a), ShowInt(inst.b), ShowInt(inst.c)];
    SplitJoin(ws);
    ParseShowI64(inst.a);
    ParseShowI64(inst.b);
    ParseShowI64(inst.c);
  }

  lemma ParseShowLines(instructions: seq<Instruction>)
    requires forall i :: 0 <= i < |instructions| ==> Writable(instructions[i])
    ensures ParseLines(ShowLines(instructions)) == Some(instructions)
  {
    var lines := ShowLines(instructions);
    forall i | 0 <= i < |lines|
      ensures ParseLine(lines[i]) == Some(instructions[i])
    {
      ShowLinesAt(instructions, i);
      ParseShowLine(instructions[i]);
    }
    ParsedLines(lines);
    assert ParseLines(lines).value == instructions;
  }

  /** parse_input reads back every program it can be given as text. */
  lemma ParseShowProgram(p: Program)
    requires p.ipRegister <= U64_MAX
    requires forall i :: 0 <= i < |p.instructions| ==> Writable(p.instructions[i])
    ensures ParseInput(ShowProgram(p)) == Some(p)
  {
    var lines := ShowProgram(p);
    var header := "#ip " + ShowNat(p.ipRegister);
    assert header[..4] == "#ip " && header[4..] == ShowNat(p.ipRegister);
    ParseShowUsize(p.ipRegister);
    ParseShowLines(p.instructions);
    assert lines[1..] == ShowLines(p.instructions);
  }

  // ---------------------------------------------------------------------
  // One step of the machine

  /** The instruction address `ip` and the six registers between two steps. */
  datatype Cpu = Cpu(ip: int, regs: seq<int>)

  /** How a run ends: the instruction address left the program, an
      instruction panicked, or the step budget ran out first. */
  datatype Outcome = Halted(regs: seq<int>) | Faulted | OutOfFuel(at: Cpu)

  predicate Running(p: Program, s: Cpu) {
    0 <= s.ip < |p.instructions|
  }

  /** `execute` on a named opcode: None where it panics, on an unknown name
      or a register operand outside the register file. */
  function Exec(inst: Instruction, regs: seq<int>): (r: Option<seq<int>>)
    ensures r.Some? ==> |r.value| == |regs|
  {
    match OpNamed(inst.opcode)
    case None => None
    case Some(op) =>
      if Fits(op, inst.a, inst.b, inst.c, |regs|) then Some(Apply(op, regs, inst.a, inst.b, inst.c)) else None
  }

  /** One pass of the run loop: write ip to the bound register, execute the
      instruction at ip, and continue one past the bound register's value. */
  function Step(p: Program, s: Cpu): (r: Option<Cpu>)
    requires Running(p, s)
    ensures r.Some? ==> |r.value.regs| == |s.regs|
  {
    if p.ipRegister >= |s.regs| then None
    else
      match Exec(p.instructions[s.ip], s.regs[p.ipRegister := s.ip])
      case None => None
      case Some(regs) => Some(Cpu(regs[p.ipRegister] + 1, regs))
  }

  /** A step whose instruction runs continues one past the bound register. */
  lemma StepBy(p: Program, s: Cpu, regs: seq<int>)
    requires Running(p, s) && p.ipRegister < |s.regs|
    requires Exec(p.instructions[s.ip], s.regs[p.ipRegister := s.ip]) == Some(regs)
    ensures Step(p, s) == Some(Cpu(regs[p.ipRegister] + 1, regs))
  {
  }

  /** A step panics exactly when the bound register, the opcode name or a
      register operand is out of range; otherwise it writes register c and
      the bound register and no other, and continues one past the bound
      register. */
  lemma StepWrites(p: Program, s: Cpu)
    requires Running(p, s)
    ensures var inst := p.instructions[s.ip];
            Step(p, s).None? <==>
              p.ipRegister >= |s.regs| || OpNamed(inst.opcode).None?
              || !Fits(OpNamed(inst.opcode).value, inst.a, inst.b, inst.c, |s.regs|)
    ensures Step(p, s).Some? ==>
              var inst, t := p.instructions[s.ip], Step(p, s).value;
              var bound := s.regs[p.ipRegister := s.ip];
              && t.ip == t.regs[p.ipRegister] + 1
              && t.regs[inst.c] == Value(OpNamed(inst.opcode).value, bound, inst.a, inst.b)
              && forall k :: 0 <= k < |s.regs| && k != inst.c && k != p.ipRegister ==> t.regs[k] == s.regs[k]
  {
  }

  /** The run loop for at most fuel steps. */
  function Run(p: Program, s: Cpu, fuel: nat): (out: Outcome)
    ensures out.Halted? ==> |out.regs| == |s.regs|
    decreases fuel
  {
    if !Running(p, s) then Halted(s.regs)
    else if fuel == 0 then OutOfFuel(s)
    else
      match Step(p, s)
      case None => Faulted
      case Some(t) => Run(p, t, fuel - 1)
  }

  /** A run that can take a step takes it. */
  lemma RunOnce(p: Program, s: Cpu, rest: nat)
    requires Running(p, s) && Step(p, s).Some?
    ensures Run(p, s, rest + 1) == Run(p, Step(p, s).value, rest)
  {
  }

  /** One step of a run: a panic ends it, otherwise it goes on from the
      next state. */
  lemma RunStep(p: Program, s: Cpu, rest: nat)
    requires Running(p, s)
    ensures Run(p, s, rest + 1) == match Step(p, s)
                                   case None => Faulted
                                   case Some(t) => Run(p, t, rest)
  {
  }

  /** Running f + g steps is running f steps and, if the budget ran out,
      g more from where it stopped; a halt or a panic is final. */
  lemma {:induction false} RunSplit(p: Program, s: Cpu, f: nat, g: nat)
    ensures Run(p, s, f + g) == match Run(p, s, f)
                                case OutOfFuel(t) => Run(p, t, g)
                                case other => other
    decreases f
  {
    if Running(p, s) && f > 0 {
      var rest := f - 1;
      assert rest + g + 1 == f + g;
      RunStep(p, s, rest + g);
      RunStep(p, s, rest);
      if Step(p, s).Some? {
        RunSplit(p, Step(p, s).value, rest, g);
      }
    }
  }

  /** The registers at the start: register 0 as given, the others zero. */
  function Start(reg0: int): (s: Cpu)
    ensures |s.regs| == 6
  {
    Cpu(0, [reg0, 0, 0, 0, 0, 0])
  }

  /** `execute` on the register array, or false where it would panic. */
  method ExecuteNamed(inst: Instruction, regs: array<int>) returns (ok: bool)
    modifies regs
    ensures ok <==> Exec(inst, old(regs[..])).Some?
    ensures regs[..] == if ok then Exec(inst, old(regs[..])).value else old(regs[..])
  {
    var op := OpNamed(inst.opcode);
    if op.None? || !Fits(op.value, inst.a, inst.b, inst.c, regs.Length) {
      return false;
    }
    Execute(op.value, regs, inst.a, inst.b, inst.c);
    return true;
  }

  /** One pass of the run loop on the register array: the next instruction
      address, or None where the step panics. */
  method StepInPlace(p: Program, ip: int, regs: array<int>) returns (next: Option<int>)
    requires 0 <= ip < |p.instructions|
    modifies regs
    ensures Step(p, Cpu(ip, old(regs[..]))) == if next.Some? then Some(Cpu(next.value, regs[..])) else None
  {
    if p.ipRegister >= regs.Length {
      return None;
    }
    regs[p.ipRegister] := ip;
    assert regs[..] == old(regs[..])[p.ipRegister := ip];
    var ok := ExecuteNamed(p.instructions[ip], regs);
    if !ok {
      return None;
    }
    next := Some(regs[p.ipRegister] + 1);
  }
}
