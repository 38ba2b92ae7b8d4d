// The sixteen register-machine opcodes shared by days 16, 19 and 21: each
// reads one or two operands, registers or immediates, and writes one
// register. The register file is an array; a register operand outside it is
// the index panic of the Rust solvers.

module Machine {
  import opened Wrappers

  datatype Op =
    | Addr | Addi | Mulr | Muli | Banr | Bani | Borr | Bori
    | Setr | Seti | Gtir | Gtri | Gtrr | Eqir | Eqri | Eqrr

  /** get_all_opcodes: the sixteen opcodes, in the order the solvers list them. */
  function AllOps(): (r: seq<Op>)
    ensures |r| == 16
    ensures forall j, k :: 0 <= j < k < |r| ==> r[j] != r[k]
  {
    [Addr, Addi, Mulr, Muli, Banr, Bani, Borr, Bori, Setr, Seti, Gtir, Gtri, Gtrr, Eqir, Eqri, Eqrr]
  }

  /** Every opcode is listed. */
  lemma AllOpsComplete(op: Op)
    ensures op in AllOps()
  {
    var all := AllOps();
    match op
    case Addr => assert all[0] == op; case Addi => assert all[1] == op;
    case Mulr => assert all[2] == op; case Muli => assert all[3] == op;
    case Banr => assert all[4] == op; case Bani => assert all[5] == op;
    case Borr => assert all[6] == op; case Bori => assert all[7] == op;
    case Setr => assert all[8] == op; case Seti => assert all[9] == op;
    case Gtir => assert all[10] == op; case Gtri => assert all[11] == op;
    case Gtrr => assert all[12] == op; case Eqir => assert all[13] == op;
    case Eqri => assert all[14] == op; case Eqrr => assert all[15] == op;
  }

  /** The mnemonic of an opcode. */
  function Name(op: Op): string
  {
    match op
    case Addr => "addr" case Addi => "addi" case Mulr => "mulr" case Muli => "muli"
    case Banr => "banr" case Bani => "bani" case Borr => "borr" case Bori => "bori"
    case Setr => "setr" case Seti => "seti" case Gtir => "gtir" case Gtri => "gtri"
    case Gtrr => "gtrr" case Eqir => "eqir" case Eqri => "eqri" case Eqrr => "eqrr"
  }

  /** The opcode a mnemonic names; None for any other string, where execute
      panics. The four letters are compared one by one. */
  function OpNamed(s: string): (r: Option<Op>)
    ensures r.Some? ==> Name(r.value) == s
  {
    if |s| != 4 then None
    else
      match (s[0], s[1], s[2], s[3])
      case ('a', 'd', 'd', 'r') => Some(Addr)
      case ('a', 'd', 'd', 'i') => Some(Addi)
      case ('m', 'u', 'l', 'r') => Some(Mulr)
      case ('m', 'u', 'l', 'i') => Some(Muli)
      case ('b', 'a', 'n', 'r') => Some(Banr)
      case ('b', 'a', 'n', 'i') => Some(Bani)
      case ('b', 'o', 'r', 'r') => Some(Borr)
      case ('b', 'o', 'r', 'i') => Some(Bori)
      case ('s', 'e', 't', 'r') => Some(Setr)
      case ('s', 'e', 't', 'i') => Some(Seti)
      case ('g', 't', 'i', 'r') => Some(Gtir)
      case ('g', 't', 'r', 'i') => Some(Gtri)
      case ('g', 't', 'r', 'r') => Some(Gtrr)
      case ('e', 'q', 'i', 'r') => Some(Eqir)
      case ('e', 'q', 'r', 'i') => Some(Eqri)
      case ('e', 'q', 'r', 'r') => Some(Eqrr)
      case _ => None
  }

  /** Every mnemonic names its opcode, so the sixteen names are distinct. */
  lemma NamesRoundTrip(op: Op)
    ensures OpNamed(Name(op)) == Some(op)
  {
    match op
    case Addr => case Addi => case Mulr => case Muli =>
    case Banr => case Bani => case Borr => case Bori =>
    case Setr => case Seti => case Gtir => case Gtri =>
    case Gtrr => case Eqir => case Eqri => case Eqrr =>
  }

  // ---------------------------------------------------------------------
  // Bitwise and / or on two's-complement integers

  /** A measure that halving shrinks, for every integer but 0 and -1. */
  function Size(x: int): nat
  {
    if x >= 0 then x else -x - 1
  }

  /** Bit i of x in two's complement: 1 for every high bit of a negative number. */
  function Bit(x: int, i: nat): (r: int)
    ensures r == 0 || r == 1
    decreases i
  {
    if i == 0 then x % 2 else Bit(x / 2, i - 1)
  }

  /** `&` on integers, bit by bit. */
  function And(x: int, y: int): int
    decreases Size(x) + Size(y)
  {
    if (x == 0 || x == -1) && (y == 0 || y == -1) then (if x == -1 && y == -1 then -1 else 0)
    else 2 * And(x / 2, y / 2) + (if x % 2 == 1 && y % 2 == 1 then 1 else 0)
  }

  /** `|` on integers, bit by bit. */
  function Or(x: int, y: int): int
    decreases Size(x) + Size(y)
  {
    if (x == 0 || x == -1) && (y == 0 || y == -1) then (if x == -1 || y == -1 then -1 else 0)
    else 2 * Or(x / 2, y / 2) + (if x % 2 == 1 || y % 2 == 1 then 1 else 0)
  }

  /** 0 has no bit set and -1 has every bit set. */
  lemma {:induction false} BitOfEnds(i: nat)
    ensures Bit(0, i) == 0 && Bit(-1, i) == 1
  {
    if i > 0 {
      BitOfEnds(i - 1);
    }
  }

  /** Twice q plus a low bit r has bit 0 equal to r and its higher bits from q. */
  lemma BitOfDouble(q: int, r: int, i: nat)
    requires r == 0 || r == 1
    ensures Bit(2 * q + r, i) == if i == 0 then r else Bit(q, i - 1)
  {
    assert (2 * q + r) / 2 == q && (2 * q + r) % 2 == r;
  }

  /** Each bit of And(x, y) is set iff it is set in both x and y. */
  lemma {:induction false} AndBit(x: int, y: int, i: nat)
    ensures Bit(And(x, y), i) == if Bit(x, i) == 1 && Bit(y, i) == 1 then 1 else 0
    decreases Size(x) + Size(y)
  {
    if (x == 0 || x == -1) && (y == 0 || y == -1) {
      BitOfEnds(i);
    } else {
      BitOfDouble(And(x / 2, y / 2), if x % 2 == 1 && y % 2 == 1 then 1 else 0, i);
      if i > 0 {
        AndBit(x / 2, y / 2, i - 1);
      }
    }
  }

  /** Each bit of Or(x, y) is set iff it is set in x or in y. */
  lemma {:induction false} OrBit(x: int, y: int, i: nat)
    ensures Bit(Or(x, y), i) == if Bit(x, i) == 1 || Bit(y, i) == 1 then 1 else 0
    decreases Size(x) + Size(y)
  {
    if (x == 0 || x == -1) && (y == 0 || y == -1) {
      BitOfEnds(i);
    } else {
      BitOfDouble(Or(x / 2, y / 2), if x % 2 == 1 || y % 2 == 1 then 1 else 0, i);
      if i > 0 {
        OrBit(x / 2, y / 2, i - 1);
      }
    }
  }

  /** On non-negative operands, `&` is non-negative and at most either operand. */
  lemma {:induction false} AndBounds(x: int, y: int)
    requires x >= 0 && y >= 0
    ensures 0 <= And(x, y) <= x && And(x, y) <= y
    decreases x + y
  {
    if !((x == 0 || x == -1) && (y == 0 || y == -1)) {
      AndBounds(x / 2, y / 2);
    }
  }

  /** On non-negative operands, `|` is at least either operand and at most their sum. */
  lemma {:induction false} OrBounds(x: int, y: int)
    requires x >= 0 && y >= 0
    ensures x <= Or(x, y) && y <= Or(x, y) <= x + y
    decreases x + y
  {
    if !((x == 0 || x == -1) && (y == 0 || y == -1)) {
      OrBounds(x / 2, y / 2);
    }
  }

  // ---------------------------------------------------------------------
  // execute

  /** Whether the opcode reads register a. */
  predicate ReadsA(op: Op)
  {
    !(op.Seti? || op.Gtir? || op.Eqir?)
  }

  /** Whether the opcode reads register b. */
  predicate ReadsB(op: Op)
  {
    op.Addr? || op.Mulr? || op.Banr? || op.Borr? || op.Gtir? || op.Gtrr? || op.Eqir? || op.Eqrr?
  }

  /** Every register operand of the instruction names one of the n registers; otherwise execute panics. */
  predicate Fits(op: Op, a: int, b: int, c: int, n: int)
  {
    0 <= c < n && (ReadsA(op) ==> 0 <= a < n) && (ReadsB(op) ==> 0 <= b < n)
  }

  /** The value execute writes to register c. */
  function Value(op: Op, regs: seq<int>, a: int, b: int): int
    requires Fits(op, a, b, 0, |regs|)
  {
    match op
    case Addr => regs[a] + regs[b]
    case Addi => regs[a] + b
    case Mulr => regs[a] * regs[b]
    case Muli => regs[a] * b
    case Banr => And(regs[a], regs[b])
    case Bani => And(regs[a], b)
    case Borr => Or(regs[a], regs[b])
    case Bori => Or(regs[a], b)
    case Setr => regs[a]
    case Seti => a
    case Gtir => if a > regs[b] then 1 else 0
    case Gtri => if regs[a] > b then 1 else 0
    case Gtrr => if regs[a] > regs[b] then 1 else 0
    case Eqir => if a == regs[b] then 1 else 0
    case Eqri => if regs[a] == b then 1 else 0
    case Eqrr => if regs[a] == regs[b] then 1 else 0
  }

  /** The value depends on no register but the ones the opcode reads. */
  lemma ValueReadsOperands(op: Op, regs: seq<int>, regs': seq<int>, a: int, b: int)
    requires Fits(op, a, b, 0, |regs|) && Fits(op, a, b, 0, |regs'|)
    requires ReadsA(op) ==> regs[a] == regs'[a]
    requires ReadsB(op) ==> regs[b] == regs'[b]
    ensures Value(op, regs, a, b) == Value(op, regs', a, b)
  {
  }

  /** A comparison writes 1 when it holds and 0 otherwise; setr copies, seti stores the immediate. */
  lemma ValueKinds(op: Op, regs: seq<int>, a: int, b: int)
    requires Fits(op, a, b, 0, |regs|)
    ensures op.Gtir? || op.Gtri? || op.Gtrr? || op.Eqir? || op.Eqri? || op.Eqrr? ==>
              Value(op, regs, a, b) == 0 || Value(op, regs, a, b) == 1
    ensures op.Eqrr? ==> (Value(op, regs, a, b) == 1 <==> regs[a] == regs[b])
    ensures op.Gtrr? ==> (Value(op, regs, a, b) == 1 <==> regs[a] > regs[b])
    ensures op.Setr? ==> Value(op, regs, a, b) == regs[a]
    ensures op.Seti? ==> Value(op, regs, a, b) == a
  {
  }

  /** The registers after the instruction: register c holds the value, and no other register changes. */
  function Apply(op: Op, regs: seq<int>, a: int, b: int, c: int): (r: seq<int>)
    requires Fits(op, a, b, c, |regs|)
    ensures |r| == |regs| && r[c] == Value(op, regs, a, b)
    ensures forall k :: 0 <= k < |r| && k != c ==> r[k] == regs[k]
  {
    regs[c := Value(op, regs, a, b)]
  }

  /** execute: writes register c of the register array in place. */
  method Execute(op: Op, regs: array<int>, a: int, b: int, c: int)
    requires Fits(op, a, b, c, regs.Length)
    modifies regs
    ensures regs[..] == Apply(op, old(regs[..]), a, b, c)
  {
    match op
    case Addr => regs[c] := regs[a] + regs[b];
    case Addi => regs[c] := regs[a] + b;
    case Mulr => regs[c] := regs[a] * regs[b];
    case Muli => regs[c] := regs[a] * b;
    case Banr => regs[c] := And(regs[a], regs[b]);
    case Bani => regs[c] := And(regs[a], b);
    case Borr => regs[c] := Or(regs[a], regs[b]);
    case Bori => regs[c] := Or(regs[a], b);
    case Setr => regs[c] := regs[a];
    case Seti => regs[c] := a;
    case Gtir => regs[c] := if a > regs[b] then 1 else 0;
    case Gtri => regs[c] := if regs[a] > b then 1 else 0;
    case Gtrr => regs[c] := if regs[a] > regs[b] then 1 else 0;
    case Eqir => regs[c] := if a == regs[b] then 1 else 0;
    case Eqri => regs[c] := if regs[a] == b then 1 else 0;
    case Eqrr => regs[c] := if regs[a] == regs[b] then 1 else 0;
  }
}
