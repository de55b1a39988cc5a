/** The classic BPF machine, for the instructions a packet scope filter uses. */
module Bpf {
  import opened Bytes

  const WORD := 0x1_0000_0000

  datatype Insn = Insn(code: nat, jt: Byte, jf: Byte, k: nat)

  datatype Machine = Machine(pc: nat, a: nat, x: nat)

  datatype Progress = Return(verdict: nat) | Next(m: Machine)

  /** A load outside the packet ends the program with verdict 0. */
  function Load(m: Machine, p: seq<Byte>, at: nat, width: nat): Progress
    requires width == 1 || width == 2 || width == 4
  {
    if at + width > |p| then Return(0)
    else Next(Machine(m.pc + 1, if width == 1 then p[at] else if width == 2 then U16(p, at) else U32(p, at), m.x))
  }

  function LoadWidth(code: nat): nat {
    if code == 0x30 || code == 0x50 then 1 else if code == 0x28 || code == 0x48 then 2 else 4
  }

  predicate Taken(i: Insn, m: Machine) {
    if i.code == 0x15 then m.a == i.k
    else if i.code == 0x35 then m.a >= i.k
    else if i.code == 0x3d then m.a >= m.x
    else BitAnd(m.a, i.k) != 0
  }

  /** The accumulator after an arithmetic instruction, on unsigned 32-bit words. */
  function Arithmetic(i: Insn, m: Machine): nat {
    if i.code == 0x54 then BitAnd(m.a, i.k)
    else if i.code == 0x74 then (if i.k < 32 then ShiftRight(m.a, i.k) else 0)
    else if i.code == 0x0c then (m.a + m.x) % WORD
    else (m.a - m.x) % WORD
  }

  /** One instruction. An unknown opcode ends the program with 0. */
  function Execute(i: Insn, m: Machine, p: seq<Byte>): (r: Progress)
    ensures r.Next? ==> r.m.pc > m.pc
  {
    match i.code
    case 0x30 | 0x28 | 0x20 => Load(m, p, i.k, LoadWidth(i.code))
    case 0x50 | 0x48 | 0x40 => Load(m, p, (m.x + i.k) % WORD, LoadWidth(i.code))
    case 0x15 | 0x35 | 0x3d | 0x45 => Next(m.(pc := m.pc + 1 + if Taken(i, m) then i.jt else i.jf))
    case 0x54 | 0x74 | 0x0c | 0x1c => Next(Machine(m.pc + 1, Arithmetic(i, m), m.x))
    case 0x07 => Next(Machine(m.pc + 1, m.a, m.a))
    case 0xb1 =>
      if i.k >= |p| then Return(0)
      else Next(Machine(m.pc + 1, m.a, 4 * BitAnd(p[i.k], 0x0f)))
    case 0x06 => Return(i.k)
    case _ => Return(0)
  }

  function ShiftRight(a: nat, k: nat): nat {
    if k == 0 then a else ShiftRight(a / 2, k - 1)
  }

  /** Jumps only go forward, so every program ends; running off its end gives 0. */
  function Run(prog: seq<Insn>, m: Machine, p: seq<Byte>): nat
    decreases |prog| - m.pc
  {
    if m.pc >= |prog| then 0 else
      match Execute(prog[m.pc], m, p)
      case Return(v) => v
      case Next(n) => Run(prog, n, p)
  }

  /** One step of a run. */
  lemma Steps(prog: seq<Insn>, m: Machine, n: Machine, p: seq<Byte>)
    requires m.pc < |prog| && Execute(prog[m.pc], m, p) == Next(n)
    ensures Run(prog, m, p) == Run(prog, n, p)
  {
  }

  /** The last step of a run. */
  lemma Stops(prog: seq<Insn>, m: Machine, verdict: nat, p: seq<Byte>)
    requires m.pc < |prog| && Execute(prog[m.pc], m, p) == Return(verdict)
    ensures Run(prog, m, p) == verdict
  {
  }

  predicate IsJump(i: Insn) {
    i.code in {0x15, 0x35, 0x3d, 0x45}
  }

  /** No reachable fall off the end: every jump lands inside and the last instruction returns. */
  predicate WellFormed(prog: seq<Insn>) {
    && 0 < |prog| <= 255
    && prog[|prog| - 1].code == 0x06
    && forall i :: 0 <= i < |prog| && IsJump(prog[i]) ==> i + 1 + prog[i].jt < |prog| && i + 1 + prog[i].jf < |prog|
  }

  /** code sits in prog from index base on. */
  predicate Holds(prog: seq<Insn>, base: nat, code: seq<Insn>) {
    base + |code| <= |prog| && prog[base..base + |code|] == code
  }

  lemma HoldsAt(prog: seq<Insn>, base: nat, code: seq<Insn>, i: nat)
    requires Holds(prog, base, code) && i < |code|
    ensures prog[base + i] == code[i]
  {
    assert prog[base..base + |code|][i] == code[i];
  }

  lemma HoldsSplit(prog: seq<Insn>, base: nat, front: seq<Insn>, back: seq<Insn>)
    requires Holds(prog, base, front + back)
    ensures Holds(prog, base, front) && Holds(prog, base + |front|, back)
  {
    var all := prog[base..base + |front| + |back|];
    assert prog[base..base + |front|] == all[..|front|] == front;
    assert prog[base + |front|..base + |front| + |back|] == all[|front|..] == back;
  }
}
