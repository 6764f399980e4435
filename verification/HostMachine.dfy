/**
 The host processor that runs generated handlers: general registers, vector registers,
 word-addressed private memory (stack, CPU state, instruction chain) and the guest heap.
 One machine serves both back ends, since the emitted lines differ only in widths and operands.
 */
module HostMachine {
  import opened Words

  // A 64-bit word. Every computed word is reduced modulo 2^64 by Wrap, and addresses are required
  // to be in range where they are used.
  type Word = int

  // The numbering of `enum class Register` in include/Register.h. AArch64 and x86-64 share values.
  type Register = int

  const SP: Register := 33

  datatype Vec = Vec(lo: Word, hi: Word)

  // Maps are held through a type parameter, which keeps datatype values cheap to reason about.
  datatype Cell<T> = Cell(get: T)

  // A register file; a register that was never written reads as zero.
  datatype File = File(gpr: Cell<map<Register, Word>>, vec: Cell<map<Register, Vec>>) {
    function G(r: Register): Word { if r in gpr.get then gpr.get[r] else 0 }
    function V(r: Register): Vec { if r in vec.get then vec.get[r] else Vec(0, 0) }
    function SetG(r: Register, w: Word): File { this.(gpr := Cell(gpr.get[r := w])) }
    function SetV(r: Register, v: Vec): File { this.(vec := Cell(vec.get[r := v])) }
  }

  type Memory = map<int, Word>
  type Heap = map<int, int>

  // What the raw opcode bytes do when the processor reaches them.
  datatype OutcomeOf<H> = Outcome(file: File, heap: H)
  type Outcome = OutcomeOf<Heap>
  type Effect = (File, Heap) -> Outcome

  datatype MachineOf<M, H> = Machine(file: File, mem: M, heap: H, jump: Option<Word>)
  type Machine = MachineOf<Memory, Heap>

  // One emitted assembly line.
  datatype Insn =
    | Push(r: Register, bytes: nat)       // str xN, [sp, #-0x10]!   or   push %r
    | Pop(r: Register, bytes: nat)        // ldr xN, [sp], #0x10     or   pop %r
    | PushLow(r: Register)                // str dN, [sp, #-0x10]!
    | PopLow(r: Register)                 // ldr dN, [sp], #0x10
    | Mov(dst: Register, src: Register)
    | Load(dst: Register, base: Register, off: int)
    | Store(src: Register, base: Register, off: int)
    | LoadVec(dst: Register, base: Register, off: int)
    | StoreVec(src: Register, base: Register, off: int)
    | AddImm(dst: Register, imm: int)
    | Ubfx59(dst: Register)               // ubfx x, x, #0, #59
    | Shl5(dst: Register)
    | Shr5(dst: Register)
    | Raw(code: seq<int>)                 // the .byte lines of emit_opcode
    | Jump(r: Register)

  // Reduction modulo 2^64; the first branch is the common case of no wrap-around.
  function Wrap(x: int): Word {
    if 0 <= x < TWO64 then x else x % TWO64
  }

  function Put(mem: Memory, a: int, w: Word): Memory { mem[a := w] }

  function PutPair(mem: Memory, a: int, v: Vec): Memory { mem[a := v.lo][a + 8 := v.hi] }

  // The address a memory line uses: pushes write below the stack pointer.
  function Target(i: Insn, f: File): int {
    match i
    case Push(_, n) => Wrap(f.G(SP) - n)
    case PushLow(_) => Wrap(f.G(SP) - 16)
    case Pop(_, _) => f.G(SP)
    case PopLow(_) => f.G(SP)
    case Load(_, b, off) => Wrap(f.G(b) + off)
    case Store(_, b, off) => Wrap(f.G(b) + off)
    case LoadVec(_, b, off) => Wrap(f.G(b) + off)
    case StoreVec(_, b, off) => Wrap(f.G(b) + off)
    case _ => 0
  }

  predicate TouchesMemory(i: Insn) {
    i.Push? || i.PushLow? || i.Pop? || i.PopLow? || i.Load? || i.Store? || i.LoadVec? || i.StoreVec?
  }

  // A line is stuck when it touches an unmapped word.
  predicate Runnable(i: Insn, f: File, mem: Memory) {
    && (TouchesMemory(i) ==> Target(i, f) in mem)
    && (i.LoadVec? || i.StoreVec? ==> Target(i, f) + 8 in mem)
  }

  function At(mem: Memory, a: int): Word { if a in mem then mem[a] else 0 }

  function NextFile(i: Insn, f: File, mem: Memory): File {
    match i
    case Push(_, _) => f.SetG(SP, Target(i, f))
    case PushLow(_) => f.SetG(SP, Target(i, f))
    case Pop(r, n) => f.SetG(SP, Wrap(f.G(SP) + n)).SetG(r, At(mem, f.G(SP)))
    case PopLow(r) => f.SetG(SP, Wrap(f.G(SP) + 16)).SetV(r, Vec(At(mem, f.G(SP)), 0))
    case Mov(d, s) => f.SetG(d, f.G(s))
    case Load(d, _, _) => f.SetG(d, At(mem, Target(i, f)))
    case LoadVec(d, _, _) => f.SetV(d, Vec(At(mem, Target(i, f)), At(mem, Target(i, f) + 8)))
    case AddImm(d, k) => f.SetG(d, Wrap(f.G(d) + k))
    case Ubfx59(d) => f.SetG(d, f.G(d) % 0x800_0000_0000_0000)
    case Shl5(d) => f.SetG(d, Wrap(f.G(d) * 32))
    case Shr5(d) => f.SetG(d, f.G(d) / 32)
    case _ => f
  }

  function NextMem(i: Insn, f: File, mem: Memory): Memory {
    match i
    case Push(r, _) => Put(mem, Target(i, f), f.G(r))
    case PushLow(r) => Put(mem, Target(i, f), f.V(r).lo)
    case Store(s, _, _) => Put(mem, Target(i, f), f.G(s))
    case StoreVec(s, _, _) => PutPair(mem, Target(i, f), f.V(s))
    case _ => mem
  }

  // One step; None when the processor is stuck (an unmapped address, or a line after the jump).
  function Step(i: Insn, m: Machine, op: Effect): Option<Machine> {
    if m.jump.Some? || !Runnable(i, m.file, m.mem) then None
    else if i.Raw? then Some(Machine(op(m.file, m.heap).file, m.mem, op(m.file, m.heap).heap, None))
    else Some(Machine(NextFile(i, m.file, m.mem), NextMem(i, m.file, m.mem), m.heap,
                      if i.Jump? then Some(m.file.G(i.r)) else None))
  }

  function Run(p: seq<Insn>, m: Machine, op: Effect): Option<Machine> {
    if p == [] then Some(m)
    else match Step(p[0], m, op)
      case None => None
      case Some(m') => Run(p[1..], m', op)
  }

  lemma RunOne(i: Insn, m: Machine, op: Effect)
    ensures Run([i], m, op) == Step(i, m, op)
  {
    assert [i][1..] == [];
    match Step(i, m, op) {
      case None =>
      case Some(m') => assert Run([], m', op) == Some(m');
    }
  }

  lemma RunTwo(i: Insn, j: Insn, m: Machine, m1: Machine, op: Effect)
    requires Step(i, m, op) == Some(m1)
    ensures Run([i, j], m, op) == Step(j, m1, op)
  {
    assert [i, j][1..] == [j];
    RunOne(j, m1, op);
  }

  lemma {:induction false} RunAppend(p: seq<Insn>, q: seq<Insn>, m: Machine, op: Effect)
    ensures Run(p + q, m, op) ==
            (match Run(p, m, op) case None => None case Some(m') => Run(q, m', op))
  {
    if p == [] {
      assert p + q == q;
    } else {
      assert (p + q)[0] == p[0] && (p + q)[1..] == p[1..] + q;
      match Step(p[0], m, op) {
        case None =>
        case Some(m') => RunAppend(p[1..], q, m', op);
      }
    }
  }

  lemma RunThree(i: Insn, j: Insn, k: Insn, m: Machine, m1: Machine, m2: Machine, op: Effect)
    requires Step(i, m, op) == Some(m1) && Step(j, m1, op) == Some(m2)
    ensures Run([i, j, k], m, op) == Step(k, m2, op)
  {
    assert [i, j, k][1..] == [j, k];
    RunTwo(j, k, m1, m2, op);
  }

  // The memory lines, when the address does not wrap and is mapped.
  lemma StepLoad(d: Register, b: Register, off: int, m: Machine, op: Effect)
    requires m.jump.None? && 0 <= m.file.G(b) + off < TWO64 && m.file.G(b) + off in m.mem
    ensures Step(Load(d, b, off), m, op) == Some(m.(file := m.file.SetG(d, At(m.mem, m.file.G(b) + off))))
  {
  }

  lemma StepLoadVec(d: Register, b: Register, off: int, m: Machine, op: Effect)
    requires m.jump.None? && 0 <= m.file.G(b) + off < TWO64
    requires m.file.G(b) + off in m.mem && m.file.G(b) + off + 8 in m.mem
    ensures Step(LoadVec(d, b, off), m, op)
         == Some(m.(file := m.file.SetV(d, Vec(At(m.mem, m.file.G(b) + off), At(m.mem, m.file.G(b) + off + 8)))))
  {
  }

  lemma StepAdd(d: Register, k: int, m: Machine, op: Effect)
    requires m.jump.None?
    ensures Step(AddImm(d, k), m, op) == Some(m.(file := m.file.SetG(d, Wrap(m.file.G(d) + k))))
  {
  }

  lemma StepStore(s: Register, b: Register, off: int, m: Machine, op: Effect)
    requires m.jump.None? && 0 <= m.file.G(b) + off < TWO64 && m.file.G(b) + off in m.mem
    ensures Step(Store(s, b, off), m, op) == Some(m.(mem := Put(m.mem, m.file.G(b) + off, m.file.G(s))))
  {
  }

  lemma StepStoreVec(s: Register, b: Register, off: int, m: Machine, op: Effect)
    requires m.jump.None? && 0 <= m.file.G(b) + off < TWO64
    requires m.file.G(b) + off in m.mem && m.file.G(b) + off + 8 in m.mem
    ensures Step(StoreVec(s, b, off), m, op) == Some(m.(mem := PutPair(m.mem, m.file.G(b) + off, m.file.V(s))))
  {
  }

  // Shifting left then right by five keeps the low 59 bits, as the bit-field extract does.
  lemma ShiftPairIsUbfx(w: Word)
    requires 0 <= w < TWO64
    ensures Wrap(w * 32) / 32 == w % 0x800_0000_0000_0000
  {
    var q, r := w / 0x800_0000_0000_0000, w % 0x800_0000_0000_0000;
    assert w * 32 == q * TWO64 + r * 32;
  }
}
