/**
 The native handlers of src/Lifter.cpp: the whole line sequence, and the simulation it satisfies
 under every host convention.
 */
module NativeHandler {
  import opened Words
  import opened HostMachine
  import opened NativeAbi

  // ---- the emitted program ----

  // Host registers are saved in set order; on x86-64 all general registers come before the vectors.
  function SavedOrder(abi: Abi, used: seq<Register>): seq<Register> {
    if abi.AArch64? then Keep(used, r => Saved(abi, r))
    else Keep(used, r => SavedGpr(abi, r)) + Keep(used, r => SavedVec(abi, r))
  }

  function Keep(rs: seq<Register>, p: Register -> bool): (ks: seq<Register>)
    ensures forall r :: r in ks <==> r in rs && p(r)
  {
    if rs == [] then [] else (if p(rs[0]) then [rs[0]] else []) + Keep(rs[1..], p)
  }

  // c stands in for the CPU-pointer register, s for the stack pointer.
  function ToStandIns(abi: Abi, c: Register, s: Register): seq<Insn> {
    (if c != CpuReg(abi) then [Mov(c, CpuReg(abi))] else []) + (if s != SP then [Mov(s, SP)] else [])
  }

  function FromStandIns(abi: Abi, c: Register, s: Register): seq<Insn> {
    (if c != CpuReg(abi) then [Mov(CpuReg(abi), c)] else []) + (if s != SP then [Mov(SP, s)] else [])
  }

  // The argument registers: state, vmaddr and instruction.
  function ArgState(abi: Abi): Register { if abi.AArch64? then X0 else if abi.SysV? then RDI else RCX }
  function ArgVmAddr(abi: Abi): Register { if abi.AArch64? then X1 else if abi.SysV? then RSI else RDX }
  function ArgInsn(abi: Abi): Register { if abi.AArch64? then X2 else if abi.SysV? then RDX else R8 }

  // The AArch64 tail works in x0-x2 and jumps through x16, the x86-64 tail in rax, rcx, rdx and r10.
  function PcPtrReg(abi: Abi): Register { if abi.AArch64? then X1 else RCX }
  function PcReg(abi: Abi): Register { if abi.AArch64? then X2 else RDX }
  function StateReg(abi: Abi): Register { if abi.AArch64? then X0 else RAX }
  function TargetReg(abi: Abi): Register { if abi.AArch64? then X16 else R10 }

  // The AArch64 generator always advances by 4, the x86-64 one by the opcode length.
  function PcStep(abi: Abi, code: seq<int>): nat { if abi.AArch64? then 4 else |code| }

  function UpdatePc(abi: Abi, len: nat): seq<Insn> {
    var (a, b, c) := (StateReg(abi), PcPtrReg(abi), PcReg(abi));
    [Mov(a, CpuReg(abi)), Load(b, a, -16), Load(c, b, 0)]
    + [AddImm(c, len), Store(c, b, 0)]
    + (if abi.AArch64? then [Mov(X1, X2)] else [Mov(ArgState(abi), RAX), Mov(ArgVmAddr(abi), RDX)])
  }

  function Advance(abi: Abi): seq<Insn> {
    var (x, c) := (TargetReg(abi), ChainReg(abi));
    [AddImm(c, 8), Mov(ArgInsn(abi), c), Load(x, c, 0)]
    + (if abi.AArch64? then [Ubfx59(x), Jump(x)] else [Shl5(x), Shr5(x), Jump(x)])
  }

  function Body(abi: Abi, layout: Layout, used: seq<Register>, c: Register, s: Register, code: seq<int>): seq<Insn> {
    (ToStandIns(abi, c, s) + Loads(abi, layout, c, used))
    + ([Raw(code)] + Stores(abi, layout, c, used) + FromStandIns(abi, c, s))
  }

  function Handler(abi: Abi, layout: Layout, used: seq<Register>, c: Register, s: Register, code: seq<int>): seq<Insn> {
    Saves(abi, SavedOrder(abi, used)) + Body(abi, layout, used, c, s, code)
    + Restores(abi, SavedOrder(abi, used)) + (UpdatePc(abi, PcStep(abi, code)) + Advance(abi))
  }

  // ---- what callers must provide ----

  ghost predicate AgreeOn(abi: Abi, f: File, g: File, used: seq<Register>) {
    forall r :: r in used ==> Agree(abi, f, g, r)
  }

  // The opcode reads and writes only the registers in used (and the guest heap).
  ghost predicate Footprint(abi: Abi, op: Effect, used: seq<Register>) {
    && (forall f, g, h :: AgreeOn(abi, f, g, used) ==>
          op(f, h).heap == op(g, h).heap && AgreeOn(abi, op(f, h).file, op(g, h).file, used))
    && (forall f, h, r :: r !in used ==> op(f, h).file.G(r) == f.G(r) && op(f, h).file.V(r) == f.V(r))
  }

  // c and s can hold the CPU and stack pointers while the used registers carry guest values.
  predicate StandInsFit(abi: Abi, used: seq<Register>, c: Register, s: Register) {
    && c !in used && s !in used && c != s && c != SP
    && (c == CpuReg(abi) || IsGpr(abi, c))
    && (s == SP || (IsGpr(abi, s) && s != CpuReg(abi) && s != ChainReg(abi)))
  }

  // They also leave the chain pointer alone.
  predicate StandInsUsable(abi: Abi, used: seq<Register>, c: Register, s: Register) {
    StandInsFit(abi, used, c, s) && c != ChainReg(abi)
  }

  // A stand-in other than the original register loses its own value: nothing saves it.
  predicate Lost(abi: Abi, c: Register, s: Register, r: Register) {
    (r == c && c != CpuReg(abi)) || (r == s && s != SP)
  }

  predicate StandInsOk(abi: Abi, used: seq<Register>, c: Register, s: Register) {
    && StandInsUsable(abi, used, c, s)
    && (c != CpuReg(abi) ==> !Saved(abi, c)) && (s != SP ==> !Saved(abi, s))
  }

  predicate GuestRegisters(abi: Abi, used: seq<Register>) {
    forall r :: r in used ==> IsGpr(abi, r) || IsVec(abi, r)
  }

  // The private memory of the virtual machine: register cells, the pc pointer and pc, the next
  // chain slot and the stack below sp are mapped and do not overlap.
  ghost predicate WellPlaced(abi: Abi, layout: Layout, used: seq<Register>, m: Machine) {
    var cpu, sp, rs := m.file.G(CpuReg(abi)), m.file.G(SP), SavedOrder(abi, used);
    && CellsMapped(abi, layout, cpu, m.mem) && CellsSeparate(abi, layout, cpu)
    && StackRoom(abi, rs, m.mem, sp)
    && Depth(abi, rs) <= sp < TWO64
    && (forall r, a :: OwnCell(abi, layout, cpu, r, a) ==> !(sp - Depth(abi, rs) <= a < sp))
    && Private(abi, layout, cpu, m.mem, sp - Depth(abi, rs), sp, cpu - 16)
    && Private(abi, layout, cpu, m.mem, sp - Depth(abi, rs), sp, PcAddr(abi, m))
    && Private(abi, layout, cpu, m.mem, sp - Depth(abi, rs), sp, m.file.G(ChainReg(abi)) + 8)
    && PcAddr(abi, m) != m.file.G(ChainReg(abi)) + 8
    && 0 <= At(m.mem, m.file.G(ChainReg(abi)) + 8) < TWO64
  }

  // Where the pc lives: the word 0x10 bytes below the CPU state points to it.
  function PcAddr(abi: Abi, m: Machine): int { At(m.mem, m.file.G(CpuReg(abi)) - 16) }

  ghost predicate Private(abi: Abi, layout: Layout, cpu: int, mem: Memory, lo: int, hi: int, a: int) {
    0 <= a < TWO64 && a in mem && !(lo <= a < hi) && forall r :: !OwnCell(abi, layout, cpu, r, a)
  }

  // ---- running the body ----

  lemma ToStandInsRun(abi: Abi, used: seq<Register>, c: Register, s: Register, m: Machine, op: Effect)
    requires m.jump.None? && StandInsFit(abi, used, c, s)
    ensures
      var res := Run(ToStandIns(abi, c, s), m, op);
      && res.Some? && res.value == m.(file := res.value.file) && res.value.file.vec == m.file.vec
      && res.value.file.G(c) == m.file.G(CpuReg(abi)) && res.value.file.G(s) == m.file.G(SP)
      && forall r :: r != c && r != s ==> res.value.file.G(r) == m.file.G(r)
  {
    var p := if c != CpuReg(abi) then [Mov(c, CpuReg(abi))] else [];
    var q := if s != SP then [Mov(s, SP)] else [];
    RunAppend(p, q, m, op);
    var m1 := if p == [] then m else m.(file := m.file.SetG(c, m.file.G(CpuReg(abi))));
    assert p != [] ==> p[1..] == [] && Run(p, m, op) == Step(p[0], m, op);
    assert Run(p, m, op) == Some(m1);
    assert q != [] ==> q[1..] == [] && Run(q, m1, op) == Step(q[0], m1, op);
  }

  lemma FromStandInsRun(abi: Abi, used: seq<Register>, c: Register, s: Register, m: Machine, op: Effect)
    requires m.jump.None? && StandInsFit(abi, used, c, s)
    ensures
      var res := Run(FromStandIns(abi, c, s), m, op);
      && res.Some? && res.value == m.(file := res.value.file) && res.value.file.vec == m.file.vec
      && res.value.file.G(CpuReg(abi)) == m.file.G(c) && res.value.file.G(SP) == m.file.G(s)
      && forall r :: r != CpuReg(abi) && r != SP ==> res.value.file.G(r) == m.file.G(r)
  {
    var p := if c != CpuReg(abi) then [Mov(CpuReg(abi), c)] else [];
    var q := if s != SP then [Mov(SP, s)] else [];
    RunAppend(p, q, m, op);
    var m1 := if p == [] then m else m.(file := m.file.SetG(CpuReg(abi), m.file.G(c)));
    assert p != [] ==> p[1..] == [] && Run(p, m, op) == Step(p[0], m, op);
    assert Run(p, m, op) == Some(m1);
    assert q != [] ==> q[1..] == [] && Run(q, m1, op) == Step(q[0], m1, op);
  }

  // After the body the cells hold what the opcode made of the loaded registers, the CPU and
  // stack pointers are back, and callee-saved registers outside the used set are untouched.
  ghost predicate BodyDone(abi: Abi, layout: Layout, used: seq<Register>, c: Register, s: Register, o: Outcome,
                           m: Machine, m': Machine) {
    var cpu := m.file.G(CpuReg(abi));
    && m'.jump.None? && m'.heap == o.heap
    && StoredAll(abi, layout, cpu, used, o.file, m.mem, m'.mem)
    && m'.file.G(CpuReg(abi)) == cpu && m'.file.G(SP) == m.file.G(SP)
    && (forall r :: r !in used && Saved(abi, r) && !Lost(abi, c, s, r) ==> Preserved(abi, r, m'.file, m.file))
    && m'.file.G(c) == cpu
  }

  // The last four phases, from a machine whose stand-ins are in place and guest registers loaded.
  lemma BodyTail(abi: Abi, layout: Layout, used: seq<Register>, c: Register, s: Register, code: seq<int>, m: Machine,
                 op: Effect)
    requires m.jump.None? && StandInsFit(abi, used, c, s) && Footprint(abi, op, used)
    requires CellsMapped(abi, layout, m.file.G(c), m.mem) && CellsSeparate(abi, layout, m.file.G(c))
    ensures
      var o := op(m.file, m.heap);
      var res := Run([Raw(code)] + Stores(abi, layout, c, used) + FromStandIns(abi, c, s), m, op);
      && res.Some? && res.value.jump.None? && res.value.heap == o.heap
      && StoredAll(abi, layout, m.file.G(c), used, o.file, m.mem, res.value.mem)
      && res.value.file.G(CpuReg(abi)) == m.file.G(c) && res.value.file.G(SP) == m.file.G(s)
      && (forall r :: r != CpuReg(abi) && r != SP ==> res.value.file.G(r) == o.file.G(r))
      && (forall r :: res.value.file.V(r) == o.file.V(r))
  {
    var p3, p4, p5 := [Raw(code)], Stores(abi, layout, c, used), FromStandIns(abi, c, s);
    RunOne(Raw(code), m, op);
    var m3 := Run(p3, m, op).value;
    StoresRun(abi, layout, c, used, m3, op);
    var m4 := Run(p4, m3, op).value;
    FromStandInsRun(abi, used, c, s, m4, op);
    RunAppend(p3, p4, m, op);
    RunAppend(p3 + p4, p5, m, op);
  }

  // The first two phases: stand-ins in place, guest registers loaded.
  lemma BodyHead(abi: Abi, layout: Layout, used: seq<Register>, c: Register, s: Register, m: Machine, op: Effect)
    requires m.jump.None? && StandInsFit(abi, used, c, s)
    requires CellsMapped(abi, layout, m.file.G(CpuReg(abi)), m.mem)
    ensures
      var cpu := m.file.G(CpuReg(abi));
      var res := Run(ToStandIns(abi, c, s) + Loads(abi, layout, c, used), m, op);
      && res.Some? && res.value == m.(file := res.value.file)
      && res.value.file.G(c) == cpu && res.value.file.G(s) == m.file.G(SP)
      && (forall r :: r in used ==> CellsHold(abi, layout, cpu, m.mem, res.value.file, r))
      && (forall r :: r !in used ==> res.value.file.V(r) == m.file.V(r))
      && (forall r :: r !in used && r != c && r != s ==> res.value.file.G(r) == m.file.G(r))
  {
    var p1, p2 := ToStandIns(abi, c, s), Loads(abi, layout, c, used);
    ToStandInsRun(abi, used, c, s, m, op);
    var m1 := Run(p1, m, op).value;
    LoadsRun(abi, layout, c, used, m1, op);
    RunAppend(p1, p2, m, op);
  }

  lemma BodyRun(abi: Abi, layout: Layout, used: seq<Register>, c: Register, s: Register, code: seq<int>, m: Machine,
                op: Effect)
    returns (f: File)
    requires m.jump.None? && StandInsFit(abi, used, c, s) && Footprint(abi, op, used)
    requires CellsMapped(abi, layout, m.file.G(CpuReg(abi)), m.mem)
    requires CellsSeparate(abi, layout, m.file.G(CpuReg(abi)))
    ensures forall r :: r in used ==> CellsHold(abi, layout, m.file.G(CpuReg(abi)), m.mem, f, r)
    ensures
      var res := Run(Body(abi, layout, used, c, s, code), m, op);
      res.Some? && BodyDone(abi, layout, used, c, s, op(f, m.heap), m, res.value)
  {
    var p1 := ToStandIns(abi, c, s) + Loads(abi, layout, c, used);
    var p2 := [Raw(code)] + Stores(abi, layout, c, used) + FromStandIns(abi, c, s);
    BodyHead(abi, layout, used, c, s, m, op);
    var m2 := Run(p1, m, op).value;
    f := m2.file;
    BodyTail(abi, layout, used, c, s, code, m2, op);
    RunAppend(p1, p2, m, op);
    BodyKeeps(abi, used, c, s, m.file, f, op(f, m.heap).file, Run(p2, m2, op).value.file);
  }

  lemma BodyKeeps(abi: Abi, used: seq<Register>, c: Register, s: Register, f0: File, f: File, o: File, f': File)
    requires StandInsFit(abi, used, c, s)
    requires f'.G(CpuReg(abi)) == f0.G(CpuReg(abi))
    requires forall r :: r !in used ==> f.V(r) == f0.V(r) && o.V(r) == f.V(r) && o.G(r) == f.G(r)
    requires forall r :: r !in used && r != c && r != s ==> f.G(r) == f0.G(r)
    requires forall r :: f'.V(r) == o.V(r)
    requires forall r :: r != CpuReg(abi) && r != SP ==> f'.G(r) == o.G(r)
    ensures forall r :: r !in used && Saved(abi, r) && !Lost(abi, c, s, r) ==> Preserved(abi, r, f', f0)
  {
    forall r | r !in used && Saved(abi, r) && !Lost(abi, c, s, r) ensures Preserved(abi, r, f', f0) {
      assert f'.V(r) == f0.V(r);
      if SavedGpr(abi, r) && r != CpuReg(abi) {
        assert r != c && r != s && r != SP;
      }
    }
  }

  // ---- the tail: advance the guest pc and the chain, then jump ----

  // The tail ran from m to m'.
  ghost predicate PcUpdated(abi: Abi, len: nat, m: Machine, m': Machine) {
    var pc := PcAddr(abi, m);
    && pc in m.mem
    && m'.mem == Put(m.mem, pc, Wrap(m.mem[pc] + len)) && m'.heap == m.heap && m'.jump.None?
    && m'.file.vec == m.file.vec
    && (forall r :: SavedGpr(abi, r) || r == SP ==> m'.file.G(r) == m.file.G(r))
    && m'.file.G(ArgState(abi)) == m.file.G(CpuReg(abi))
    && m'.file.G(ArgVmAddr(abi)) == m'.mem[pc]
  }

  ghost predicate PcReadable(abi: Abi, m: Machine) {
    var cpu, pc := m.file.G(CpuReg(abi)), PcAddr(abi, m);
    m.jump.None? && 0 <= cpu - 16 < TWO64 && cpu - 16 in m.mem && 0 <= pc < TWO64 && pc in m.mem
  }

  lemma ReadPcRun(m: Machine, op: Effect, u: Register, a: Register, b: Register, c: Register)
    requires m.jump.None? && a != b && b != c
    requires var x := m.file.G(u) - 16; 0 <= x < TWO64 && x in m.mem && 0 <= m.mem[x] < TWO64 && m.mem[x] in m.mem
    ensures
      var pc := m.mem[m.file.G(u) - 16];
      Run([Mov(a, u), Load(b, a, -16), Load(c, b, 0)], m, op)
        == Some(m.(file := m.file.SetG(a, m.file.G(u)).SetG(b, pc).SetG(c, m.mem[pc])))
  {
    var pc := m.mem[m.file.G(u) - 16];
    var m1 := m.(file := m.file.SetG(a, m.file.G(u)));
    var m2 := m1.(file := m1.file.SetG(b, pc));
    StepLoad(b, a, -16, m1, op);
    StepLoad(c, b, 0, m2, op);
    RunThree(Mov(a, u), Load(b, a, -16), Load(c, b, 0), m, m1, m2, op);
  }

  lemma WritePcRun(m: Machine, op: Effect, b: Register, c: Register, len: nat)
    requires m.jump.None? && b != c
    requires 0 <= m.file.G(b) < TWO64 && m.file.G(b) in m.mem
    ensures
      var w := Wrap(m.file.G(c) + len);
      Run([AddImm(c, len), Store(c, b, 0)], m, op)
        == Some(m.(file := m.file.SetG(c, w), mem := Put(m.mem, m.file.G(b), w)))
  {
    var w := Wrap(m.file.G(c) + len);
    AddStoreRun(m, m.(file := m.file.SetG(c, w)), op, b, c, len, w);
  }

  lemma AddStoreRun(m: Machine, m1: Machine, op: Effect, b: Register, c: Register, len: nat, w: Word)
    requires m.jump.None? && b != c && w == Wrap(m.file.G(c) + len) && m1 == m.(file := m.file.SetG(c, w))
    requires 0 <= m.file.G(b) < TWO64 && m.file.G(b) in m.mem
    ensures Run([AddImm(c, len), Store(c, b, 0)], m, op) == Some(m1.(mem := Put(m1.mem, m.file.G(b), w)))
  {
    assert m1.file.G(b) == m.file.G(b) && m1.file.G(c) == w;
    StepAdd(c, len, m, op);
    StepStore(c, b, 0, m1, op);
    RunTwo(AddImm(c, len), Store(c, b, 0), m, m1, op);
  }

  lemma PcWritten(m: Machine, op: Effect, u: Register, a: Register, b: Register, c: Register, len: nat)
    requires m.jump.None? && a != b && b != c
    requires var x := m.file.G(u) - 16; 0 <= x < TWO64 && x in m.mem && 0 <= m.mem[x] < TWO64 && m.mem[x] in m.mem
    ensures
      var pc := m.mem[m.file.G(u) - 16];
      var f := m.file.SetG(a, m.file.G(u)).SetG(b, pc).SetG(c, m.mem[pc]);
      Run([Mov(a, u), Load(b, a, -16), Load(c, b, 0)] + [AddImm(c, len), Store(c, b, 0)], m, op)
        == Some(m.(file := f.SetG(c, Wrap(m.mem[pc] + len)), mem := Put(m.mem, pc, Wrap(m.mem[pc] + len))))
  {
    var p := [Mov(a, u), Load(b, a, -16), Load(c, b, 0)];
    ReadPcRun(m, op, u, a, b, c);
    WritePcRun(Run(p, m, op).value, op, b, c, len);
    RunAppend(p, [AddImm(c, len), Store(c, b, 0)], m, op);
  }

  // The register file after the pc has been read, advanced and written back.
  function PcFile(abi: Abi, len: nat, m: Machine): File {
    var pc := PcAddr(abi, m);
    var f := m.file.SetG(StateReg(abi), m.file.G(CpuReg(abi))).SetG(PcPtrReg(abi), pc).SetG(PcReg(abi), At(m.mem, pc));
    f.SetG(PcReg(abi), Wrap(At(m.mem, pc) + len))
  }

  lemma PcWrittenRun(abi: Abi, len: nat, m: Machine, op: Effect)
    requires PcReadable(abi, m)
    ensures
      var (a, b, c) := (StateReg(abi), PcPtrReg(abi), PcReg(abi));
      Run([Mov(a, CpuReg(abi)), Load(b, a, -16), Load(c, b, 0)] + [AddImm(c, len), Store(c, b, 0)], m, op)
        == Some(m.(file := PcFile(abi, len, m),
                   mem := Put(m.mem, PcAddr(abi, m), Wrap(At(m.mem, PcAddr(abi, m)) + len))))
  {
    PcRegisters(abi, m);
    PcWritten(m, op, CpuReg(abi), StateReg(abi), PcPtrReg(abi), PcReg(abi), len);
  }

  lemma PcRegisters(abi: Abi, m: Machine)
    requires PcReadable(abi, m)
    ensures StateReg(abi) != PcPtrReg(abi) && PcPtrReg(abi) != PcReg(abi)
    ensures var x := m.file.G(CpuReg(abi)) - 16; x in m.mem && m.mem[x] == PcAddr(abi, m) && m.mem[x] in m.mem
    ensures At(m.mem, PcAddr(abi, m)) == m.mem[PcAddr(abi, m)]
  {
  }

  function PcArgs(abi: Abi, f: File): File {
    if abi.AArch64? then f.SetG(X1, f.G(X2))
    else f.SetG(ArgState(abi), f.G(RAX)).SetG(ArgVmAddr(abi), f.G(RDX))
  }

  lemma PcArgsRun(abi: Abi, m: Machine, op: Effect)
    requires m.jump.None?
    ensures Run(if abi.AArch64? then [Mov(X1, X2)] else [Mov(ArgState(abi), RAX), Mov(ArgVmAddr(abi), RDX)], m, op)
         == Some(m.(file := PcArgs(abi, m.file)))
  {
    if abi.AArch64? {
      RunOne(Mov(X1, X2), m, op);
    } else {
      var m1 := m.(file := m.file.SetG(ArgState(abi), m.file.G(RAX)));
      RunTwo(Mov(ArgState(abi), RAX), Mov(ArgVmAddr(abi), RDX), m, m1, op);
      assert m1.file.G(RDX) == m.file.G(RDX);
    }
  }

  lemma PcFileFacts(abi: Abi, len: nat, m: Machine)
    ensures
      var f := PcArgs(abi, PcFile(abi, len, m));
      && f.vec == m.file.vec
      && (forall r :: SavedGpr(abi, r) || r == SP ==> f.G(r) == m.file.G(r))
      && f.G(ArgState(abi)) == m.file.G(CpuReg(abi))
      && f.G(ArgVmAddr(abi)) == Wrap(At(m.mem, PcAddr(abi, m)) + len)
  {
  }

  lemma UpdatePcRun(abi: Abi, len: nat, m: Machine, op: Effect)
    requires PcReadable(abi, m)
    ensures
      var res := Run(UpdatePc(abi, len), m, op);
      res.Some? && PcUpdated(abi, len, m, res.value)
  {
    var (a, b, c) := (StateReg(abi), PcPtrReg(abi), PcReg(abi));
    var p := [Mov(a, CpuReg(abi)), Load(b, a, -16), Load(c, b, 0)] + [AddImm(c, len), Store(c, b, 0)];
    var q := if abi.AArch64? then [Mov(X1, X2)] else [Mov(ArgState(abi), RAX), Mov(ArgVmAddr(abi), RDX)];
    PcWrittenRun(abi, len, m, op);
    PcArgsRun(abi, Run(p, m, op).value, op);
    RunAppend(p, q, m, op);
    assert UpdatePc(abi, len) == p + q;
    PcFileFacts(abi, len, m);
  }

  ghost predicate Advanced(abi: Abi, m: Machine, m': Machine) {
    var next := m.file.G(ChainReg(abi)) + 8;
    && next in m.mem
    && m'.mem == m.mem && m'.heap == m.heap && m'.jump == Some(m.mem[next] % 0x800_0000_0000_0000)
    && m'.file.vec == m.file.vec
    && m'.file.G(ChainReg(abi)) == next && m'.file.G(ArgInsn(abi)) == next
    && (forall r :: (SavedGpr(abi, r) || r == SP) && r != ChainReg(abi) ==> m'.file.G(r) == m.file.G(r))
    && m'.file.G(ArgState(abi)) == m.file.G(ArgState(abi)) && m'.file.G(ArgVmAddr(abi)) == m.file.G(ArgVmAddr(abi))
  }

  ghost predicate ChainReadable(abi: Abi, m: Machine) {
    var next := m.file.G(ChainReg(abi)) + 8;
    m.jump.None? && 0 <= next < TWO64 && next in m.mem && 0 <= m.mem[next] < TWO64
  }

  lemma NextSlotRun(m: Machine, op: Effect, c: Register, a: Register, x: Register)
    requires m.jump.None? && a != c
    requires var next := m.file.G(c) + 8; 0 <= next < TWO64 && next in m.mem
    ensures
      var next := m.file.G(c) + 8;
      Run([AddImm(c, 8), Mov(a, c), Load(x, c, 0)], m, op)
        == Some(m.(file := m.file.SetG(c, next).SetG(a, next).SetG(x, m.mem[next])))
  {
    var next := m.file.G(c) + 8;
    var m1 := m.(file := m.file.SetG(c, next));
    var m2 := m1.(file := m1.file.SetG(a, next));
    StepLoad(x, c, 0, m2, op);
    RunThree(AddImm(c, 8), Mov(a, c), Load(x, c, 0), m, m1, m2, op);
  }

  lemma TargetA64(x: Register, m: Machine, op: Effect)
    requires m.jump.None?
    ensures
      var w := m.file.G(x) % 0x800_0000_0000_0000;
      Run([Ubfx59(x), Jump(x)], m, op) == Some(m.(file := m.file.SetG(x, w), jump := Some(w)))
  {
    RunTwo(Ubfx59(x), Jump(x), m, m.(file := m.file.SetG(x, m.file.G(x) % 0x800_0000_0000_0000)), op);
  }

  lemma TargetX64(x: Register, m: Machine, op: Effect)
    requires m.jump.None? && 0 <= m.file.G(x) < TWO64
    ensures
      var w := m.file.G(x) % 0x800_0000_0000_0000;
      Run([Shl5(x), Shr5(x), Jump(x)], m, op)
        == Some(m.(file := m.file.SetG(x, Wrap(m.file.G(x) * 32)).SetG(x, w), jump := Some(w)))
  {
    var w := m.file.G(x);
    var m2 := m.(file := m.file.SetG(x, Wrap(w * 32)));
    ShiftPairIsUbfx(w);
    RunThree(Shl5(x), Shr5(x), Jump(x), m, m2, m2.(file := m2.file.SetG(x, w % 0x800_0000_0000_0000)), op);
  }

  // The registers the last five or six lines write.
  function ChainFile(abi: Abi, m: Machine): File {
    var next := m.file.G(ChainReg(abi)) + 8;
    m.file.SetG(ChainReg(abi), next).SetG(ArgInsn(abi), next).SetG(TargetReg(abi), At(m.mem, next))
  }

  lemma ChainFileFacts(abi: Abi, m: Machine, f: File)
    requires f.vec == m.file.vec && forall r :: r != TargetReg(abi) ==> f.G(r) == ChainFile(abi, m).G(r)
    ensures
      var next := m.file.G(ChainReg(abi)) + 8;
      && f.G(ChainReg(abi)) == next && f.G(ArgInsn(abi)) == next
      && (forall r :: (SavedGpr(abi, r) || r == SP) && r != ChainReg(abi) ==> f.G(r) == m.file.G(r))
      && f.G(ArgState(abi)) == m.file.G(ArgState(abi)) && f.G(ArgVmAddr(abi)) == m.file.G(ArgVmAddr(abi))
  {
  }

  lemma AdvanceRun(abi: Abi, m: Machine, op: Effect)
    requires ChainReadable(abi, m)
    ensures
      var res := Run(Advance(abi), m, op);
      res.Some? && Advanced(abi, m, res.value)
  {
    var (x, c) := (TargetReg(abi), ChainReg(abi));
    var p := [AddImm(c, 8), Mov(ArgInsn(abi), c), Load(x, c, 0)];
    NextSlotRun(m, op, c, ArgInsn(abi), x);
    var m1 := m.(file := ChainFile(abi, m));
    assert Run(p, m, op) == Some(m1);
    var q := if abi.AArch64? then [Ubfx59(x), Jump(x)] else [Shl5(x), Shr5(x), Jump(x)];
    if abi.AArch64? { TargetA64(x, m1, op); } else { TargetX64(x, m1, op); }
    RunAppend(p, q, m, op);
    ChainFileFacts(abi, m, Run(q, m1, op).value.file);
  }

  // ---- the simulation ----

  // What one run of the handler does on the host side.
  ghost predicate HostDone(abi: Abi, layout: Layout, used: seq<Register>, c: Register, s: Register, code: seq<int>,
                           m: Machine, m': Machine) {
    var (cpu, sp, next) := (m.file.G(CpuReg(abi)), m.file.G(SP), m.file.G(ChainReg(abi)) + 8);
    // the guest pc advances; the rest of private memory above the stack is untouched
    && m'.mem.Keys == m.mem.Keys
    && At(m'.mem, PcAddr(abi, m)) == Wrap(At(m.mem, PcAddr(abi, m)) + PcStep(abi, code))
    && (forall a :: (a in m.mem && a != PcAddr(abi, m) && !InCells(abi, layout, cpu, used, a)
                     && !(sp - Depth(abi, SavedOrder(abi, used)) <= a < sp)) ==> m'.mem[a] == m.mem[a])
    // callee-saved host registers that are no stand-in and the stack pointer are restored, the
    // chain pointer advances
    && m'.file.G(SP) == sp
    && m'.file.G(ChainReg(abi)) == next
    && (forall r :: Saved(abi, r) && r != ChainReg(abi) && !Lost(abi, c, s, r) ==> Preserved(abi, r, m'.file, m.file))
    && (SavedGpr(abi, c) ==> m'.file.G(c) == cpu)
    // control passes to the next handler with its three arguments
    && m'.jump == Some(At(m.mem, next) % 0x800_0000_0000_0000)
    && m'.file.G(ArgState(abi)) == cpu
    && m'.file.G(ArgVmAddr(abi)) == At(m'.mem, PcAddr(abi, m))
    && m'.file.G(ArgInsn(abi)) == next
  }

  // The guest registers and heap change exactly as the opcode changes them.
  ghost predicate GuestDone(abi: Abi, layout: Layout, op: Effect, m: Machine, m': Machine) {
    var g := GuestFile(abi, layout, m.file.G(CpuReg(abi)), m.mem);
    && m'.heap == op(g, m.heap).heap
    && forall r :: Agree(abi, GuestFile(abi, layout, m.file.G(CpuReg(abi)), m'.mem), op(g, m.heap).file, r)
  }

  ghost predicate Simulates(abi: Abi, layout: Layout, used: seq<Register>, c: Register, s: Register, code: seq<int>,
                            op: Effect, m: Machine, m': Machine) {
    GuestDone(abi, layout, op, m, m') && HostDone(abi, layout, used, c, s, code, m, m')
  }

  // From entry to the last restore: guest cells hold the opcode's outcome, everything the host
  // must keep is back, and memory changed only in the used cells and below the stack pointer.
  ghost predicate Wrapped(abi: Abi, layout: Layout, used: seq<Register>, c: Register, s: Register, o: Outcome,
                          m: Machine, m': Machine) {
    var (cpu, sp) := (m.file.G(CpuReg(abi)), m.file.G(SP));
    && m'.jump.None? && m'.heap == o.heap && m'.mem.Keys == m.mem.Keys
    && (forall a :: (a in m.mem && !InCells(abi, layout, cpu, used, a)
                     && !(sp - Depth(abi, SavedOrder(abi, used)) <= a < sp)) ==> m'.mem[a] == m.mem[a])
    && (forall r :: r in used ==> CellsHold(abi, layout, cpu, m'.mem, o.file, r))
    && m'.file.G(SP) == sp
    && (forall r :: Saved(abi, r) && !Lost(abi, c, s, r) ==> Preserved(abi, r, m'.file, m.file))
    && m'.file.G(c) == cpu
  }

  // The stack slots survive the stores, which touch register cells only.
  lemma StackSurvives(abi: Abi, layout: Layout, used: seq<Register>, cpu: int, mem: Memory, mem': Memory, sp: int,
                      f: File)
    requires StackHolds(abi, SavedOrder(abi, used), mem, sp, f)
    requires mem'.Keys == mem.Keys
    requires forall a :: a in mem && !InCells(abi, layout, cpu, used, a) ==> mem'[a] == mem[a]
    requires forall r, a :: OwnCell(abi, layout, cpu, r, a) ==> !(sp - Depth(abi, SavedOrder(abi, used)) <= a < sp)
    ensures StackHolds(abi, SavedOrder(abi, used), mem', sp, f)
  {
    StackHoldsFrame(abi, SavedOrder(abi, used), mem, mem', sp, f);
  }

  // Cells lie outside the stack, so saving leaves what they hold alone.
  lemma CellsSurvive(abi: Abi, layout: Layout, cpu: int, mem: Memory, mem': Memory, lo: int, hi: int, f: File,
                     r: Register)
    requires CellsMapped(abi, layout, cpu, mem)
    requires SameOutside(mem, mem', lo, hi)
    requires forall q, a :: OwnCell(abi, layout, cpu, q, a) ==> !(lo <= a < hi)
    requires CellsHold(abi, layout, cpu, mem', f, r)
    ensures CellsHold(abi, layout, cpu, mem, f, r)
  {
    assert IsGpr(abi, r) ==> OwnCell(abi, layout, cpu, r, cpu + Off(layout, r));
    assert IsVec(abi, r) ==> OwnCell(abi, layout, cpu, r, cpu + Off(layout, r)) && OwnCell(abi, layout, cpu, r,
        cpu + Off(layout, r) + 8);
  }

  lemma WrappedRun(abi: Abi, layout: Layout, used: seq<Register>, c: Register, s: Register, code: seq<int>, m: Machine,
                   op: Effect)
    returns (f: File)
    requires m.jump.None? && StandInsFit(abi, used, c, s) && Footprint(abi, op, used)
    requires WellPlaced(abi, layout, used, m)
    ensures forall r :: r in used ==> CellsHold(abi, layout, m.file.G(CpuReg(abi)), m.mem, f, r)
    ensures
      var rs := SavedOrder(abi, used);
      var res := Run(Saves(abi, rs) + Body(abi, layout, used, c, s, code) + Restores(abi, rs), m, op);
      res.Some? && Wrapped(abi, layout, used, c, s, op(f, m.heap), m, res.value)
  {
    var (rs, cpu, sp) := (SavedOrder(abi, used), m.file.G(CpuReg(abi)), m.file.G(SP));
    var p1, p2, p3 := Saves(abi, rs), Body(abi, layout, used, c, s, code), Restores(abi, rs);
    assert AllSaved(abi, rs) && SP !in rs;
    SavesRun(abi, rs, m, op, m.file);
    var m1 := Run(p1, m, op).value;
    f := BodyRun(abi, layout, used, c, s, code, m1, op);
    var m2 := Run(p2, m1, op).value;
    StackSurvives(abi, layout, used, cpu, m1.mem, m2.mem, sp, m.file);
    RestoresRun(abi, rs, m2, op, sp, m.file);
    var m3 := Run(p3, m2, op).value;
    RunAppend(p1, p2, m, op);
    RunAppend(p1 + p2, p3, m, op);
    forall r | r in used ensures CellsHold(abi, layout, cpu, m.mem, f, r) {
      CellsSurvive(abi, layout, cpu, m.mem, m1.mem, sp - Depth(abi, rs), sp, f, r);
    }
    WrappedHost(abi, used, c, s, rs, m, m1, m2, m3);
  }

  // Every callee-saved register is back: used ones from the stack, the others untouched.
  lemma WrappedHost(abi: Abi, used: seq<Register>, c: Register, s: Register, rs: seq<Register>, m: Machine,
                    m1: Machine, m2: Machine, m3: Machine)
    requires rs == SavedOrder(abi, used)
    requires m1.file.vec == m.file.vec && forall q :: q != SP ==> m1.file.G(q) == m.file.G(q)
    requires forall r :: r !in used && Saved(abi, r) && !Lost(abi, c, s, r) ==> Preserved(abi, r, m2.file, m1.file)
    requires forall q :: q != SP && q !in rs ==> m3.file.G(q) == m2.file.G(q)
    requires forall q :: q !in rs ==> m3.file.V(q) == m2.file.V(q)
    requires forall q :: q in rs ==> Preserved(abi, q, m3.file, m.file)
    ensures forall r :: Saved(abi, r) && !Lost(abi, c, s, r) ==> Preserved(abi, r, m3.file, m.file)
  {
    forall r | Saved(abi, r) && !Lost(abi, c, s, r) ensures Preserved(abi, r, m3.file, m.file) {
      if r !in rs {
        assert r !in used;
        assert Preserved(abi, r, m2.file, m1.file);
      }
    }
  }

  // The pc words are private, so the wrapped part leaves them alone.
  lemma PcReady(abi: Abi, layout: Layout, used: seq<Register>, c: Register, s: Register, o: Outcome, m: Machine,
                m3: Machine)
    requires WellPlaced(abi, layout, used, m) && StandInsFit(abi, used, c, s)
    requires Wrapped(abi, layout, used, c, s, o, m, m3)
    ensures PcReadable(abi, m3) && PcAddr(abi, m3) == PcAddr(abi, m)
    ensures At(m3.mem, PcAddr(abi, m)) == At(m.mem, PcAddr(abi, m))
    ensures m3.file.G(CpuReg(abi)) == m.file.G(CpuReg(abi))
  {
    var cpu := m.file.G(CpuReg(abi));
    assert SavedGpr(abi, CpuReg(abi));
    assert c != CpuReg(abi) ==> Preserved(abi, CpuReg(abi), m3.file, m.file);
    assert !InCells(abi, layout, cpu, used, cpu - 16) && !InCells(abi, layout, cpu, used, PcAddr(abi, m));
  }

  // So is the next chain word, and the chain pointer is back.
  lemma TailReady(abi: Abi, layout: Layout, used: seq<Register>, c: Register, s: Register, o: Outcome, m: Machine,
                  m3: Machine)
    requires WellPlaced(abi, layout, used, m) && StandInsUsable(abi, used, c, s)
    requires Wrapped(abi, layout, used, c, s, o, m, m3)
    ensures m3.file.G(ChainReg(abi)) == m.file.G(ChainReg(abi))
    ensures
      var next := m.file.G(ChainReg(abi)) + 8;
      next in m3.mem && m3.mem[next]
        == At(m.mem, next) && next != PcAddr(abi, m) && 0 <= next < TWO64 && 0 <= m3.mem[next] < TWO64
  {
    var (cpu, next) := (m.file.G(CpuReg(abi)), m.file.G(ChainReg(abi)) + 8);
    assert SavedGpr(abi, ChainReg(abi));
    assert Preserved(abi, ChainReg(abi), m3.file, m.file);
    assert !InCells(abi, layout, cpu, used, next);
  }

  lemma TailRun(abi: Abi, layout: Layout, used: seq<Register>, c: Register, s: Register, code: seq<int>, o: Outcome,
                m: Machine, m3: Machine, op: Effect)
    requires WellPlaced(abi, layout, used, m) && StandInsUsable(abi, used, c, s)
    requires Wrapped(abi, layout, used, c, s, o, m, m3)
    ensures
      var res := Run(UpdatePc(abi, PcStep(abi, code)) + Advance(abi), m3, op);
      && PcAddr(abi, m3) == PcAddr(abi, m)
      && res.Some? && exists m4 :: PcUpdated(abi, PcStep(abi, code), m3, m4) && Advanced(abi, m4, res.value)
  {
    PcReady(abi, layout, used, c, s, o, m, m3);
    TailReady(abi, layout, used, c, s, o, m, m3);
    TailLines(abi, PcStep(abi, code), m3, op);
  }

  // The tail on a machine whose pc and next slot are readable and apart.
  lemma TailLines(abi: Abi, len: nat, m: Machine, op: Effect)
    requires PcReadable(abi, m) && ChainReadable(abi, m) && m.file.G(ChainReg(abi)) + 8 != PcAddr(abi, m)
    ensures
      var res := Run(UpdatePc(abi, len) + Advance(abi), m, op);
      res.Some? && exists m4 :: PcUpdated(abi, len, m, m4) && Advanced(abi, m4, res.value)
  {
    UpdatePcRun(abi, len, m, op);
    var m4 := Run(UpdatePc(abi, len), m, op).value;
    StillReadable(abi, len, m, m4);
    AdvanceRun(abi, m4, op);
    RunAppend(UpdatePc(abi, len), Advance(abi), m, op);
  }

  lemma StillReadable(abi: Abi, len: nat, m: Machine, m4: Machine)
    requires PcUpdated(abi, len, m, m4) && ChainReadable(abi, m) && m.file.G(ChainReg(abi)) + 8 != PcAddr(abi, m)
    ensures ChainReadable(abi, m4)
  {
    assert SavedGpr(abi, ChainReg(abi));
  }

  // The opcode saw the guest values, by its footprint, so the cells now hold what it makes of them.
  lemma GuestResult(abi: Abi, layout: Layout, used: seq<Register>, c: Register, s: Register, f: File, m: Machine,
                    m3: Machine, op: Effect, r: Register)
    requires Footprint(abi, op, used) && WellPlaced(abi, layout, used, m)
    requires forall q :: q in used ==> CellsHold(abi, layout, m.file.G(CpuReg(abi)), m.mem, f, q)
    requires Wrapped(abi, layout, used, c, s, op(f, m.heap), m, m3)
    ensures
      var (cpu, g) := (m.file.G(CpuReg(abi)), GuestFile(abi, layout, m.file.G(CpuReg(abi)), m.mem));
      && m3.heap == op(g, m.heap).heap
      && CellsHold(abi, layout, cpu, m3.mem, op(g, m.heap).file, r)
  {
    var cpu := m.file.G(CpuReg(abi));
    var g := GuestFile(abi, layout, cpu, m.mem);
    forall q | q in used ensures Agree(abi, f, g, q) {
      GuestFileHolds(abi, layout, cpu, m.mem, f, q);
    }
    assert AgreeOn(abi, f, g, used);
    assert AgreeOn(abi, op(f, m.heap).file, op(g, m.heap).file, used);
    if r in used {
      assert Agree(abi, op(f, m.heap).file, op(g, m.heap).file, r);
    } else {
      GuestFileHolds(abi, layout, cpu, m.mem, g, r);
      UnusedCells(abi, layout, used, cpu, m, m3.mem, g, r);
    }
  }

  lemma UnusedCells(abi: Abi, layout: Layout, used: seq<Register>, cpu: int, m: Machine, mem': Memory, g: File,
                    r: Register)
    requires WellPlaced(abi, layout, used, m) && cpu == m.file.G(CpuReg(abi)) && r !in used
    requires mem'.Keys == m.mem.Keys
    requires var sp := m.file.G(SP);
      forall a :: (a in m.mem && !InCells(abi, layout, cpu, used, a)
                   && !(sp - Depth(abi, SavedOrder(abi, used)) <= a < sp)) ==> mem'[a] == m.mem[a]
    requires CellsHold(abi, layout, cpu, m.mem, g, r)
    ensures CellsHold(abi, layout, cpu, mem', g, r)
  {
    forall a | OwnCell(abi, layout, cpu, r, a) ensures a in m.mem && mem'[a] == m.mem[a] {
      assert forall q :: q in used ==> !OwnCell(abi, layout, cpu, q, a);
    }
    assert IsGpr(abi, r) ==> OwnCell(abi, layout, cpu, r, cpu + Off(layout, r));
    assert IsVec(abi, r) ==> OwnCell(abi, layout, cpu, r, cpu + Off(layout, r)) && OwnCell(abi, layout, cpu, r,
        cpu + Off(layout, r) + 8);
  }

  /**
   The simulation theorem. For every used set of guest registers, every opcode whose footprint is
   that set, every usable choice of stand-ins and every well-placed machine, the emitted handler
   runs to its jump without getting stuck and does exactly what Simulates says.
   */
  lemma HandlerRuns(abi: Abi, layout: Layout, used: seq<Register>, c: Register, s: Register, code: seq<int>,
                    m: Machine, op: Effect)
    requires m.jump.None? && StandInsUsable(abi, used, c, s) && Footprint(abi, op, used)
    requires WellPlaced(abi, layout, used, m)
    ensures
      var res := Run(Handler(abi, layout, used, c, s, code), m, op);
      res.Some? && Simulates(abi, layout, used, c, s, code, op, m, res.value)
  {
    var rs := SavedOrder(abi, used);
    var p := Saves(abi, rs) + Body(abi, layout, used, c, s, code) + Restores(abi, rs);
    var q := UpdatePc(abi, PcStep(abi, code)) + Advance(abi);
    var f := WrappedRun(abi, layout, used, c, s, code, m, op);
    var m3 := Run(p, m, op).value;
    TailRun(abi, layout, used, c, s, code, op(f, m.heap), m, m3, op);
    var m5 := Run(q, m3, op).value;
    var m4 :| PcUpdated(abi, PcStep(abi, code), m3, m4) && Advanced(abi, m4, m5);
    RunAppend(p, q, m, op);
    var o := op(GuestFile(abi, layout, m.file.G(CpuReg(abi)), m.mem), m.heap).file;
    forall r ensures Agree(abi, GuestFile(abi, layout, m.file.G(CpuReg(abi)), m5.mem), o, r) {
      GuestResult(abi, layout, used, c, s, f, m, m3, op, r);
      TailGuest(abi, layout, used, m, m3.mem, m5.mem, o, r);
    }
    GuestResult(abi, layout, used, c, s, f, m, m3, op, SP);
    HostResult(abi, layout, used, c, s, code, op(f, m.heap), m, m3, m4, m5);
  }

  // Writing the pc does not touch register cells.
  lemma TailGuest(abi: Abi, layout: Layout, used: seq<Register>, m: Machine, mem3: Memory, mem5: Memory, o: File,
                  r: Register)
    requires WellPlaced(abi, layout, used, m)
    requires mem3.Keys == m.mem.Keys && exists w :: mem5 == Put(mem3, PcAddr(abi, m), w)
    requires CellsHold(abi, layout, m.file.G(CpuReg(abi)), mem3, o, r)
    ensures Agree(abi, GuestFile(abi, layout, m.file.G(CpuReg(abi)), mem5), o, r)
  {
    var cpu := m.file.G(CpuReg(abi));
    assert !OwnCell(abi, layout, cpu, r, PcAddr(abi, m));
    assert CellsHold(abi, layout, cpu, mem5, o, r);
    GuestFileHolds(abi, layout, cpu, mem5, o, r);
  }

  lemma HostResult(abi: Abi, layout: Layout, used: seq<Register>, c: Register, s: Register, code: seq<int>, o: Outcome,
                   m: Machine, m3: Machine, m4: Machine, m5: Machine)
    requires WellPlaced(abi, layout, used, m) && StandInsUsable(abi, used, c, s)
    requires Wrapped(abi, layout, used, c, s, o, m, m3)
    requires PcAddr(abi, m3) == PcAddr(abi, m)
    requires PcUpdated(abi, PcStep(abi, code), m3, m4) && Advanced(abi, m4, m5)
    ensures HostDone(abi, layout, used, c, s, code, m, m5)
  {
    PcReady(abi, layout, used, c, s, o, m, m3);
    TailReady(abi, layout, used, c, s, o, m, m3);
    forall r | Saved(abi, r) && r != ChainReg(abi) && !Lost(abi, c, s, r) ensures Preserved(abi, r, m5.file, m.file) {
      assert Preserved(abi, r, m3.file, m.file);
      assert m5.file.V(r) == m3.file.V(r);
    }
  }

  // ---- a stand-in that is the chain register ----

  // The handler up to the line that advances the chain pointer.
  function UpToAdvance(abi: Abi, layout: Layout, used: seq<Register>, c: Register, s: Register,
                       code: seq<int>): seq<Insn> {
    var rs := SavedOrder(abi, used);
    Saves(abi, rs) + Body(abi, layout, used, c, s, code) + Restores(abi, rs)
    + (UpdatePc(abi, PcStep(abi, code)) + [AddImm(ChainReg(abi), 8)])
  }

  // If the chain register stands in for the CPU pointer, the handler advances the CPU pointer instead of the chain.
  lemma ChainLost(abi: Abi, layout: Layout, used: seq<Register>, s: Register, code: seq<int>, m: Machine, op: Effect)
    requires m.jump.None? && StandInsFit(abi, used, ChainReg(abi), s) && Footprint(abi, op, used)
    requires WellPlaced(abi, layout, used, m)
    ensures
      var res := Run(UpToAdvance(abi, layout, used, ChainReg(abi), s, code), m, op);
      res.Some? && res.value.file.G(ChainReg(abi)) == Wrap(m.file.G(CpuReg(abi)) + 8)
  {
    var (rs, c) := (SavedOrder(abi, used), ChainReg(abi));
    var p := Saves(abi, rs) + Body(abi, layout, used, c, s, code) + Restores(abi, rs);
    var m3 := WrappedReady(abi, layout, used, s, code, m, op, p);
    AdvancedAlone(abi, PcStep(abi, code), m3, op);
    RunAppend(p, UpdatePc(abi, PcStep(abi, code)) + [AddImm(c, 8)], m, op);
  }

  // Up to the tail the chain register holds the CPU pointer.
  lemma WrappedReady(abi: Abi, layout: Layout, used: seq<Register>, s: Register, code: seq<int>, m: Machine, op: Effect,
                     p: seq<Insn>)
    returns (m3: Machine)
    requires m.jump.None? && StandInsFit(abi, used, ChainReg(abi), s) && Footprint(abi, op, used)
    requires WellPlaced(abi, layout, used, m)
    requires p == Saves(abi, SavedOrder(abi, used)) + Body(abi, layout, used, ChainReg(abi), s, code)
               + Restores(abi, SavedOrder(abi, used))
    ensures Run(p, m, op) == Some(m3) && PcReadable(abi, m3) && m3.file.G(ChainReg(abi)) == m.file.G(CpuReg(abi))
  {
    var f := WrappedRun(abi, layout, used, ChainReg(abi), s, code, m, op);
    m3 := Run(p, m, op).value;
    PcReady(abi, layout, used, ChainReg(abi), s, op(f, m.heap), m, m3);
  }

  lemma AdvancedAlone(abi: Abi, len: nat, m: Machine, op: Effect)
    requires PcReadable(abi, m)
    ensures
      var res := Run(UpdatePc(abi, len) + [AddImm(ChainReg(abi), 8)], m, op);
      res.Some? && res.value.file.G(ChainReg(abi)) == Wrap(m.file.G(ChainReg(abi)) + 8)
  {
    var c := ChainReg(abi);
    UpdatePcRun(abi, len, m, op);
    var m4 := Run(UpdatePc(abi, len), m, op).value;
    assert SavedGpr(abi, c) && m4.file.G(c) == m.file.G(c);
    RunOne(AddImm(c, 8), m4, op);
    RunAppend(UpdatePc(abi, len), [AddImm(c, 8)], m, op);
  }

  lemma AdvancePrefix(abi: Abi, layout: Layout, used: seq<Register>, c: Register, s: Register, code: seq<int>)
    ensures UpToAdvance(abi, layout, used, c, s, code) <= Handler(abi, layout, used, c, s, code)
  {
    var rs := SavedOrder(abi, used);
    assert Advance(abi)[0] == AddImm(ChainReg(abi), 8);
    PrefixOf(Saves(abi, rs) + Body(abi, layout, used, c, s, code) + Restores(abi, rs),
             UpdatePc(abi, PcStep(abi, code)), Advance(abi));
  }

  lemma PrefixOf(p: seq<Insn>, u: seq<Insn>, a: seq<Insn>)
    requires a != []
    ensures p + (u + [a[0]]) <= p + (u + a)
  {
    assert p + (u + a) == (p + (u + [a[0]])) + a[1..];
  }
}
