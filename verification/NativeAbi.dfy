/**
 The three host conventions the generator knows: AAPCS64 (section 6.1), the System V AMD64 psABI
 (section 3.2.1) and the Microsoft x64 ABI, with the save, load, store and restore lines emitted
 for one register under each, and what running those lines does.
 */
module NativeAbi {
  import opened Words
  import opened HostMachine

  datatype Abi = AArch64 | SysV | Windows

  const X0: Register := 2
  const X1: Register := 3
  const X2: Register := 4
  const X16: Register := 18
  const X18: Register := 20
  const X19: Register := 21
  const X26: Register := 28
  const X27: Register := 29
  const X30: Register := 32
  const Q0: Register := 35
  const Q8: Register := 43
  const Q15: Register := 50
  const Q31: Register := 66

  const RBP: Register := 31
  const RAX: Register := 34
  const RBX: Register := 35
  const RCX: Register := 36
  const RDI: Register := 37
  const RDX: Register := 38
  const RSI: Register := 39
  const R8: Register := 40
  const R9: Register := 41
  const R10: Register := 42
  const R11: Register := 43
  const R12: Register := 44
  const R13: Register := 45
  const R14: Register := 46
  const R15: Register := 47
  const XMM0: Register := 71
  const XMM6: Register := 77
  const XMM15: Register := 86

  predicate IsGpr(abi: Abi, r: Register) {
    if abi.AArch64? then X0 <= r <= X30 else r == RBP || r == SP || RAX <= r <= R15
  }

  predicate IsVec(abi: Abi, r: Register) {
    if abi.AArch64? then Q0 <= r <= Q31 else XMM0 <= r <= XMM15
  }

  predicate SavedGpr(abi: Abi, r: Register) {
    match abi
    case AArch64 => X19 <= r <= X30
    case SysV => r == RBX || r == RBP || r == R12 || r == R13 || r == R14 || r == R15
    case Windows =>
      r == RBX || r == RBP || r == RDI || r == RSI || r == R12 || r == R13 || r == R14 || r == R15
  }

  // On AArch64 only the low half (d8-d15) is callee-saved.
  predicate SavedVec(abi: Abi, r: Register) {
    match abi
    case AArch64 => Q8 <= r <= Q15
    case SysV => false
    case Windows => XMM6 <= r <= XMM15
  }

  predicate Saved(abi: Abi, r: Register) { SavedGpr(abi, r) || SavedVec(abi, r) }

  function CpuReg(abi: Abi): Register { if abi.AArch64? then X26 else R12 }

  function ChainReg(abi: Abi): Register { if abi.AArch64? then X27 else R13 }

  // ---- saving and restoring host registers ----

  function SlotSize(abi: Abi, r: Register): nat {
    if abi.AArch64? || SavedVec(abi, r) then 16 else 8
  }

  function SaveLines(abi: Abi, r: Register): seq<Insn> {
    if SavedGpr(abi, r) then [Push(r, SlotSize(abi, r))]
    else if abi.AArch64? then [PushLow(r)]
    else [AddImm(SP, -16), StoreVec(r, SP, 0)]
  }

  function RestoreLines(abi: Abi, r: Register): seq<Insn> {
    if SavedGpr(abi, r) then [Pop(r, SlotSize(abi, r))]
    else if abi.AArch64? then [PopLow(r)]
    else [LoadVec(r, SP, 0), AddImm(SP, 16)]
  }

  function Saves(abi: Abi, rs: seq<Register>): seq<Insn> {
    if rs == [] then [] else SaveLines(abi, rs[0]) + Saves(abi, rs[1..])
  }

  function Restores(abi: Abi, rs: seq<Register>): seq<Insn> {
    if rs == [] then [] else Restores(abi, rs[1..]) + RestoreLines(abi, rs[0])
  }

  function Depth(abi: Abi, rs: seq<Register>): nat {
    if rs == [] then 0 else SlotSize(abi, rs[0]) + Depth(abi, rs[1..])
  }

  predicate AllSaved(abi: Abi, rs: seq<Register>) {
    forall r :: r in rs ==> Saved(abi, r)
  }

  predicate SlotMapped(abi: Abi, r: Register, mem: Memory, a: int) {
    0 <= a && a in mem && (SavedVec(abi, r) && !abi.AArch64? ==> a + 8 in mem)
  }

  // Every slot that saving rs below sp would use is mapped.
  predicate StackRoom(abi: Abi, rs: seq<Register>, mem: Memory, sp: int) {
    rs == [] ||
    (SlotMapped(abi, rs[0], mem, sp - SlotSize(abi, rs[0])) &&
     StackRoom(abi, rs[1..], mem, sp - SlotSize(abi, rs[0])))
  }

  // The callee-saved part of register r is the same in both files.
  predicate Preserved(abi: Abi, r: Register, f: File, g: File) {
    && (SavedGpr(abi, r) ==> f.G(r) == g.G(r))
    && (SavedVec(abi, r) ==> f.V(r).lo == g.V(r).lo)
    && (SavedVec(abi, r) && !abi.AArch64? ==> f.V(r).hi == g.V(r).hi)
  }

  predicate SlotHolds(abi: Abi, r: Register, mem: Memory, a: int, f: File) {
    && a in mem
    && (SavedGpr(abi, r) ==> mem[a] == f.G(r))
    && (SavedVec(abi, r) ==> mem[a] == f.V(r).lo)
    && (SavedVec(abi, r) && !abi.AArch64? ==> a + 8 in mem && mem[a + 8] == f.V(r).hi)
  }

  predicate StackHolds(abi: Abi, rs: seq<Register>, mem: Memory, sp: int, f: File) {
    rs == [] ||
    (SlotHolds(abi, rs[0], mem, sp - SlotSize(abi, rs[0]), f) &&
     StackHolds(abi, rs[1..], mem, sp - SlotSize(abi, rs[0]), f))
  }

  predicate SameOutside(mem: Memory, mem': Memory, lo: int, hi: int) {
    && mem.Keys == mem'.Keys
    && forall a :: a in mem && !(lo <= a < hi) ==> mem'[a] == mem[a]
  }

  predicate SameInside(mem: Memory, mem': Memory, lo: int, hi: int) {
    && mem.Keys == mem'.Keys
    && forall a :: a in mem && lo <= a < hi ==> mem'[a] == mem[a]
  }

  lemma {:induction false} StackHoldsFrame(abi: Abi, rs: seq<Register>, mem: Memory, mem': Memory, sp: int, f: File)
    requires StackHolds(abi, rs, mem, sp, f)
    requires SameInside(mem, mem', sp - Depth(abi, rs), sp)
    ensures StackHolds(abi, rs, mem', sp, f)
  {
    if rs != [] {
      StackHoldsFrame(abi, rs[1..], mem, mem', sp - SlotSize(abi, rs[0]), f);
    }
  }

  lemma {:induction false} StackRoomFrame(abi: Abi, rs: seq<Register>, mem: Memory, mem': Memory, sp: int)
    requires StackRoom(abi, rs, mem, sp) && mem'.Keys == mem.Keys
    ensures StackRoom(abi, rs, mem', sp)
  {
    if rs != [] {
      StackRoomFrame(abi, rs[1..], mem, mem', sp - SlotSize(abi, rs[0]));
    }
  }

  // The effect of saving one register: the stack pointer moves and its slot holds the register.
  ghost predicate SavedTo(abi: Abi, r: Register, m: Machine, res: Option<Machine>) {
    var sp := m.file.G(SP) - SlotSize(abi, r);
    && res.Some? && 0 <= sp
    && res.value.file == m.file.SetG(SP, sp)
    && res.value.heap == m.heap && res.value.jump.None?
    && SameOutside(m.mem, res.value.mem, sp, m.file.G(SP))
    && SlotHolds(abi, r, res.value.mem, sp, m.file)
  }

  lemma SaveOne(abi: Abi, r: Register, m: Machine, op: Effect)
    requires Saved(abi, r) && m.jump.None? && m.file.G(SP) < TWO64
    requires SlotMapped(abi, r, m.mem, m.file.G(SP) - SlotSize(abi, r))
    ensures SavedTo(abi, r, m, Run(SaveLines(abi, r), m, op))
  {
    var sp := m.file.G(SP) - SlotSize(abi, r);
    if SavedGpr(abi, r) {
      RunOne(Push(r, SlotSize(abi, r)), m, op);
      assert Step(Push(r, SlotSize(abi, r)), m, op)
          == Some(m.(file := m.file.SetG(SP, sp), mem := Put(m.mem, sp, m.file.G(r))));
    } else if abi.AArch64? {
      RunOne(PushLow(r), m, op);
      assert Step(PushLow(r), m, op) == Some(m.(file := m.file.SetG(SP, sp), mem := Put(m.mem, sp, m.file.V(r).lo)));
    } else {
      SavePair(abi, r, m, m.(file := m.file.SetG(SP, sp)), op, sp);
    }
  }

  lemma SavePair(abi: Abi, r: Register, m: Machine, m1: Machine, op: Effect, sp: int)
    requires SavedVec(abi, r) && !SavedGpr(abi, r) && !abi.AArch64? && m.jump.None? && m.file.G(SP) < TWO64
    requires sp == m.file.G(SP) - 16 && SlotMapped(abi, r, m.mem, sp) && m1 == m.(file := m.file.SetG(SP, sp))
    ensures SavedTo(abi, r, m, Run(SaveLines(abi, r), m, op))
  {
    StepAdd(SP, -16, m, op);
    StepStoreVec(r, SP, 0, m1, op);
    RunTwo(AddImm(SP, -16), StoreVec(r, SP, 0), m, m1, op);
  }

  // The effect of saving all of rs; f stands for the host file before any of the saves.
  ghost predicate SavedAll(abi: Abi, rs: seq<Register>, m: Machine, res: Option<Machine>, f: File) {
    var sp := m.file.G(SP) - Depth(abi, rs);
    && res.Some?
    && res.value.file.vec == m.file.vec && res.value.file.G(SP) == sp
    && (forall q :: q != SP ==> res.value.file.G(q) == m.file.G(q))
    && res.value.heap == m.heap && res.value.jump.None?
    && SameOutside(m.mem, res.value.mem, sp, m.file.G(SP))
    && StackHolds(abi, rs, res.value.mem, m.file.G(SP), f)
  }

  lemma SavedAllStep(abi: Abi, rs: seq<Register>, m: Machine, m1: Machine, res: Option<Machine>, f: File)
    requires rs != [] && Saved(abi, rs[0]) && rs[0] != SP
    requires f.vec == m.file.vec && forall q :: q != SP ==> f.G(q) == m.file.G(q)
    requires SavedTo(abi, rs[0], m, Some(m1))
    requires SavedAll(abi, rs[1..], m1, res, f)
    ensures SavedAll(abi, rs, m, res, f)
  {
    assert SlotHolds(abi, rs[0], res.value.mem, m.file.G(SP) - SlotSize(abi, rs[0]), f);
  }

  lemma {:induction false} SavesRun(abi: Abi, rs: seq<Register>, m: Machine, op: Effect, f: File)
    requires AllSaved(abi, rs) && m.jump.None? && SP !in rs
    requires StackRoom(abi, rs, m.mem, m.file.G(SP)) && m.file.G(SP) < TWO64
    requires f.vec == m.file.vec && forall q :: q != SP ==> f.G(q) == m.file.G(q)
    ensures SavedAll(abi, rs, m, Run(Saves(abi, rs), m, op), f)
  {
    if rs != [] {
      var r := rs[0];
      assert r in rs && forall q :: q in rs[1..] ==> q in rs;
      SaveOne(abi, r, m, op);
      var m1 := Run(SaveLines(abi, r), m, op).value;
      StackRoomFrame(abi, rs[1..], m.mem, m1.mem, m1.file.G(SP));
      SavesRun(abi, rs[1..], m1, op, f);
      RunAppend(SaveLines(abi, r), Saves(abi, rs[1..]), m, op);
      SavedAllStep(abi, rs, m, m1, Run(Saves(abi, rs[1..]), m1, op), f);
    }
  }

  lemma RestoreOne(abi: Abi, r: Register, m: Machine, op: Effect, f: File)
    requires Saved(abi, r) && m.jump.None? && r != SP && 0 <= m.file.G(SP)
    requires SlotHolds(abi, r, m.mem, m.file.G(SP), f)
    requires m.file.G(SP) + SlotSize(abi, r) < TWO64
    ensures
      var res := Run(RestoreLines(abi, r), m, op);
      && res.Some?
      && res.value.mem == m.mem && res.value.heap == m.heap && res.value.jump.None?
      && res.value.file.G(SP) == m.file.G(SP) + SlotSize(abi, r)
      && (forall q :: q != SP && q != r ==> res.value.file.G(q) == m.file.G(q))
      && (forall q :: q != r ==> res.value.file.V(q) == m.file.V(q))
      && (!SavedGpr(abi, r) ==> res.value.file.G(r) == m.file.G(r))
      && (!SavedVec(abi, r) ==> res.value.file.V(r) == m.file.V(r))
      && Preserved(abi, r, res.value.file, f)
  {
    var sp, n := m.file.G(SP), SlotSize(abi, r);
    if SavedGpr(abi, r) {
      RunOne(Pop(r, n), m, op);
      assert Step(Pop(r, n), m, op) == Some(m.(file := m.file.SetG(SP, sp + n).SetG(r, m.mem[sp])));
    } else if abi.AArch64? {
      RunOne(PopLow(r), m, op);
      assert Step(PopLow(r), m, op) == Some(m.(file := m.file.SetG(SP, sp + n).SetV(r, Vec(m.mem[sp], 0))));
    } else {
      var m1 := m.(file := m.file.SetV(r, Vec(m.mem[sp], m.mem[sp + 8])));
      RunTwo(LoadVec(r, SP, 0), AddImm(SP, 16), m, m1, op);
      assert Step(AddImm(SP, 16), m1, op) == Some(m1.(file := m1.file.SetG(SP, sp + n)));
    }
  }

  // Popping in reverse order gives every saved register back and changes nothing else.
  lemma {:induction false} RestoresRun(abi: Abi, rs: seq<Register>, m: Machine, op: Effect, sp: int, f: File)
    requires AllSaved(abi, rs) && m.jump.None? && SP !in rs && Depth(abi, rs) <= sp < TWO64
    requires m.file.G(SP) == sp - Depth(abi, rs)
    requires StackHolds(abi, rs, m.mem, sp, f)
    ensures
      var res := Run(Restores(abi, rs), m, op);
      && res.Some?
      && res.value.mem == m.mem && res.value.heap == m.heap && res.value.jump.None?
      && res.value.file.G(SP) == sp
      && (forall q :: q != SP && q !in rs ==> res.value.file.G(q) == m.file.G(q))
      && (forall q :: q !in rs ==> res.value.file.V(q) == m.file.V(q))
      && (forall q :: q in rs ==> Preserved(abi, q, res.value.file, f))
  {
    if rs != [] {
      var r := rs[0];
      var n := SlotSize(abi, r);
      assert r in rs && forall q :: q in rs <==> q == r || q in rs[1..];
      RestoresRun(abi, rs[1..], m, op, sp - n, f);
      var m1 := Run(Restores(abi, rs[1..]), m, op).value;
      RestoreOne(abi, r, m1, op, f);
      var m2 := Run(RestoreLines(abi, r), m1, op).value;
      RunAppend(Restores(abi, rs[1..]), RestoreLines(abi, r), m, op);
      forall q | q in rs ensures Preserved(abi, q, m2.file, f) {
        if q != r { assert Preserved(abi, q, m1.file, f); }
      }
    }
  }

  // ---- moving guest registers between the CPU state and the host ----

  // The byte offset of each guest register within the CPU state.
  type Layout = map<Register, int>

  function Off(layout: Layout, r: Register): int { if r in layout then layout[r] else 0 }

  predicate OwnCell(abi: Abi, layout: Layout, cpu: int, r: Register, a: int) {
    || (IsGpr(abi, r) && a == cpu + Off(layout, r))
    || (IsVec(abi, r) && (a == cpu + Off(layout, r) || a == cpu + Off(layout, r) + 8))
  }

  ghost predicate CellsMapped(abi: Abi, layout: Layout, cpu: int, mem: Memory) {
    forall r, a :: OwnCell(abi, layout, cpu, r, a) ==> 0 <= a < TWO64 && a in mem
  }

  ghost predicate CellsSeparate(abi: Abi, layout: Layout, cpu: int) {
    forall r, q, a :: OwnCell(abi, layout, cpu, r, a) && OwnCell(abi, layout, cpu, q, a) ==> r == q
  }

  function LoadLines(abi: Abi, layout: Layout, base: Register, r: Register): seq<Insn> {
    if IsGpr(abi, r) then [Load(r, base, Off(layout, r))]
    else if IsVec(abi, r) then [LoadVec(r, base, Off(layout, r))]
    else []
  }

  function StoreLines(abi: Abi, layout: Layout, base: Register, r: Register): seq<Insn> {
    if IsGpr(abi, r) then [Store(r, base, Off(layout, r))]
    else if IsVec(abi, r) then [StoreVec(r, base, Off(layout, r))]
    else []
  }

  function Loads(abi: Abi, layout: Layout, base: Register, rs: seq<Register>): seq<Insn> {
    if rs == [] then [] else LoadLines(abi, layout, base, rs[0]) + Loads(abi, layout, base, rs[1..])
  }

  function Stores(abi: Abi, layout: Layout, base: Register, rs: seq<Register>): seq<Insn> {
    if rs == [] then [] else StoreLines(abi, layout, base, rs[0]) + Stores(abi, layout, base, rs[1..])
  }

  // The cells of register r hold its value in file f.
  predicate CellsHold(abi: Abi, layout: Layout, cpu: int, mem: Memory, f: File, r: Register) {
    && (IsGpr(abi, r) ==> At(mem, cpu + Off(layout, r)) == f.G(r))
    && (IsVec(abi, r) ==> At(mem, cpu + Off(layout, r)) == f.V(r).lo && At(mem, cpu + Off(layout, r) + 8) == f.V(r).hi)
  }

  // Loading the registers rs from memory leaves every other register alone.
  ghost predicate LoadedAll(abi: Abi, layout: Layout, cpu: int, rs: seq<Register>, mem: Memory, f: File, f': File) {
    && (forall r :: r !in rs ==> f'.G(r) == f.G(r) && f'.V(r) == f.V(r))
    && (forall r :: r in rs ==> CellsHold(abi, layout, cpu, mem, f', r))
  }

  lemma LoadOne(abi: Abi, layout: Layout, base: Register, r: Register, m: Machine, op: Effect)
    requires m.jump.None? && CellsMapped(abi, layout, m.file.G(base), m.mem)
    ensures
      var res := Run(LoadLines(abi, layout, base, r), m, op);
      && res.Some? && res.value == m.(file := res.value.file)
      && (forall q :: q != r ==> res.value.file.G(q) == m.file.G(q) && res.value.file.V(q) == m.file.V(q))
      && CellsHold(abi, layout, m.file.G(base), m.mem, res.value.file, r)
  {
    var cpu := m.file.G(base);
    if IsGpr(abi, r) {
      assert OwnCell(abi, layout, cpu, r, cpu + Off(layout, r));
      StepLoad(r, base, Off(layout, r), m, op);
      RunOne(Load(r, base, Off(layout, r)), m, op);
    } else if IsVec(abi, r) {
      assert OwnCell(abi, layout, cpu, r, cpu + Off(layout, r));
      assert OwnCell(abi, layout, cpu, r, cpu + Off(layout, r) + 8);
      StepLoadVec(r, base, Off(layout, r), m, op);
      RunOne(LoadVec(r, base, Off(layout, r)), m, op);
    }
  }

  lemma {:induction false} LoadsRun(abi: Abi, layout: Layout, base: Register, rs: seq<Register>, m: Machine, op: Effect)
    requires m.jump.None? && base !in rs
    requires CellsMapped(abi, layout, m.file.G(base), m.mem)
    ensures
      var res := Run(Loads(abi, layout, base, rs), m, op);
      && res.Some? && res.value == m.(file := res.value.file)
      && LoadedAll(abi, layout, m.file.G(base), rs, m.mem, m.file, res.value.file)
    decreases |rs|
  {
    if rs != [] {
      var r, q := rs[0], rs[1..];
      assert forall s :: s in rs <==> s == r || s in q;
      var p := LoadLines(abi, layout, base, r);
      LoadOne(abi, layout, base, r, m, op);
      var m1 := Run(p, m, op).value;
      LoadsRun(abi, layout, base, q, m1, op);
      RunAppend(p, Loads(abi, layout, base, q), m, op);
      var f := Run(Loads(abi, layout, base, q), m1, op).value.file;
      assert r !in q ==> CellsHold(abi, layout, m.file.G(base), m.mem, f, r);
    }
  }

  predicate InCells(abi: Abi, layout: Layout, cpu: int, rs: seq<Register>, a: int) {
    exists r :: r in rs && OwnCell(abi, layout, cpu, r, a)
  }

  // Storing register r of file f changes exactly the cells r owns.
  ghost predicate StoredOne(abi: Abi, layout: Layout, cpu: int, r: Register, f: File, mem: Memory, mem': Memory) {
    && mem'.Keys == mem.Keys
    && (forall a :: a in mem && !OwnCell(abi, layout, cpu, r, a) ==> mem'[a] == mem[a])
    && CellsHold(abi, layout, cpu, mem', f, r)
  }

  lemma StoreOne(abi: Abi, layout: Layout, base: Register, r: Register, m: Machine, op: Effect)
    requires m.jump.None? && CellsMapped(abi, layout, m.file.G(base), m.mem)
    ensures
      var res := Run(StoreLines(abi, layout, base, r), m, op);
      && res.Some? && res.value == m.(mem := res.value.mem)
      && StoredOne(abi, layout, m.file.G(base), r, m.file, m.mem, res.value.mem)
  {
    var cpu := m.file.G(base);
    if IsGpr(abi, r) {
      assert OwnCell(abi, layout, cpu, r, cpu + Off(layout, r));
      StepStore(r, base, Off(layout, r), m, op);
      RunOne(Store(r, base, Off(layout, r)), m, op);
    } else if IsVec(abi, r) {
      assert OwnCell(abi, layout, cpu, r, cpu + Off(layout, r));
      assert OwnCell(abi, layout, cpu, r, cpu + Off(layout, r) + 8);
      StepStoreVec(r, base, Off(layout, r), m, op);
      RunOne(StoreVec(r, base, Off(layout, r)), m, op);
    }
  }

  ghost predicate StoredAll(abi: Abi, layout: Layout, cpu: int, rs: seq<Register>, f: File, mem: Memory, mem': Memory) {
    && mem'.Keys == mem.Keys
    && (forall a :: a in mem && !InCells(abi, layout, cpu, rs, a) ==> mem'[a] == mem[a])
    && (forall r :: r in rs ==> CellsHold(abi, layout, cpu, mem', f, r))
  }

  lemma StoredAllStep(abi: Abi, layout: Layout, cpu: int, rs: seq<Register>, f: File, mem: Memory, mem1: Memory,
                      mem2: Memory)
    requires rs != [] && CellsSeparate(abi, layout, cpu) && CellsMapped(abi, layout, cpu, mem)
    requires StoredOne(abi, layout, cpu, rs[0], f, mem, mem1)
    requires StoredAll(abi, layout, cpu, rs[1..], f, mem1, mem2)
    ensures StoredAll(abi, layout, cpu, rs, f, mem, mem2)
  {
    var r, q := rs[0], rs[1..];
    assert forall s :: s in rs <==> s == r || s in q;
    forall a | a in mem && !InCells(abi, layout, cpu, rs, a) ensures mem2[a] == mem[a] {
      assert r in rs ==> !OwnCell(abi, layout, cpu, r, a);
      assert !InCells(abi, layout, cpu, q, a);
    }
    if r !in q {
      StoredStays(abi, layout, cpu, r, q, mem1, mem2, f);
    }
  }

  lemma {:induction false} StoresRun(abi: Abi, layout: Layout, base: Register, rs: seq<Register>, m: Machine,
                                     op: Effect)
    requires m.jump.None? && CellsMapped(abi, layout, m.file.G(base), m.mem)
    requires CellsSeparate(abi, layout, m.file.G(base))
    ensures
      var res := Run(Stores(abi, layout, base, rs), m, op);
      && res.Some? && res.value == m.(mem := res.value.mem)
      && StoredAll(abi, layout, m.file.G(base), rs, m.file, m.mem, res.value.mem)
    decreases |rs|
  {
    if rs != [] {
      var p := StoreLines(abi, layout, base, rs[0]);
      StoreOne(abi, layout, base, rs[0], m, op);
      var m1 := Run(p, m, op).value;
      StoresRun(abi, layout, base, rs[1..], m1, op);
      RunAppend(p, Stores(abi, layout, base, rs[1..]), m, op);
      var m2 := Run(Stores(abi, layout, base, rs[1..]), m1, op).value;
      StoredAllStep(abi, layout, m.file.G(base), rs, m.file, m.mem, m1.mem, m2.mem);
    }
  }

  // A register outside qs keeps its cells while the cells of qs are written.
  lemma StoredStays(abi: Abi, layout: Layout, cpu: int, r: Register, qs: seq<Register>, mem: Memory, mem': Memory,
                    f: File)
    requires CellsSeparate(abi, layout, cpu) && CellsMapped(abi, layout, cpu, mem)
    requires r !in qs && mem'.Keys == mem.Keys
    requires forall a :: a in mem && !InCells(abi, layout, cpu, qs, a) ==> mem'[a] == mem[a]
    requires CellsHold(abi, layout, cpu, mem, f, r)
    ensures CellsHold(abi, layout, cpu, mem', f, r)
  {
    forall a | OwnCell(abi, layout, cpu, r, a) ensures a in mem && mem'[a] == mem[a] {
      assert forall q :: q in qs ==> !OwnCell(abi, layout, cpu, q, a);
    }
    assert IsGpr(abi, r) ==> OwnCell(abi, layout, cpu, r, cpu + Off(layout, r));
    assert IsVec(abi, r) ==> OwnCell(abi, layout, cpu, r, cpu + Off(layout, r)) && OwnCell(abi, layout, cpu, r,
        cpu + Off(layout, r) + 8);
  }

  // ---- the guest register file ----

  // The guest register file, as the CPU state in memory holds it.
  function GuestFile(abi: Abi, layout: Layout, cpu: int, mem: Memory): File {
    File(Cell(map r | 0 <= r < 128 && IsGpr(abi, r) :: At(mem, cpu + Off(layout, r))),
         Cell(map r | 0 <= r < 128 && IsVec(abi, r) ::
                Vec(At(mem, cpu + Off(layout, r)), At(mem, cpu + Off(layout, r) + 8))))
  }

  predicate Agree(abi: Abi, f: File, g: File, r: Register) {
    && (IsGpr(abi, r) ==> f.G(r) == g.G(r))
    && (IsVec(abi, r) ==> f.V(r) == g.V(r))
  }

  lemma GuestFileHolds(abi: Abi, layout: Layout, cpu: int, mem: Memory, f: File, r: Register)
    ensures CellsHold(abi, layout, cpu, mem, f, r) <==> Agree(abi, f, GuestFile(abi, layout, cpu, mem), r)
  {
    var g := GuestFile(abi, layout, cpu, mem);
    assert IsGpr(abi, r) ==> g.G(r) == At(mem, cpu + Off(layout, r));
    assert IsVec(abi, r) ==> g.V(r) == Vec(At(mem, cpu + Off(layout, r)), At(mem, cpu + Off(layout, r) + 8));
  }
}
