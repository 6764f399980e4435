/**
 Straight-line chains of the native handlers of src/Lifter.cpp: the slot array holds the address of each
 handler in its low 59 bits, and every handler ends by jumping through the next slot. Running a chain
 leaves the guest as its opcodes would one after the other.
 */
module NativeChain {
  import opened Words
  import opened HostMachine
  import opened NativeAbi
  import opened NativeHandler
  import opened NativeGenerator

  // A generated handler, and what its opcode does.
  datatype Native = Native(used: seq<Register>, c: Register, s: Register, code: seq<int>, op: Effect)

  // Handlers by the address of their first line.
  type CodeMap = map<int, Native>

  function Enter(abi: Abi, layout: Layout, h: Native, m: Machine): Option<Machine> {
    Run(Handler(abi, layout, h.used, h.c, h.s, h.code), m.(jump := None), h.op)
  }

  // n handlers in a row, each found where the last one jumped; None when there is no handler or one is stuck.
  function RunChain(abi: Abi, layout: Layout, code: CodeMap, n: nat, m: Machine): Option<Machine>
    decreases n
  {
    if n == 0 then Some(m)
    else if m.jump.None? || m.jump.value !in code then None
    else match Enter(abi, layout, code[m.jump.value], m)
      case None => None
      case Some(m') => RunChain(abi, layout, code, n - 1, m')
  }

  // ---- what a chain needs ----

  ghost predicate Sound(abi: Abi, h: Native) {
    StandInsOk(abi, h.used, h.c, h.s) && Footprint(abi, h.op, h.used)
  }

  ghost predicate AllSound(abi: Abi, hs: seq<Native>) { forall i :: 0 <= i < |hs| ==> Sound(abi, hs[i]) }

  // Where the CPU state, the pc, the slot and the stack from lo to sp are.
  datatype Place = Place(cpu: int, pc: int, chain: int, lo: int, sp: int) {
    function Slot(i: nat): int { chain + 8 * i }
    function Next(): Place { this.(chain := chain + 8) }
  }

  // The registers that hold these addresses.
  predicate HeldBy(abi: Abi, w: Place, f: File) {
    f.G(CpuReg(abi)) == w.cpu && f.G(SP) == w.sp && f.G(ChainReg(abi)) == w.chain
  }

  // Words that neither the cells nor the stack nor the pc overlap.
  ghost predicate Outside(abi: Abi, layout: Layout, w: Place, a: int) {
    a != w.pc && !(w.lo <= a < w.sp) && forall r :: !OwnCell(abi, layout, w.cpu, r, a)
  }

  ghost predicate SlotOk(abi: Abi, layout: Layout, w: Place, mem: Memory, a: int) {
    Outside(abi, layout, w, a) && 0 <= a < TWO64 && a in mem && 0 <= At(mem, a) < TWO64
  }

  // The private memory of the virtual machine, apart from the slots.
  ghost predicate StatePlaced(abi: Abi, layout: Layout, w: Place, mem: Memory) {
    && 0 <= w.lo <= w.sp < TWO64
    && CellsMapped(abi, layout, w.cpu, mem) && CellsSeparate(abi, layout, w.cpu)
    && (forall r, a :: OwnCell(abi, layout, w.cpu, r, a) ==> !(w.lo <= a < w.sp))
    && SlotOk(abi, layout, w, mem, w.cpu - 16) && At(mem, w.cpu - 16) == w.pc
    && Private(abi, layout, w.cpu, mem, w.lo, w.sp, w.pc)
  }

  ghost predicate FitsStack(abi: Abi, h: Native, w: Place, mem: Memory) {
    StackRoom(abi, SavedOrder(abi, h.used), mem, w.sp) && Depth(abi, SavedOrder(abi, h.used)) <= w.sp - w.lo
  }

  // Room for every handler of the chain, and its slots together with the one behind it.
  ghost predicate ChainPlaced(abi: Abi, layout: Layout, hs: seq<Native>, w: Place, mem: Memory) {
    && StatePlaced(abi, layout, w, mem)
    && (forall i :: 0 <= i < |hs| ==> FitsStack(abi, hs[i], w, mem))
    && (forall i :: 0 <= i <= |hs| ==> SlotOk(abi, layout, w, mem, w.Slot(i)))
  }

  function EntryAt(mem: Memory, a: int): int { At(mem, a) % 0x800_0000_0000_0000 }

  ghost predicate LinkedAt(code: CodeMap, h: Native, mem: Memory, a: int) {
    EntryAt(mem, a) in code && code[EntryAt(mem, a)] == h
  }

  // The slots from the chain pointer on hold the addresses of these handlers.
  ghost predicate Linked(code: CodeMap, hs: seq<Native>, w: Place, mem: Memory) {
    forall i :: 0 <= i < |hs| ==> LinkedAt(code, hs[i], mem, w.Slot(i))
  }

  // Control is passing to the handler in the current slot, with its three arguments.
  ghost predicate Entering(abi: Abi, w: Place, m: Machine) {
    && HeldBy(abi, w, m.file) && m.jump == Some(EntryAt(m.mem, w.chain))
    && m.file.G(ArgState(abi)) == w.cpu && m.file.G(ArgVmAddr(abi)) == At(m.mem, w.pc)
    && m.file.G(ArgInsn(abi)) == w.chain
  }

  // ---- one handler of the chain ----

  // The first handler of a placed chain is well placed: its stack is part of the common one.
  lemma OwnStack(abi: Abi, layout: Layout, h: Native, w: Place, m: Machine)
    requires HeldBy(abi, w, m.file) && StatePlaced(abi, layout, w, m.mem) && FitsStack(abi, h, w, m.mem)
    requires SlotOk(abi, layout, w, m.mem, w.chain + 8)
    ensures WellPlaced(abi, layout, h.used, m)
  {
    var low := w.sp - Depth(abi, SavedOrder(abi, h.used));
    PrivateSlot(abi, layout, w, m.mem, low, w.cpu - 16);
    PrivateSlot(abi, layout, w, m.mem, low, w.chain + 8);
  }

  lemma PrivateSlot(abi: Abi, layout: Layout, w: Place, mem: Memory, low: int, a: int)
    requires SlotOk(abi, layout, w, mem, a) && w.lo <= low
    ensures Private(abi, layout, w.cpu, mem, low, w.sp, a)
  {
  }

  ghost predicate SameElsewhere(abi: Abi, layout: Layout, w: Place, mem: Memory, mem': Memory) {
    mem'.Keys == mem.Keys && forall a :: Outside(abi, layout, w, a) ==> At(mem', a) == At(mem, a)
  }

  ghost predicate SavedKept(abi: Abi, f: File, f': File) {
    forall r :: Saved(abi, r) && r != ChainReg(abi) ==> Preserved(abi, r, f', f)
  }

  ghost predicate AgreeAll(abi: Abi, f: File, g: File) { forall r :: Agree(abi, f, g, r) }

  // The guest registers and heap of m' are those of o.
  ghost predicate GuestIs(abi: Abi, layout: Layout, cpu: int, o: Outcome, m': Machine) {
    m'.heap == o.heap && AgreeAll(abi, GuestFile(abi, layout, cpu, m'.mem), o.file)
  }

  // One handler, seen from the chain: it started with registers f, memory mem and this heap.
  ghost predicate Stepped(abi: Abi, layout: Layout, h: Native, w: Place, f: File, mem: Memory, heap: Heap,
                          m': Machine) {
    && GuestIs(abi, layout, w.cpu, h.op(GuestFile(abi, layout, w.cpu, mem), heap), m')
    && SameElsewhere(abi, layout, w, mem, m'.mem) && SavedKept(abi, f, m'.file)
    && At(m'.mem, w.pc) == Wrap(At(mem, w.pc) + PcStep(abi, h.code))
    && Entering(abi, w.Next(), m')
  }

  lemma HandlerSteps(abi: Abi, layout: Layout, h: Native, w: Place, m: Machine)
    requires Sound(abi, h) && HeldBy(abi, w, m.file) && StatePlaced(abi, layout, w, m.mem)
    requires FitsStack(abi, h, w, m.mem) && SlotOk(abi, layout, w, m.mem, w.chain + 8)
    ensures
      var res := Enter(abi, layout, h, m);
      res.Some? && Stepped(abi, layout, h, w, m.file, m.mem, m.heap, res.value)
  {
    var m0 := m.(jump := None);
    OwnStack(abi, layout, h, w, m0);
    HandlerRuns(abi, layout, h.used, h.c, h.s, h.code, m0, h.op);
    RunStepped(abi, layout, h, w, m0, Enter(abi, layout, h, m).value);
  }

  lemma RunStepped(abi: Abi, layout: Layout, h: Native, w: Place, m: Machine, m': Machine)
    requires HeldBy(abi, w, m.file) && w.pc == PcAddr(abi, m) && StandInsOk(abi, h.used, h.c, h.s)
    requires Depth(abi, SavedOrder(abi, h.used)) <= w.sp - w.lo && Outside(abi, layout, w, w.chain + 8)
    requires Simulates(abi, layout, h.used, h.c, h.s, h.code, h.op, m, m')
    ensures Stepped(abi, layout, h, w, m.file, m.mem, m.heap, m')
  {
    GuestStepped(abi, layout, h, w, m, m');
    MemoryKept(abi, layout, h, w, m, m');
    RegistersKept(abi, layout, h, m, m');
    ControlPassed(abi, layout, h, w, m, m');
  }

  lemma GuestStepped(abi: Abi, layout: Layout, h: Native, w: Place, m: Machine, m': Machine)
    requires HeldBy(abi, w, m.file) && GuestDone(abi, layout, h.op, m, m')
    ensures GuestIs(abi, layout, w.cpu, h.op(GuestFile(abi, layout, w.cpu, m.mem), m.heap), m')
  {
  }

  lemma MemoryKept(abi: Abi, layout: Layout, h: Native, w: Place, m: Machine, m': Machine)
    requires HeldBy(abi, w, m.file) && w.pc == PcAddr(abi, m)
    requires HostDone(abi, layout, h.used, h.c, h.s, h.code, m, m')
    requires Depth(abi, SavedOrder(abi, h.used)) <= w.sp - w.lo
    ensures SameElsewhere(abi, layout, w, m.mem, m'.mem)
  {
    forall a | Outside(abi, layout, w, a) ensures At(m'.mem, a) == At(m.mem, a) {
      assert !InCells(abi, layout, w.cpu, h.used, a);
    }
  }

  lemma RegistersKept(abi: Abi, layout: Layout, h: Native, m: Machine, m': Machine)
    requires HostDone(abi, layout, h.used, h.c, h.s, h.code, m, m') && StandInsOk(abi, h.used, h.c, h.s)
    ensures SavedKept(abi, m.file, m'.file)
  {
    forall r | Saved(abi, r) && r != ChainReg(abi) ensures Preserved(abi, r, m'.file, m.file) {
      assert !Lost(abi, h.c, h.s, r);
    }
  }

  // The next slot is left alone, so control passes to the handler it holds now.
  lemma ControlPassed(abi: Abi, layout: Layout, h: Native, w: Place, m: Machine, m': Machine)
    requires HeldBy(abi, w, m.file) && w.pc == PcAddr(abi, m)
    requires HostDone(abi, layout, h.used, h.c, h.s, h.code, m, m') && SavedKept(abi, m.file, m'.file)
    requires Outside(abi, layout, w, w.chain + 8) && SameElsewhere(abi, layout, w, m.mem, m'.mem)
    ensures At(m'.mem, w.pc) == Wrap(At(m.mem, w.pc) + PcStep(abi, h.code)) && Entering(abi, w.Next(), m')
  {
    assert Saved(abi, CpuReg(abi)) && Preserved(abi, CpuReg(abi), m'.file, m.file);
  }

  // ---- the rest of the chain ----

  // What is placed stays placed.
  lemma StateAfter(abi: Abi, layout: Layout, w: Place, mem: Memory, mem': Memory)
    requires StatePlaced(abi, layout, w, mem) && SameElsewhere(abi, layout, w, mem, mem')
    ensures StatePlaced(abi, layout, w.Next(), mem')
  {
    SlotAfter(abi, layout, w, mem, mem', w.cpu - 16);
  }

  lemma SlotAfter(abi: Abi, layout: Layout, w: Place, mem: Memory, mem': Memory, a: int)
    requires SlotOk(abi, layout, w, mem, a) && SameElsewhere(abi, layout, w, mem, mem')
    ensures SlotOk(abi, layout, w.Next(), mem', a) && At(mem', a) == At(mem, a)
  {
  }

  lemma StackAfter(abi: Abi, h: Native, w: Place, mem: Memory, mem': Memory)
    requires FitsStack(abi, h, w, mem) && mem'.Keys == mem.Keys
    ensures FitsStack(abi, h, w.Next(), mem')
  {
    StackRoomFrame(abi, SavedOrder(abi, h.used), mem, mem', w.sp);
  }

  // The rest of the chain is ready when its first handler is done.
  lemma RestReady(abi: Abi, layout: Layout, code: CodeMap, hs: seq<Native>, w: Place, mem: Memory, mem': Memory)
    requires hs != [] && ChainPlaced(abi, layout, hs, w, mem) && Linked(code, hs, w, mem)
    requires SameElsewhere(abi, layout, w, mem, mem')
    ensures ChainPlaced(abi, layout, hs[1..], w.Next(), mem') && Linked(code, hs[1..], w.Next(), mem')
  {
    var w' := w.Next();
    StateAfter(abi, layout, w, mem, mem');
    forall i | 0 <= i <= |hs| - 1
      ensures SlotOk(abi, layout, w', mem', w'.Slot(i)) && At(mem', w'.Slot(i)) == At(mem, w'.Slot(i))
    {
      assert w'.Slot(i) == w.Slot(i + 1);
      SlotAfter(abi, layout, w, mem, mem', w.Slot(i + 1));
    }
    forall i | 0 <= i < |hs| - 1
      ensures FitsStack(abi, hs[1..][i], w', mem') && LinkedAt(code, hs[1..][i], mem', w'.Slot(i))
    {
      StackAfter(abi, hs[i + 1], w, mem, mem');
      assert w'.Slot(i) == w.Slot(i + 1) && LinkedAt(code, hs[i + 1], mem, w.Slot(i + 1));
    }
  }

  // ---- the opcodes one after the other ----

  function Effects(hs: seq<Native>, f: File, heap: Heap): Outcome {
    if hs == [] then Outcome(f, heap) else Effects(hs[1..], hs[0].op(f, heap).file, hs[0].op(f, heap).heap)
  }

  lemma EffectAgrees(abi: Abi, h: Native, f: File, g: File, heap: Heap)
    requires Footprint(abi, h.op, h.used) && AgreeAll(abi, f, g)
    ensures h.op(f, heap).heap == h.op(g, heap).heap && AgreeAll(abi, h.op(f, heap).file, h.op(g, heap).file)
  {
    assert AgreeOn(abi, f, g, h.used);
    assert AgreeOn(abi, h.op(f, heap).file, h.op(g, heap).file, h.used);
    forall r ensures Agree(abi, h.op(f, heap).file, h.op(g, heap).file, r) {
      assert Agree(abi, f, g, r);
    }
  }

  // Opcodes cannot tell register files apart that agree on the guest registers.
  lemma {:induction false} EffectsAgree(abi: Abi, hs: seq<Native>, f: File, g: File, heap: Heap)
    requires AllSound(abi, hs) && AgreeAll(abi, f, g)
    ensures Effects(hs, f, heap).heap == Effects(hs, g, heap).heap
    ensures AgreeAll(abi, Effects(hs, f, heap).file, Effects(hs, g, heap).file)
  {
    if hs != [] {
      assert Sound(abi, hs[0]);
      EffectAgrees(abi, hs[0], f, g, heap);
      EffectsAgree(abi, hs[1..], hs[0].op(f, heap).file, hs[0].op(g, heap).file, hs[0].op(f, heap).heap);
    }
  }

  lemma GuestStep(abi: Abi, layout: Layout, hs: seq<Native>, cpu: int, g: File, heap: Heap, m1: Machine, m2: Machine)
    requires hs != [] && AllSound(abi, hs) && GuestIs(abi, layout, cpu, hs[0].op(g, heap), m1)
    requires GuestIs(abi, layout, cpu, Effects(hs[1..], GuestFile(abi, layout, cpu, m1.mem), m1.heap), m2)
    ensures GuestIs(abi, layout, cpu, Effects(hs, g, heap), m2)
  {
    var (f1, o1) := (GuestFile(abi, layout, cpu, m1.mem), hs[0].op(g, heap));
    EffectsAgree(abi, hs[1..], f1, o1.file, m1.heap);
    AgreeTwice(abi, GuestFile(abi, layout, cpu, m2.mem), Effects(hs[1..], f1, m1.heap).file,
               Effects(hs[1..], o1.file, m1.heap).file);
  }

  lemma AgreeTwice(abi: Abi, f: File, g: File, h: File)
    requires AgreeAll(abi, f, g) && AgreeAll(abi, g, h)
    ensures AgreeAll(abi, f, h)
  {
    forall r ensures Agree(abi, f, h, r) {
      assert Agree(abi, f, g, r) && Agree(abi, g, h, r);
    }
  }

  // ---- the pc ----

  function TotalStep(abi: Abi, hs: seq<Native>): nat {
    if hs == [] then 0 else PcStep(abi, hs[0].code) + TotalStep(abi, hs[1..])
  }

  // w' is w plus n on 64 bits; a chain of no handlers does not touch the pc.
  predicate PcMoved(moved: bool, w: int, n: nat, w': int) { w' == if moved then Wrap(w + n) else w }

  lemma PcStepped(w: int, a: nat, b: nat, w1: int, w2: int, more: bool)
    requires w1 == Wrap(w + a) && PcMoved(more, w1, b, w2) && (!more ==> b == 0)
    ensures PcMoved(true, w, a + b, w2)
  {
    if more { WrapTwice(w, a, b); }
  }

  lemma WrapTwice(w: int, a: nat, b: nat)
    ensures Wrap(Wrap(w + a) + b) == Wrap(w + (a + b))
  {
    WrapIsMod(w + a);
    WrapIsMod(Wrap(w + a) + b);
    WrapIsMod(w + (a + b));
  }

  lemma WrapIsMod(x: int)
    ensures Wrap(x) == x % TWO64
  {
  }

  // ---- the whole chain ----

  /**
   The chain ran from m to m': the guest is as after its opcodes, the pc advanced by the sum of their
   lengths, callee-saved registers and the rest of memory are kept, and control passes with its arguments
   to the handler in the slot behind the chain.
   */
  ghost predicate ChainDone(abi: Abi, layout: Layout, hs: seq<Native>, w: Place, m: Machine, m': Machine) {
    && GuestIs(abi, layout, w.cpu, Effects(hs, GuestFile(abi, layout, w.cpu, m.mem), m.heap), m')
    && HostAfter(abi, layout, |hs|, TotalStep(abi, hs), w, m, m')
  }

  ghost predicate HostAfter(abi: Abi, layout: Layout, n: nat, total: nat, w: Place, m: Machine, m': Machine) {
    && SavedKept(abi, m.file, m'.file) && SameElsewhere(abi, layout, w, m.mem, m'.mem)
    && PcMoved(n > 0, At(m.mem, w.pc), total, At(m'.mem, w.pc))
    && Entering(abi, w.(chain := w.Slot(n)), m')
  }

  // A chain that goes on after its first handler.
  lemma HostStep(abi: Abi, layout: Layout, n: nat, step: nat, rest: nat, w: Place, m: Machine, m1: Machine,
                 m2: Machine)
    requires n > 0 && (n == 1 ==> rest == 0)
    requires SavedKept(abi, m.file, m1.file) && SameElsewhere(abi, layout, w, m.mem, m1.mem)
    requires At(m1.mem, w.pc) == Wrap(At(m.mem, w.pc) + step)
    requires HostAfter(abi, layout, n - 1, rest, w.Next(), m1, m2)
    ensures HostAfter(abi, layout, n, step + rest, w, m, m2)
  {
    KeptTwice(abi, m.file, m1.file, m2.file);
    ElsewhereTwice(abi, layout, w, w.Next(), m.mem, m1.mem, m2.mem);
    PcStepped(At(m.mem, w.pc), step, rest, At(m1.mem, w.pc), At(m2.mem, w.pc), n > 1);
    assert w.Next().(chain := w.Next().Slot(n - 1)) == w.(chain := w.Slot(n));
  }

  lemma KeptTwice(abi: Abi, f: File, f1: File, f2: File)
    requires SavedKept(abi, f, f1) && SavedKept(abi, f1, f2)
    ensures SavedKept(abi, f, f2)
  {
    forall r | Saved(abi, r) && r != ChainReg(abi) ensures Preserved(abi, r, f2, f) {
      assert Preserved(abi, r, f1, f) && Preserved(abi, r, f2, f1);
    }
  }

  lemma ElsewhereTwice(abi: Abi, layout: Layout, w: Place, w': Place, mem: Memory, mem1: Memory, mem2: Memory)
    requires SameElsewhere(abi, layout, w, mem, mem1) && SameElsewhere(abi, layout, w', mem1, mem2) && w' == w.Next()
    ensures SameElsewhere(abi, layout, w, mem, mem2)
  {
    forall a | Outside(abi, layout, w, a) ensures At(mem2, a) == At(mem, a) {
      assert Outside(abi, layout, w', a);
    }
  }

  // A machine about to run the chain.
  ghost predicate Ready(abi: Abi, layout: Layout, code: CodeMap, hs: seq<Native>, w: Place, m: Machine) {
    && AllSound(abi, hs) && ChainPlaced(abi, layout, hs, w, m.mem) && Linked(code, hs, w, m.mem)
    && Entering(abi, w, m)
  }

  // It ran, and what was in place still is.
  ghost predicate Completed(abi: Abi, layout: Layout, code: CodeMap, hs: seq<Native>, w: Place, m: Machine,
                            m': Machine) {
    && RunChain(abi, layout, code, |hs|, m) == Some(m') && ChainDone(abi, layout, hs, w, m, m')
    && ChainPlaced(abi, layout, [], w.(chain := w.Slot(|hs|)), m'.mem)
  }

  lemma NoChain(abi: Abi, layout: Layout, code: CodeMap, hs: seq<Native>, w: Place, m: Machine)
    requires hs == [] && Ready(abi, layout, code, hs, w, m)
    ensures Completed(abi, layout, code, hs, w, m, m)
  {
    assert w.(chain := w.Slot(0)) == w;
  }

  // The first handler of a chain, and what is ready when it is done.
  lemma FirstRuns(abi: Abi, layout: Layout, code: CodeMap, hs: seq<Native>, w: Place, m: Machine) returns (m1: Machine)
    requires hs != [] && Ready(abi, layout, code, hs, w, m)
    ensures FirstRan(abi, layout, code, hs, w, m, m1) && Ready(abi, layout, code, hs[1..], w.Next(), m1)
  {
    assert LinkedAt(code, hs[0], m.mem, w.Slot(0)) && w.Slot(0) == w.chain;
    assert Sound(abi, hs[0]) && FitsStack(abi, hs[0], w, m.mem);
    assert SlotOk(abi, layout, w, m.mem, w.Slot(1)) && w.Slot(1) == w.chain + 8;
    HandlerSteps(abi, layout, hs[0], w, m);
    m1 := Enter(abi, layout, hs[0], m).value;
    RestReady(abi, layout, code, hs, w, m.mem, m1.mem);
  }

  ghost predicate FirstRan(abi: Abi, layout: Layout, code: CodeMap, hs: seq<Native>, w: Place, m: Machine,
                           m1: Machine) {
    && hs != [] && AllSound(abi, hs)
    && m.jump.Some? && m.jump.value in code && Enter(abi, layout, code[m.jump.value], m) == Some(m1)
    && Stepped(abi, layout, hs[0], w, m.file, m.mem, m.heap, m1)
  }

  /**
   Running a chain. For every sequence of handlers whose addresses the slots hold, every
   footprint-respecting opcode and every placed machine, under all three conventions, the processor goes
   through all of them without getting stuck and does what ChainDone says; what was in place still is.
   */
  lemma {:induction false} ChainRuns(abi: Abi, layout: Layout, code: CodeMap, hs: seq<Native>, w: Place, m: Machine)
    returns (m': Machine)
    requires Ready(abi, layout, code, hs, w, m)
    ensures Completed(abi, layout, code, hs, w, m, m')
    decreases |hs|
  {
    if hs == [] {
      NoChain(abi, layout, code, hs, w, m);
      m' := m;
    } else {
      var m1 := FirstRuns(abi, layout, code, hs, w, m);
      m' := ChainRuns(abi, layout, code, hs[1..], w.Next(), m1);
      Continues(abi, layout, code, hs, w, m, m1, m');
    }
  }

  lemma Continues(abi: Abi, layout: Layout, code: CodeMap, hs: seq<Native>, w: Place, m: Machine, m1: Machine,
                  m2: Machine)
    requires FirstRan(abi, layout, code, hs, w, m, m1)
    requires Completed(abi, layout, code, hs[1..], w.Next(), m1, m2)
    ensures Completed(abi, layout, code, hs, w, m, m2)
  {
    GoesOn(abi, layout, hs, w, m, m1, m2);
  }

  lemma GoesOn(abi: Abi, layout: Layout, hs: seq<Native>, w: Place, m: Machine, m1: Machine, m2: Machine)
    requires hs != [] && AllSound(abi, hs) && Stepped(abi, layout, hs[0], w, m.file, m.mem, m.heap, m1)
    requires ChainDone(abi, layout, hs[1..], w.Next(), m1, m2)
    ensures ChainDone(abi, layout, hs, w, m, m2)
    ensures w.Next().(chain := w.Next().Slot(|hs| - 1)) == w.(chain := w.Slot(|hs|))
  {
    GuestStep(abi, layout, hs, w.cpu, GuestFile(abi, layout, w.cpu, m.mem), m.heap, m1, m2);
    HostStep(abi, layout, |hs|, PcStep(abi, hs[0].code), TotalStep(abi, hs[1..]), w, m, m1, m2);
  }

  // ---- chains the generators build ----

  // The handler has the stand-ins its generator picks, and there are some to pick.
  ghost predicate Generated(abi: Abi, h: Native) {
    && Footprint(abi, h.op, h.used)
    && if abi.AArch64? then SP !in h.used && VolatileFree(h.used) && h.c == CpuStandIn(h.used) && h.s == SP
       else |Free(abi, h.used)| >= Needed(h.used) && h.c == CpuPick(abi, h.used) && h.s == SpPick(abi, h.used)
  }

  lemma GeneratedSound(abi: Abi, h: Native)
    requires Generated(abi, h)
    ensures Sound(abi, h)
  {
    if abi.AArch64? { StandInExactly(h.used); } else { X64StandIns(abi, h.used); }
  }

  lemma GeneratedChainRuns(abi: Abi, layout: Layout, code: CodeMap, hs: seq<Native>, w: Place, m: Machine)
    returns (m': Machine)
    requires (forall i :: 0 <= i < |hs| ==> Generated(abi, hs[i]))
    requires ChainPlaced(abi, layout, hs, w, m.mem) && Linked(code, hs, w, m.mem) && Entering(abi, w, m)
    ensures Completed(abi, layout, code, hs, w, m, m')
  {
    forall i | 0 <= i < |hs| ensures Sound(abi, hs[i]) { GeneratedSound(abi, hs[i]); }
    m' := ChainRuns(abi, layout, code, hs, w, m);
  }
}
