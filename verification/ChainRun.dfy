/**
 Running slot chains: each slot chooses the next one as the host functions of src/Event.cpp do, and
 transfers go to the block of any encoded binary. Event hooks are transparent: instrumented chains and
 the un-instrumented ones execute the same slots on the same guest states, stuttering only on hooks.
 */
module ChainRun {
  import opened Words
  import opened Chain
  import opened ChainShape
  import opened Simulation

  datatype EventResult = Continue | Processed | Terminate

  /**
   What the chain cannot see: the effect of a native handler and of a system call on the guest
   state, the guest's PC, the return address that ends the emulation, and the user's callback.
   */
  datatype Env<!G> = Env(native: (Handler, G) -> G, syscall: G -> G, pc: G -> nat, retaddr: nat,
                         callback: (EventFunc, G) -> EventResult)

  datatype BlockStart = BlockStart(vmaddr: nat, slot: nat)

  // One encoded binary: its flat slot array, and the address and first slot of each block.
  datatype Encoding = Encoding(slots: seq<Slot>, blocks: seq<BlockStart>)

  // All encoded binaries, in the order of their encoding.
  type Program = seq<Encoding>

  // Where execution is: at a slot of a binary, finished, aborted, or transferring to an address that is no block start.
  datatype State<G> = At(bin: nat, slot: nat, guest: G) | Finished(guest: G) | Aborted | Leaving(pc: nat, guest: G)

  // The first slot of the block at an address.
  function BlockSlot(blocks: seq<BlockStart>, a: nat): Option<nat> {
    if blocks == [] then None else if blocks[0].vmaddr == a then Some(blocks[0].slot) else BlockSlot(blocks[1..], a)
  }

  // find() on a block address, in the binaries from b on.
  function Goto<G>(p: Program, b: nat, a: nat, g: G): State<G>
    requires b <= |p|
    decreases |p| - b
  {
    if b == |p| then Leaving(a, g)
    else match BlockSlot(p[b].blocks, a) case Some(i) => At(b, i, g) case None => Goto(p, b + 1, a, g)
  }

  // The slot after a hook.
  function AfterHook<G>(f: EventFunc, b: nat, i: nat, g: G, env: Env<G>): State<G> {
    if f.InsnBefore? then
      match env.callback(f, g)
      case Continue => At(b, i + 1, g)
      case Processed => At(b, i + 2, g)
      case Terminate => Finished(g)
    else At(b, i + 1, g)
  }

  function StepEvent<G>(p: Program, f: EventFunc, b: nat, i: nat, g: G, env: Env<G>): State<G> {
    match f
    case SyscallInterpret => At(b, i + 1, env.syscall(g))
    case InterruptInterpret => Aborted
    case JumpInterpret => Goto(p, 0, env.pc(g), g)
    case CallInterpret => Goto(p, 0, env.pc(g), g)
    case FinishFunction => if env.pc(g) == env.retaddr then Finished(g) else Goto(p, 0, env.pc(g), g)
    case FinishEmulation => Finished(g)
    case _ => AfterHook(f, b, i, g, env)
  }

  // The slot a state is at; there is none outside the arrays.
  function SlotAt<G>(p: Program, s: State<G>): Option<Slot> {
    if s.At? && s.bin < |p| && s.slot < |p[s.bin].slots| then Some(p[s.bin].slots[s.slot]) else None
  }

  function StepSlot<G>(p: Program, slot: Slot, b: nat, i: nat, g: G, env: Env<G>): State<G> {
    match slot
    case Real(TerminateExecution, _) => Aborted
    case Real(h, _) => At(b, i + 1, env.native(h, g))
    case Event(f) => StepEvent(p, f, b, i, g, env)
  }

  // One slot; nothing happens outside the arrays.
  function Step<G>(p: Program, s: State<G>, env: Env<G>): State<G> {
    match SlotAt(p, s) case None => s case Some(slot) => StepSlot(p, slot, s.bin, s.slot, s.guest, env)
  }

  // A slot that was executed, with the guest state it was executed on.
  datatype Executed<G> = Executed(slot: Slot, guest: G)

  // What one state is about to execute, leaving hooks out.
  function Emits<G>(p: Program, s: State<G>): seq<Executed<G>> {
    match SlotAt(p, s) case None => [] case Some(slot) => if IsHook(slot) then [] else [Executed(slot, s.guest)]
  }

  // The chains as a transition system that emits the non-hook slots it executes.
  function Machine<G>(p: Program, env: Env<G>): System<State<G>, Executed<G>> {
    System(s => Step(p, s, env), s => Emits(p, s))
  }

  // ---- instrumented chains over their plain form ----

  // The number of non-hook slots before i.
  function Rank(slots: seq<Slot>, i: nat): nat { |Erase(slots[..if i <= |slots| then i else |slots|])| }

  // d is c without hooks.
  ghost predicate StripsTo(c: Encoding, d: Encoding) {
    && d.slots == Erase(c.slots) && |d.blocks| == |c.blocks|
    && forall k :: 0 <= k < |c.blocks| ==> Stripped(c.slots, c.blocks[k], d.blocks[k])
  }

  predicate Stripped(slots: seq<Slot>, b: BlockStart, c: BlockStart) {
    b.slot <= |slots| && c.vmaddr == b.vmaddr && c.slot == Rank(slots, b.slot)
  }

  // q is p without hooks.
  ghost predicate Strips(p: Program, q: Program) { |p| == |q| && forall b :: 0 <= b < |p| ==> StripsTo(p[b], q[b]) }

  // Corresponding states: the plain chain is where the instrumented one will be behind its hooks.
  ghost predicate Related<G>(p: Program, s: State<G>, t: State<G>) {
    match s
    case At(b, i, g) => b < |p| && i <= |p[b].slots| && t == At(b, Rank(p[b].slots, i), g)
    case _ => t == s
  }

  ghost predicate AlwaysContinues<G(!new)>(env: Env<G>) { forall f, g :: env.callback(f, g) == Continue }

  lemma RankStep(slots: seq<Slot>, i: nat)
    requires i < |slots|
    ensures IsHook(slots[i]) ==> Rank(slots, i + 1) == Rank(slots, i)
    ensures !IsHook(slots[i]) ==> Rank(slots, i + 1) == Rank(slots, i) + 1
  {
    assert slots[..i + 1][..i] == slots[..i];
  }

  // The i-th slot, when it is no hook, is found at its rank.
  lemma RankSlot(slots: seq<Slot>, i: nat)
    requires i < |slots| && !IsHook(slots[i])
    ensures Rank(slots, i) < |Erase(slots)| && Erase(slots)[Rank(slots, i)] == slots[i]
  {
    RankStep(slots, i);
    assert slots == slots[..i + 1] + slots[i + 1..];
    EraseAppend(slots[..i + 1], slots[i + 1..]);
    assert slots[..i + 1][..i] == slots[..i];
  }

  ghost predicate SameBlocks(slots: seq<Slot>, bs: seq<BlockStart>, cs: seq<BlockStart>) {
    |bs| == |cs| && forall k :: 0 <= k < |bs| ==> Stripped(slots, bs[k], cs[k])
  }

  lemma {:induction false} BlockSlotStripped(slots: seq<Slot>, bs: seq<BlockStart>, cs: seq<BlockStart>, a: nat)
    requires SameBlocks(slots, bs, cs)
    ensures var (i, j) := (BlockSlot(bs, a), BlockSlot(cs, a));
      (i.Some? <==> j.Some?) && (i.Some? ==> i.value <= |slots| && j.value == Rank(slots, i.value))
  {
    if bs != [] {
      assert Stripped(slots, bs[0], cs[0]);
      forall k | 0 <= k < |bs| - 1 ensures Stripped(slots, bs[1..][k], cs[1..][k]) {
        assert Stripped(slots, bs[k + 1], cs[k + 1]);
      }
      BlockSlotStripped(slots, bs[1..], cs[1..], a);
    }
  }

  lemma {:induction false} GotoRelated<G>(p: Program, q: Program, b: nat, a: nat, g: G)
    requires Strips(p, q) && b <= |p|
    ensures Related(p, Goto(p, b, a, g), Goto(q, b, a, g))
    decreases |p| - b
  {
    if b < |p| {
      assert StripsTo(p[b], q[b]);
      BlockSlotStripped(p[b].slots, p[b].blocks, q[b].blocks, a);
      GotoRelated(p, q, b + 1, a, g);
    }
  }

  // A hook moves the instrumented chain only.
  lemma HookStutters<G(!new)>(p: Program, q: Program, s: State<G>, t: State<G>, env: Env<G>)
    requires Related(p, s, t) && AlwaysContinues(env) && SlotAt(p, s).Some? && IsHook(SlotAt(p, s).value)
    ensures Step(p, s, env) == At(s.bin, s.slot + 1, s.guest) && Related(p, Step(p, s, env), t) && Emits(p, s) == []
  {
    RankStep(p[s.bin].slots, s.slot);
  }

  // Corresponding states at a non-hook slot are at the same slot.
  lemma SameSlot<G>(p: Program, q: Program, s: State<G>, t: State<G>)
    requires Strips(p, q) && Related(p, s, t) && SlotAt(p, s).Some? && !IsHook(SlotAt(p, s).value)
    ensures SlotAt(q, t) == SlotAt(p, s) && t.bin == s.bin && t.guest == s.guest
    ensures Related(p, At(s.bin, s.slot + 1, s.guest), At(t.bin, t.slot + 1, t.guest))
  {
    assert StripsTo(p[s.bin], q[s.bin]);
    RankStep(p[s.bin].slots, s.slot);
    RankSlot(p[s.bin].slots, s.slot);
  }

  // Any other slot moves both, and is the same slot on the same guest state.
  lemma OthersAgree<G(!new)>(p: Program, q: Program, s: State<G>, t: State<G>, env: Env<G>)
    requires Strips(p, q) && Related(p, s, t) && SlotAt(p, s).Some? && !IsHook(SlotAt(p, s).value)
    ensures Related(p, Step(p, s, env), Step(q, t, env)) && Emits(p, s) == Emits(q, t)
  {
    SameSlot(p, q, s, t);
    GotoRelated(p, q, 0, env.pc(s.guest), s.guest);
  }

  // A state that no longer moves corresponds to one that no longer moves.
  lemma StoppedAgree<G>(p: Program, q: Program, s: State<G>, t: State<G>)
    requires Strips(p, q) && Related(p, s, t) && SlotAt(p, s).None?
    ensures SlotAt(q, t).None?
  {
    if s.At? {
      assert StripsTo(p[s.bin], q[s.bin]);
      assert p[s.bin].slots[..s.slot] == p[s.bin].slots;
    }
  }

  // How many slots are left, a bound on the hooks in a row.
  function SlotsLeft<G>(p: Program, s: State<G>): nat {
    if SlotAt(p, s).Some? then |p[s.bin].slots| - s.slot else 0
  }

  lemma ChainSimulates<G(!new)>(p: Program, q: Program, env: Env<G>)
    requires Strips(p, q) && AlwaysContinues(env)
    ensures Simulates(Machine(p, env), Machine(q, env), (s, t) => Related(p, s, t), s => SlotsLeft(p, s))
  {
    var (rel, measure) := ((s, t) => Related(p, s, t), (s: State<G>) => SlotsLeft(p, s));
    forall s: State<G>, t: State<G> | Related(p, s, t)
      ensures Stutters(Machine(p, env), rel, measure, s, t) || Together(Machine(p, env), Machine(q, env), rel, s, t)
    {
      if SlotAt(p, s).None? {
        StoppedAgree(p, q, s, t);
      } else if IsHook(SlotAt(p, s).value) {
        HookStutters(p, q, s, t, env);
      } else {
        OthersAgree(p, q, s, t, env);
      }
    }
  }

  /**
   Every run of the instrumented chains is matched by a run of the plain chains that is no longer:
   the same non-hook slots on the same guest states, and corresponding end states.
   */
  lemma InstrumentedRunMatched<G(!new)>(p: Program, q: Program, s: State<G>, t: State<G>, n: nat,
                                 env: Env<G>) returns (m: nat)
    requires Strips(p, q) && Related(p, s, t) && AlwaysContinues(env)
    ensures m <= n && Related(p, Reach(Machine(p, env), s, n), Reach(Machine(q, env), t, m))
    ensures Trace(Machine(p, env), s, n) == Trace(Machine(q, env), t, m)
  {
    ChainSimulates(p, q, env);
    m := RunMatched(Machine(p, env), Machine(q, env), (s, t) => Related(p, s, t), s => SlotsLeft(p, s), s, t, n);
  }

  // Every run of the plain chain is matched by a run of the instrumented one.
  lemma PlainRunMatched<G(!new)>(p: Program, q: Program, s: State<G>, t: State<G>, m: nat, env: Env<G>) returns (n: nat)
    requires Strips(p, q) && Related(p, s, t) && AlwaysContinues(env)
    ensures Related(p, Reach(Machine(p, env), s, n), Reach(Machine(q, env), t, m))
    ensures Trace(Machine(p, env), s, n) == Trace(Machine(q, env), t, m)
  {
    ChainSimulates(p, q, env);
    n := RunReached(Machine(p, env), Machine(q, env), (s, t) => Related(p, s, t), s => SlotsLeft(p, s), s, t, m);
  }

  // ---- encoded binaries ----

  lemma {:induction false} PlaceSameLength(b: Blocks, items: seq<Item>, n: nat, after: seq<Slot>, before: seq<Slot>)
    requires b.handlers != [] && |b.vmaddrs| == |b.handlers| && n <= |items|
    ensures var r := PlaceAll(b, items, n, after, before); |r.vmaddrs| == |r.handlers|
    decreases n
  {
    if n > 0 { PlaceSameLength(b, items, n - 1, after, before); }
  }

  lemma {:induction false} FuncsSameLength(funcs: seq<Func>, n: nat, addend: nat, arm64: bool, cfg: EventConfig)
    requires n <= |funcs|
    ensures var r := EncodeFuncs(funcs, n, addend, arm64, cfg); |r.vmaddrs| == |r.handlers|
    decreases n
  {
    if n > 0 {
      FuncsSameLength(funcs, n - 1, addend, arm64, cfg);
      FuncSameLength(EncodeFuncs(funcs, n - 1, addend, arm64, cfg), funcs[n - 1], addend, arm64, cfg);
    }
  }

  lemma FuncSameLength(b: Blocks, f: Func, addend: nat, arm64: bool, cfg: EventConfig)
    requires |b.vmaddrs| == |b.handlers|
    ensures var r := EncodeFunc(b, f, addend, arm64, cfg); |r.vmaddrs| == |r.handlers|
  {
    var s := StartBlock(b, f.start + addend, Hook(cfg.func, FuncBefore) + Hook(cfg.block, BlockBefore));
    PlaceSameLength(s, Items(f.insns, f.start + addend, arm64, cfg), |f.insns|, Hook(cfg.block, BlockAfter),
                    Hook(cfg.block, BlockBefore));
  }

  function BlockStarts(vmaddrs: seq<nat>, hs: seq<seq<Slot>>): (r: seq<BlockStart>)
    requires |vmaddrs| == |hs|
    ensures |r| == |hs|
  { seq(|hs|, k requires 0 <= k < |hs| => BlockStart(vmaddrs[k], Start(hs, k))) }

  function EncodingOf(funcs: seq<Func>, addend: nat, arm64: bool, cfg: EventConfig): Encoding
    requires funcs != []
  {
    FuncsSameLength(funcs, |funcs|, addend, arm64, cfg);
    var e := Encode(funcs, addend, arm64, cfg);
    Encoding(Flat(e.handlers), BlockStarts(e.vmaddrs, e.handlers))
  }

  // A block starts where the plain slots before it end.
  lemma StartRank(hs: seq<seq<Slot>>, k: nat)
    requires k <= |hs|
    ensures Start(hs, k) <= |Flat(hs)| && Start(EraseAll(hs), k) == Rank(Flat(hs), Start(hs, k))
  {
    FlatPrefix(hs, k);
    EraseFlat(hs[..k]);
    assert EraseAll(hs)[..k] == EraseAll(hs[..k]);
    assert Flat(hs)[..Start(hs, k)] == Flat(hs[..k]);
  }

  lemma {:induction false} FlatPrefix(hs: seq<seq<Slot>>, k: nat)
    requires k <= |hs|
    ensures Flat(hs[..k]) <= Flat(hs)
    decreases |hs|
  {
    if k < |hs| {
      FlatPrefix(hs[..|hs| - 1], k);
      assert hs[..|hs| - 1][..k] == hs[..k];
    } else {
      assert hs[..k] == hs;
    }
  }

  lemma BlocksStrip(vmaddrs: seq<nat>, hs: seq<seq<Slot>>)
    requires |vmaddrs| == |hs|
    ensures StripsTo(Encoding(Flat(hs), BlockStarts(vmaddrs, hs)),
                     Encoding(Flat(EraseAll(hs)), BlockStarts(vmaddrs, EraseAll(hs))))
  {
    EraseFlat(hs);
    forall k | 0 <= k < |hs| ensures Stripped(Flat(hs), BlockStarts(vmaddrs, hs)[k],
                                              BlockStarts(vmaddrs, EraseAll(hs))[k]) {
      StartRank(hs, k);
    }
  }

  // Erasing the hooks of an instrumented chain gives the plain chain.
  lemma EncodingStrips(funcs: seq<Func>, addend: nat, arm64: bool, cfg: EventConfig)
    requires funcs != []
    ensures StripsTo(EncodingOf(funcs, addend, arm64, cfg), EncodingOf(funcs, addend, arm64, NO_HOOKS))
  {
    FuncsSameLength(funcs, |funcs|, addend, arm64, cfg);
    var e := Encode(funcs, addend, arm64, cfg);
    EraseEncode(funcs, addend, arm64, cfg);
    BlocksStrip(e.vmaddrs, e.handlers);
  }

  // A binary as encode() is given it.
  datatype Binary = Binary(funcs: seq<Func>, addend: nat, arm64: bool)

  ghost predicate Encodable(bins: seq<Binary>) { forall b :: 0 <= b < |bins| ==> bins[b].funcs != [] }

  // The binaries, each encoded under its own event configuration.
  ghost function ProgramOf(bins: seq<Binary>, cfgs: seq<EventConfig>): (p: Program)
    requires Encodable(bins) && |cfgs| == |bins|
    ensures |p| == |bins|
  { seq(|bins|, b requires 0 <= b < |bins| => EncodingOf(bins[b].funcs, bins[b].addend, bins[b].arm64, cfgs[b])) }

  function NoHooks(n: nat): (cfgs: seq<EventConfig>)
    ensures |cfgs| == n
  { seq(n, _ => NO_HOOKS) }

  lemma ProgramStrips(bins: seq<Binary>, cfgs: seq<EventConfig>)
    requires Encodable(bins) && |cfgs| == |bins|
    ensures Strips(ProgramOf(bins, cfgs), ProgramOf(bins, NoHooks(|bins|)))
  {
    forall b | 0 <= b < |bins| ensures StripsTo(ProgramOf(bins, cfgs)[b], ProgramOf(bins, NoHooks(|bins|))[b]) {
      EncodingStrips(bins[b].funcs, bins[b].addend, bins[b].arm64, cfgs[b]);
    }
  }

  // Both programs entered at block k of binary b.
  ghost predicate EnteredAt<G>(p: Program, q: Program, b: nat, k: nat, g: G, s: State<G>, t: State<G>) {
    && b < |p| && b < |q| && k < |p[b].blocks| && k < |q[b].blocks|
    && s == At(b, p[b].blocks[k].slot, g) && t == At(b, q[b].blocks[k].slot, g)
  }

  lemma EnteredRelated<G>(p: Program, q: Program, b: nat, k: nat, g: G, s: State<G>, t: State<G>)
    requires Strips(p, q) && EnteredAt(p, q, b, k, g, s, t)
    ensures Related(p, s, t)
  {
    assert StripsTo(p[b], q[b]);
    assert Stripped(p[b].slots, p[b].blocks[k], q[b].blocks[k]);
  }

  // n steps of p and m steps of q execute the same non-hook slots and end in corresponding states.
  ghost predicate SameRun<G>(p: Program, q: Program, s: State<G>, n: nat, t: State<G>, m: nat, env: Env<G>) {
    && Trace(Machine(p, env), s, n) == Trace(Machine(q, env), t, m)
    && Related(p, Reach(Machine(p, env), s, n), Reach(Machine(q, env), t, m))
  }

  /**
   Instrumentation transparency. For all encoded binaries, every event configuration of each and every
   run whose callbacks return Continue: entered at any block, the instrumented chains execute in n
   steps the non-hook slots the plain chains execute in some m <= n steps, on the same guest states,
   through transfers between binaries, and conversely; both end, abort and leave the block starts alike.
   */
  lemma InstrumentationTransparent<G(!new)>(bins: seq<Binary>, cfgs: seq<EventConfig>, b: nat, k: nat, g: G,
                                     env: Env<G>,
                                            s: State<G>, t: State<G>, n: nat) returns (m: nat, n': nat)
    requires Encodable(bins) && |cfgs| == |bins| && AlwaysContinues(env)
    requires EnteredAt(ProgramOf(bins, cfgs), ProgramOf(bins, NoHooks(|bins|)), b, k, g, s, t)
    ensures var (p, q) := (ProgramOf(bins, cfgs), ProgramOf(bins, NoHooks(|bins|)));
      m <= n && SameRun(p, q, s, n, t, m, env) && SameRun(p, q, s, n', t, n, env)
  {
    var (p, q) := (ProgramOf(bins, cfgs), ProgramOf(bins, NoHooks(|bins|)));
    ProgramStrips(bins, cfgs);
    EnteredRelated(p, q, b, k, g, s, t);
    m := InstrumentedRunMatched(p, q, s, t, n, env);
    n' := PlainRunMatched(p, q, s, t, n, env);
  }
}
