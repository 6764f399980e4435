/**
 Orchestrator::encode and BasicBlocks::convert of src/Orchestrator.cpp: the functions of a binary
 become basic blocks of executable slots with event hooks between them, and the blocks become one
 flat slot array.
 */
module Chain {
  // ---- guest code ----

  datatype InsnType = Plain | Syscall | Trap | JCond | Jump | Call | Ret

  // An instruction: offset in its function, length, kind, whether another block refers to it, and the
  // entry of its native handler when the lifter has one.
  datatype GuestInsn = GuestInsn(fnoff: nat, oplen: nat, typ: InsnType, referenced: bool, entry: Handler)

  datatype Handler = Native(entry: nat) | TerminateExecution

  datatype Func = Func(start: nat, end: nat, insns: seq<GuestInsn>)

  datatype EventConfig = EventConfig(insn: bool, block: bool, func: bool, debug: bool)

  const NO_HOOKS := EventConfig(false, false, false, false)

  predicate Transfers(t: InsnType) { t == JCond || t == Jump || t == Call || t == Ret }

  // ---- slots ----

  datatype EventFunc =
    | FuncBefore | FuncAfter | BlockBefore | BlockAfter | InsnBefore | InsnAfter | Debugging
    | SyscallInterpret | InterruptInterpret | JumpInterpret | CallInterpret | FinishFunction | FinishEmulation

  datatype Slot = Event(func: EventFunc) | Real(handler: Handler, oplen: nat)

  // The slots that exist only because of the event configuration.
  predicate IsHook(s: Slot) {
    s.Event? && (s.func.FuncBefore? || s.func.FuncAfter? || s.func.BlockBefore? || s.func.BlockAfter?
                 || s.func.InsnBefore? || s.func.InsnAfter? || s.func.Debugging?)
  }

  function Hook(on: bool, f: EventFunc): seq<Slot> { if on then [Event(f)] else [] }

  // ---- what encode builds ----

  function After(insn: GuestInsn, arm64: bool, cfg: EventConfig): seq<Slot> {
    match insn.typ
    case Syscall => if arm64 then [Event(SyscallInterpret)] else []
    case Trap => if !arm64 then [Event(InterruptInterpret)] else []
    case _ => Hook(cfg.insn, InsnAfter)
  }

  function Ending(insn: GuestInsn, cfg: EventConfig): seq<Slot> {
    match insn.typ
    case JCond => [Event(JumpInterpret)]
    case Jump => [Event(JumpInterpret)]
    case Call => [Event(CallInterpret)]
    case Ret => Hook(cfg.func, FuncAfter) + [Event(FinishFunction)]
    case _ => []
  }

  // The oplen field of a slot has four bits.
  function RealSlot(insn: GuestInsn): Slot { Real(insn.entry, insn.oplen % 16) }

  function InsnSlots(insn: GuestInsn, arm64: bool, cfg: EventConfig): seq<Slot> {
    Hook(cfg.insn, InsnBefore) + Hook(cfg.debug, Debugging) + [RealSlot(insn)] + After(insn, arm64, cfg) + Ending(insn,
        cfg)
  }

  // The blocks so far, one handler list per address, and whether the next instruction must start one.
  datatype Blocks = Blocks(vmaddrs: seq<nat>, handlers: seq<seq<Slot>>, newbb: bool)

  function Push(b: Blocks, slots: seq<Slot>): Blocks
    requires b.handlers != []
  { b.(handlers := b.handlers[|b.handlers| - 1 := b.handlers[|b.handlers| - 1] + slots]) }

  function StartBlock(b: Blocks, vmaddr: nat, slots: seq<Slot>): Blocks {
    Blocks(b.vmaddrs + [vmaddr], b.handlers + [slots], false)
  }

  // An instruction ready to be placed: its address, its slots, and what it means for block boundaries.
  datatype Item = Item(vmaddr: nat, slots: seq<Slot>, referenced: bool, transfers: bool)

  function ItemOf(insn: GuestInsn, addr: nat, arm64: bool, cfg: EventConfig): Item {
    Item(addr + insn.fnoff, InsnSlots(insn, arm64, cfg), insn.referenced, Transfers(insn.typ))
  }

  function Items(insns: seq<GuestInsn>, addr: nat, arm64: bool, cfg: EventConfig): (r: seq<Item>)
    ensures |r| == |insns|
  { seq(|insns|, i requires 0 <= i < |insns| => ItemOf(insns[i], addr, arm64, cfg)) }

  ghost predicate ItemsFor(items: seq<Item>, insns: seq<GuestInsn>, addr: nat, arm64: bool, cfg: EventConfig) {
    |items| == |insns| && forall i :: 0 <= i < |items| ==> items[i] == ItemOf(insns[i], addr, arm64, cfg)
  }

  predicate Splits(item: Item, first: bool, newbb: bool) { !first && (item.referenced || newbb) }

  // Place one instruction; a new block is closed and opened with the hooks `after` and `before`.
  function Place(b: Blocks, item: Item, first: bool, after: seq<Slot>, before: seq<Slot>): (r: Blocks)
    requires b.handlers != []
    ensures r.handlers != []
  {
    var s := if Splits(item, first, b.newbb) then StartBlock(Push(b, after), item.vmaddr, before) else b;
    Push(s, item.slots).(newbb := s.newbb || item.transfers)
  }

  // The first n instructions of a function.
  function PlaceAll(b: Blocks, items: seq<Item>, n: nat, after: seq<Slot>, before: seq<Slot>): (r: Blocks)
    requires b.handlers != [] && n <= |items|
    ensures r.handlers != []
    decreases n
  { if n == 0 then b else Place(PlaceAll(b, items, n - 1, after, before), items[n - 1], n == 1, after, before) }

  // A whole function: its entry block with the hooks `opening`, then its instructions.
  function PlaceFunc(b: Blocks, vmaddr: nat, opening: seq<Slot>, items: seq<Item>, after: seq<Slot>,
                     before: seq<Slot>): (r: Blocks)
    ensures r.handlers != []
  { PlaceAll(StartBlock(b, vmaddr, opening), items, |items|, after, before) }

  function EncodeFunc(b: Blocks, f: Func, addend: nat, arm64: bool, cfg: EventConfig): (r: Blocks)
    ensures r.handlers != []
  {
    PlaceFunc(b, f.start + addend, Hook(cfg.func, FuncBefore) + Hook(cfg.block, BlockBefore),
              Items(f.insns, f.start + addend, arm64, cfg), Hook(cfg.block, BlockAfter), Hook(cfg.block, BlockBefore))
  }

  // The first n functions.
  function EncodeFuncs(funcs: seq<Func>, n: nat, addend: nat, arm64: bool, cfg: EventConfig): (r: Blocks)
    requires n <= |funcs|
    ensures n > 0 ==> r.handlers != []
    decreases n
  {
    if n == 0 then Blocks([], [], false)
    else EncodeFunc(EncodeFuncs(funcs, n - 1, addend, arm64, cfg), funcs[n - 1], addend, arm64, cfg)
  }

  // A single function gets an explicit end of emulation.
  function Encode(funcs: seq<Func>, addend: nat, arm64: bool, cfg: EventConfig): (r: Blocks)
    requires funcs != []
    ensures r.handlers != []
  {
    var b := EncodeFuncs(funcs, |funcs|, addend, arm64, cfg);
    if |funcs| == 1 then Push(b, [Event(FinishEmulation)]) else b
  }

  // ---- flattening ----

  function Flat(hs: seq<seq<Slot>>): seq<Slot> {
    if hs == [] then [] else Flat(hs[..|hs| - 1]) + hs[|hs| - 1]
  }

  // Where block k starts in the flat array.
  function Start(hs: seq<seq<Slot>>, k: nat): nat
    requires k <= |hs|
  { |Flat(hs[..k])| }

  // Pointers to n consecutive slots.
  function Pointers(start: nat, n: nat): (p: seq<nat>)
    ensures |p| == n && forall i :: 0 <= i < n ==> p[i] == start + i
  { seq(n, i => start + i) }

  function BlockPointers(hs: seq<seq<Slot>>): (p: seq<seq<nat>>)
    ensures |p| == |hs|
  { seq(|hs|, k requires 0 <= k < |hs| => Pointers(Start(hs, k), |hs[k]|)) }

  // ---- the in-place builder ----

  class BasicBlocks {
    var vmaddrs: seq<nat>
    var maxaddr: nat
    var handlers: seq<seq<Slot>>
    var bbhandlers: seq<seq<nat>>
    var rthandlers: seq<Slot>

    constructor ()
      ensures vmaddrs == [] && handlers == [] && bbhandlers == [] && rthandlers == []
    {
      vmaddrs, handlers, bbhandlers, rthandlers, maxaddr := [], [], [], [], 0;
    }

    ghost function Built(newbb: bool): Blocks
      reads this
    { Blocks(vmaddrs, handlers, newbb) }

    // Push a slot onto the current block; b and acc say what was there and what was pushed since.
    method PushSlot(s: Slot, ghost b: Blocks, ghost acc: seq<Slot>)
      requires b.handlers != [] && Built(b.newbb) == Push(b, acc)
      modifies this`handlers
      ensures Built(b.newbb) == Push(b, acc + [s])
    {
      handlers := handlers[|handlers| - 1 := handlers[|handlers| - 1] + [s]];
      PushMore(b, acc, [s]);
    }

    // do_setup_event
    method SetupEvent(on: bool, f: EventFunc, ghost b: Blocks, ghost acc: seq<Slot>)
      requires b.handlers != [] && Built(b.newbb) == Push(b, acc)
      modifies this`handlers
      ensures Built(b.newbb) == Push(b, acc + Hook(on, f))
    {
      if on { PushSlot(Event(f), b, acc); } else { assert acc + [] == acc; }
    }

    // One instruction of encode's inner loop.
    method EncodeInsn(insn: GuestInsn, addr: nat, first: bool, newbb: bool, arm64: bool,
                      cfg: EventConfig) returns (newbb': bool)
      requires handlers != []
      modifies this`vmaddrs, this`handlers
      ensures Built(newbb') == Place(old(Built(newbb)), ItemOf(insn, addr, arm64, cfg), first,
                                     Hook(cfg.block, BlockAfter), Hook(cfg.block, BlockBefore))
    {
      newbb' := newbb;
      if !first && (insn.referenced || newbb) {
        SplitBlock(addr + insn.fnoff, cfg, Built(newbb));
        newbb' := false;
      }
      ghost var s := Built(newbb');
      PushInsn(insn, arm64, cfg, s);
      newbb' := newbb' || Transfers(insn.typ);
    }

    // Close the current block and open one at this address.
    method SplitBlock(vmaddr: nat, cfg: EventConfig, ghost b: Blocks)
      requires b.handlers != [] && Built(b.newbb) == b
      modifies this`vmaddrs, this`handlers
      ensures Built(false) == StartBlock(Push(b, Hook(cfg.block, BlockAfter)), vmaddr, Hook(cfg.block, BlockBefore))
    {
      PushNothing(b);
      SetupEvent(cfg.block, BlockAfter, b, []);
      assert [] + Hook(cfg.block, BlockAfter) == Hook(cfg.block, BlockAfter);
      vmaddrs := vmaddrs + [vmaddr];
      handlers := handlers + [[]];
      ghost var b' := Built(false);
      PushNothing(b');
      SetupEvent(cfg.block, BlockBefore, b', []);
      PushStarted(Push(b, Hook(cfg.block, BlockAfter)), vmaddr, Hook(cfg.block, BlockBefore));
    }

    method PushInsn(insn: GuestInsn, arm64: bool, cfg: EventConfig, ghost b: Blocks)
      requires b.handlers != [] && Built(b.newbb) == b
      modifies this`handlers
      ensures Built(b.newbb) == Push(b, InsnSlots(insn, arm64, cfg))
    {
      PushNothing(b);
      ghost var acc: seq<Slot> := [];
      SetupEvent(cfg.insn, InsnBefore, b, acc);
      acc := acc + Hook(cfg.insn, InsnBefore);
      if cfg.debug { PushSlot(Event(Debugging), b, acc); } else { assert acc + [] == acc; }
      acc := acc + Hook(cfg.debug, Debugging);
      PushSlot(Real(insn.entry, insn.oplen % 16), b, acc);
      acc := acc + [RealSlot(insn)];
      PushAfter(insn, arm64, cfg, b, acc);
      acc := acc + After(insn, arm64, cfg);
      PushEnding(insn, cfg, b, acc);
      assert [] + Hook(cfg.insn, InsnBefore) == Hook(cfg.insn, InsnBefore);
    }

    method PushAfter(insn: GuestInsn, arm64: bool, cfg: EventConfig, ghost b: Blocks, ghost acc: seq<Slot>)
      requires b.handlers != [] && Built(b.newbb) == Push(b, acc)
      modifies this`handlers
      ensures Built(b.newbb) == Push(b, acc + After(insn, arm64, cfg))
    {
      assert acc + [] == acc;
      match insn.typ
      case Syscall => if arm64 { PushSlot(Event(SyscallInterpret), b, acc); }
      case Trap => if !arm64 { PushSlot(Event(InterruptInterpret), b, acc); }
      case _ => SetupEvent(cfg.insn, InsnAfter, b, acc);
    }

    method PushEnding(insn: GuestInsn, cfg: EventConfig, ghost b: Blocks, ghost acc: seq<Slot>)
      requires b.handlers != [] && Built(b.newbb) == Push(b, acc)
      modifies this`handlers
      ensures Built(b.newbb) == Push(b, acc + Ending(insn, cfg))
    {
      assert acc + [] == acc;
      match insn.typ
      case JCond => PushSlot(Event(JumpInterpret), b, acc);
      case Jump => PushSlot(Event(JumpInterpret), b, acc);
      case Call => PushSlot(Event(CallInterpret), b, acc);
      case Ret =>
        SetupEvent(cfg.func, FuncAfter, b, acc);
        PushSlot(Event(FinishFunction), b, acc + Hook(cfg.func, FuncAfter));
        assert acc + Hook(cfg.func, FuncAfter) + [Event(FinishFunction)] == acc + Ending(insn, cfg);
      case _ =>
    }

    // Open the entry block of a function.
    method StartFunction(f: Func, addend: nat, cfg: EventConfig, ghost b: Blocks)
      requires Built(b.newbb) == b
      modifies this`vmaddrs, this`handlers
      ensures Built(false) == StartBlock(b, f.start + addend, Hook(cfg.func, FuncBefore) + Hook(cfg.block, BlockBefore))
    {
      vmaddrs := vmaddrs + [f.start + addend];
      handlers := handlers + [[]];
      ghost var b0 := Built(false);
      PushNothing(b0);
      SetupEvent(cfg.func, FuncBefore, b0, []);
      SetupEvent(cfg.block, BlockBefore, b0, [] + Hook(cfg.func, FuncBefore));
      assert [] + Hook(cfg.func, FuncBefore) + Hook(cfg.block, BlockBefore)
        == [] + (Hook(cfg.func, FuncBefore) + Hook(cfg.block, BlockBefore));
      PushStarted(b, f.start + addend, Hook(cfg.func, FuncBefore) + Hook(cfg.block, BlockBefore));
    }

    method EncodeFunction(f: Func, addend: nat, arm64: bool, cfg: EventConfig,
                          ghost b: Blocks) returns (ghost last: bool)
      requires Built(b.newbb) == b
      modifies this`vmaddrs, this`handlers
      ensures Built(last) == EncodeFunc(b, f, addend, arm64, cfg)
    {
      StartFunction(f, addend, cfg, b);
      last := EncodeBody(f.insns, f.start + addend, arm64, cfg, Built(false),
                         Items(f.insns, f.start + addend, arm64, cfg));
    }

    // One round of the loop over a function's instructions.
    method EncodeNext(insns: seq<GuestInsn>, i: nat, addr: nat, newbb: bool, arm64: bool, cfg: EventConfig,
                      ghost s: Blocks, ghost items: seq<Item>)
      returns (newbb': bool)
      requires ItemsFor(items, insns, addr, arm64, cfg) && i < |items| && s.handlers != []
      requires Placed(s, items, i, cfg, newbb)
      modifies this`vmaddrs, this`handlers
      ensures Placed(s, items, i + 1, cfg, newbb')
    {
      newbb' := EncodeInsn(insns[i], addr, i == 0, newbb, arm64, cfg);
      PlaceNext(s, items, i, Hook(cfg.block, BlockAfter), Hook(cfg.block, BlockBefore));
    }

    ghost predicate Placed(s: Blocks, items: seq<Item>, n: nat, cfg: EventConfig, newbb: bool)
      requires s.handlers != [] && n <= |items|
      reads this
    { Built(newbb) == PlaceAll(s, items, n, Hook(cfg.block, BlockAfter), Hook(cfg.block, BlockBefore)) }

    method EncodeBody(insns: seq<GuestInsn>, addr: nat, arm64: bool, cfg: EventConfig, ghost s: Blocks,
                      ghost items: seq<Item>)
      returns (ghost last: bool)
      requires Built(false) == s && s.handlers != [] && ItemsFor(items, insns, addr, arm64, cfg)
      modifies this`vmaddrs, this`handlers
      ensures Placed(s, items, |items|, cfg, last)
    {
      var newbb := false;
      for i := 0 to |insns|
        invariant Placed(s, items, i, cfg, newbb)
      {
        newbb := EncodeNext(insns, i, addr, newbb, arm64, cfg, s, items);
      }
      last := newbb;
    }

    // encode, up to installing the result in the cache.
    method EncodeBinary(funcs: seq<Func>, addend: nat, arm64: bool, cfg: EventConfig)
      requires funcs != [] && vmaddrs == [] && handlers == []
      modifies this
      ensures
        var e := Encode(funcs, addend, arm64, cfg);
        && vmaddrs == e.vmaddrs && maxaddr == funcs[|funcs| - 1].end + addend
        && rthandlers == Flat(e.handlers) && bbhandlers == BlockPointers(e.handlers)
    {
      ghost var b := Blocks([], [], false);
      for n := 0 to |funcs|
        invariant b == EncodeFuncs(funcs, n, addend, arm64, cfg) && Built(b.newbb) == b
      {
        ghost var newbb := EncodeFunction(funcs[n], addend, arm64, cfg, b);
        b := Built(newbb);
      }
      if |funcs| == 1 {
        PushNothing(b);
        PushSlot(Event(FinishEmulation), b, []);
        assert [] + [Event(FinishEmulation)] == [Event(FinishEmulation)];
      }
      maxaddr := funcs[|funcs| - 1].end + addend;
      Convert();
    }

    // BasicBlocks::convert
    method Convert()
      modifies this`handlers, this`bbhandlers, this`rthandlers
      ensures rthandlers == Flat(old(handlers)) && bbhandlers == BlockPointers(old(handlers)) && handlers == []
    {
      bbhandlers, rthandlers := [], [];
      ghost var all := handlers;
      assert all[..0] == [];
      for bb := 0 to |handlers|
        invariant handlers == all && |bbhandlers| == bb && rthandlers == Flat(all[..bb])
        invariant forall k :: 0 <= k < bb ==> bbhandlers[k] == BlockPointers(all)[k]
      {
        var insns := handlers[bb];
        var curbb: seq<nat> := [];
        for i := 0 to |insns|
          invariant handlers == all && |bbhandlers| == bb && rthandlers == Flat(all[..bb]) + insns[..i]
          invariant curbb == Pointers(Start(all, bb), i)
          invariant forall k :: 0 <= k < bb ==> bbhandlers[k] == BlockPointers(all)[k]
        {
          curbb := curbb + [|rthandlers|];
          rthandlers := rthandlers + [insns[i]];
        }
        bbhandlers := bbhandlers + [curbb];
        FlatStep(all, bb);
      }
      assert all[..|all|] == all;
      handlers := [];
    }
  }

  lemma PlaceNext(b: Blocks, items: seq<Item>, n: nat, after: seq<Slot>, before: seq<Slot>)
    requires b.handlers != [] && n < |items|
    ensures PlaceAll(b, items, n + 1, after, before)
         == Place(PlaceAll(b, items, n, after, before), items[n], n == 0, after, before)
  {
  }

  lemma FlatStep(hs: seq<seq<Slot>>, k: nat)
    requires k < |hs|
    ensures Flat(hs[..k + 1]) == Flat(hs[..k]) + hs[k]
    ensures Start(hs, k + 1) == Start(hs, k) + |hs[k]|
  {
    assert hs[..k + 1][..k] == hs[..k];
  }

  lemma PushNothing(b: Blocks)
    requires b.handlers != []
    ensures Push(b, []) == b
  {
    assert b.handlers[|b.handlers| - 1] + [] == b.handlers[|b.handlers| - 1];
  }

  lemma PushMore(b: Blocks, x: seq<Slot>, y: seq<Slot>)
    requires b.handlers != []
    ensures Push(Push(b, x), y) == Push(b, x + y)
  {
    var n := |b.handlers| - 1;
    assert (b.handlers[n] + x) + y == b.handlers[n] + (x + y);
  }

  // Starting an empty block and pushing onto it.
  lemma PushStarted(b: Blocks, vmaddr: nat, slots: seq<Slot>)
    ensures Push(StartBlock(b, vmaddr, []), [] + slots) == StartBlock(b, vmaddr, slots)
  {
    assert [] + ([] + slots) == slots;
  }
}
