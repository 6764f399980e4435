/**
 What encode builds (src/Orchestrator.cpp): hooks only add slots to the un-instrumented blocks, the
 block addresses are exactly the block leaders of the program in increasing order, and each block
 begins with the instruction at its address.
 */
module ChainShape {
  import Search
  import opened Chain

  // ---- erasing hooks ----

  function Erase(s: seq<Slot>): (r: seq<Slot>)
    ensures |r| <= |s|
  {
    if s == [] then [] else Erase(s[..|s| - 1]) + (if IsHook(s[|s| - 1]) then [] else [s[|s| - 1]])
  }

  function EraseAll(hs: seq<seq<Slot>>): (r: seq<seq<Slot>>)
    ensures |r| == |hs| && forall k :: 0 <= k < |hs| ==> r[k] == Erase(hs[k])
  { seq(|hs|, k requires 0 <= k < |hs| => Erase(hs[k])) }

  function EraseBlocks(b: Blocks): Blocks { b.(handlers := EraseAll(b.handlers)) }

  lemma {:induction false} EraseAppend(a: seq<Slot>, b: seq<Slot>)
    ensures Erase(a + b) == Erase(a) + Erase(b)
  {
    if b == [] {
      assert a + b == a;
    } else {
      var n := |b| - 1;
      assert (a + b)[..|a + b| - 1] == a + b[..n] && (a + b)[|a + b| - 1] == b[n];
      EraseAppend(a, b[..n]);
    }
  }

  lemma EraseHook(on: bool, f: EventFunc)
    requires IsHook(Event(f))
    ensures Erase(Hook(on, f)) == []
  {
  }

  lemma EraseOne(s: Slot)
    ensures Erase([s]) == if IsHook(s) then [] else [s]
  {
    assert [s][..0] == [] && Erase([]) == [];
  }

  predicate Silent(cfg: EventConfig) { !cfg.insn && !cfg.block && !cfg.func && !cfg.debug }

  lemma EraseKept(f: EventFunc)
    requires !IsHook(Event(f))
    ensures Erase([Event(f)]) == [Event(f)]
  {
    EraseOne(Event(f));
  }

  lemma EraseAfter(insn: GuestInsn, arm64: bool, cfg: EventConfig, none: EventConfig)
    requires Silent(none)
    ensures Erase(After(insn, arm64, cfg)) == After(insn, arm64, none)
  {
    match insn.typ
    case Syscall => EraseKept(SyscallInterpret);
    case Trap => EraseKept(InterruptInterpret);
    case _ => EraseHook(cfg.insn, InsnAfter);
  }

  // The end of a function: the hook goes, the slot that finishes it stays.
  lemma EraseReturn(on: bool)
    ensures Erase(Hook(on, FuncAfter) + [Event(FinishFunction)]) == [] + [Event(FinishFunction)]
  {
    EraseAppend(Hook(on, FuncAfter), [Event(FinishFunction)]);
    EraseHook(on, FuncAfter);
    EraseKept(FinishFunction);
  }

  lemma EraseEnding(insn: GuestInsn, cfg: EventConfig, none: EventConfig)
    requires Silent(none)
    ensures Erase(Ending(insn, cfg)) == Ending(insn, none)
  {
    match insn.typ
    case Ret => EraseReturn(cfg.func);
    case Call => EraseKept(CallInterpret);
    case Jump => EraseKept(JumpInterpret);
    case JCond => EraseKept(JumpInterpret);
    case _ =>
  }

  lemma EraseInsn(insn: GuestInsn, arm64: bool, cfg: EventConfig, none: EventConfig)
    requires Silent(none)
    ensures Erase(InsnSlots(insn, arm64, cfg)) == InsnSlots(insn, arm64, none)
  {
    var (a, b, c, d, e) := (Hook(cfg.insn, InsnBefore), Hook(cfg.debug, Debugging), [RealSlot(insn)],
                            After(insn, arm64, cfg), Ending(insn, cfg));
    EraseAppend(a + b + c + d, e);
    EraseAppend(a + b + c, d);
    EraseAppend(a + b, c);
    EraseAppend(a, b);
    EraseHook(cfg.insn, InsnBefore);
    EraseHook(cfg.debug, Debugging);
    EraseOne(RealSlot(insn));
    EraseAfter(insn, arm64, cfg, none);
    EraseEnding(insn, cfg, none);
  }

  lemma ErasePush(b: Blocks, s: seq<Slot>)
    requires b.handlers != []
    ensures EraseBlocks(Push(b, s)) == Push(EraseBlocks(b), Erase(s))
  {
    EraseAppend(b.handlers[|b.handlers| - 1], s);
    assert EraseAll(Push(b, s).handlers) == Push(EraseBlocks(b), Erase(s)).handlers;
  }

  lemma EraseStart(b: Blocks, vmaddr: nat, s: seq<Slot>)
    ensures EraseBlocks(StartBlock(b, vmaddr, s)) == StartBlock(EraseBlocks(b), vmaddr, Erase(s))
  {
    assert EraseAll(b.handlers + [s]) == EraseAll(b.handlers) + [Erase(s)];
  }

  function EraseItems(items: seq<Item>): (r: seq<Item>)
    ensures |r| == |items|
  { seq(|items|, i requires 0 <= i < |items| => items[i].(slots := Erase(items[i].slots))) }

  lemma ErasePlace(b: Blocks, item: Item, first: bool, after: seq<Slot>, before: seq<Slot>)
    requires b.handlers != []
    ensures EraseBlocks(Place(b, item, first, after, before))
         == Place(EraseBlocks(b), item.(slots := Erase(item.slots)), first, Erase(after), Erase(before))
  {
    if Splits(item, first, b.newbb) {
      ErasePush(b, after);
      EraseStart(Push(b, after), item.vmaddr, before);
      ErasePush(StartBlock(Push(b, after), item.vmaddr, before), item.slots);
    } else {
      ErasePush(b, item.slots);
    }
  }

  // x is c with one more instruction placed.
  ghost predicate PlacedOne(c: Blocks, item: Item, first: bool, after: seq<Slot>, before: seq<Slot>, x: Blocks) {
    c.handlers != [] && x == Place(c, item, first, after, before)
  }

  lemma PlacedNext(b: Blocks, items: seq<Item>, n: nat, after: seq<Slot>, before: seq<Slot>)
    requires b.handlers != [] && 0 < n <= |items|
    ensures PlacedOne(PlaceAll(b, items, n - 1, after, before), items[n - 1], n == 1, after, before,
                      PlaceAll(b, items, n, after, before))
  {
    PlaceNext(b, items, n - 1, after, before);
  }

  ghost predicate BlocksErase(x: Blocks, y: Blocks) { EraseBlocks(x) == y }

  lemma {:induction false} ErasePlaceAll(b: Blocks, d: Blocks, items: seq<Item>, items': seq<Item>, n: nat,
                                         after: seq<Slot>, before: seq<Slot>, after': seq<Slot>, before': seq<Slot>)
    requires b.handlers != [] && d.handlers != [] && n <= |items| && BlocksErase(b, d)
    requires items' == EraseItems(items) && after' == Erase(after) && before' == Erase(before)
    ensures BlocksErase(PlaceAll(b, items, n, after, before), PlaceAll(d, items', n, after', before'))
    decreases n
  {
    if n > 0 {
      ErasePlaceAll(b, d, items, items', n - 1, after, before, after', before');
      PlacedNext(b, items, n, after, before);
      PlacedNext(d, items', n, after', before');
      assert items'[n - 1] == items[n - 1].(slots := Erase(items[n - 1].slots));
      ErasePlaceTo(PlaceAll(b, items, n - 1, after, before), PlaceAll(d, items', n - 1, after', before'), items[n - 1],
                   items'[n - 1], n == 1, after, before, after', before', PlaceAll(b, items, n, after, before),
                   PlaceAll(d, items', n, after', before'));
    }
  }

  lemma ErasePlaceTo(c: Blocks, d: Blocks, item: Item, item': Item, first: bool, after: seq<Slot>, before: seq<Slot>,
                     after': seq<Slot>, before': seq<Slot>, x: Blocks, y: Blocks)
    requires BlocksErase(c, d) && item' == item.(slots := Erase(item.slots))
    requires after' == Erase(after) && before' == Erase(before)
    requires PlacedOne(c, item, first, after, before, x) && PlacedOne(d, item', first, after', before', y)
    ensures BlocksErase(x, y)
  {
    ErasePlace(c, item, first, after, before);
  }

  lemma EraseAllItems(insns: seq<GuestInsn>, addr: nat, arm64: bool, cfg: EventConfig, none: EventConfig)
    requires Silent(none)
    ensures EraseItems(Items(insns, addr, arm64, cfg)) == Items(insns, addr, arm64, none)
  {
    forall i | 0 <= i < |insns| ensures Erase(InsnSlots(insns[i], arm64, cfg)) == InsnSlots(insns[i], arm64, none) {
      EraseInsn(insns[i], arm64, cfg, none);
    }
  }

  // Erasing the encoding of the first n functions gives their plain encoding.
  ghost predicate ErasesTo(funcs: seq<Func>, n: nat, addend: nat, arm64: bool, cfg: EventConfig, none: EventConfig)
    requires n <= |funcs|
  { EraseBlocks(EncodeFuncs(funcs, n, addend, arm64, cfg)) == EncodeFuncs(funcs, n, addend, arm64, none) }

  lemma {:induction false} EraseFuncs(funcs: seq<Func>, n: nat, addend: nat, arm64: bool, cfg: EventConfig,
                                      none: EventConfig)
    requires Silent(none) && n <= |funcs|
    ensures ErasesTo(funcs, n, addend, arm64, cfg, none)
    decreases n
  {
    if n == 0 {
      EraseNoFuncs(funcs, n, addend, arm64, cfg, none);
    } else {
      EraseFuncs(funcs, n - 1, addend, arm64, cfg, none);
      EraseNextFunc(funcs, n, addend, arm64, cfg, none);
    }
  }

  lemma EraseNoFuncs(funcs: seq<Func>, n: nat, addend: nat, arm64: bool, cfg: EventConfig, none: EventConfig)
    requires n == 0
    ensures ErasesTo(funcs, n, addend, arm64, cfg, none)
  {
  }

  lemma EraseNextFunc(funcs: seq<Func>, n: nat, addend: nat, arm64: bool, cfg: EventConfig, none: EventConfig)
    requires Silent(none) && 0 < n <= |funcs| && ErasesTo(funcs, n - 1, addend, arm64, cfg, none)
    ensures ErasesTo(funcs, n, addend, arm64, cfg, none)
  {
    EraseFunc(EncodeFuncs(funcs, n - 1, addend, arm64, cfg), funcs[n - 1], addend, arm64, cfg, none);
  }

  lemma ErasePlaceFunc(b: Blocks, vmaddr: nat, opening: seq<Slot>, items: seq<Item>, after: seq<Slot>,
                       before: seq<Slot>)
    ensures EraseBlocks(PlaceFunc(b, vmaddr, opening, items, after, before))
         == PlaceFunc(EraseBlocks(b), vmaddr, Erase(opening), EraseItems(items), Erase(after), Erase(before))
  {
    EraseStart(b, vmaddr, opening);
    ErasePlaceAll(StartBlock(b, vmaddr, opening), StartBlock(EraseBlocks(b), vmaddr, Erase(opening)), items,
                  EraseItems(items), |items|, after, before, Erase(after), Erase(before));
  }

  lemma EraseOpening(cfg: EventConfig, none: EventConfig)
    requires Silent(none)
    ensures Erase(Hook(cfg.func, FuncBefore) + Hook(cfg.block, BlockBefore))
         == Hook(none.func, FuncBefore) + Hook(none.block, BlockBefore)
    ensures Erase(Hook(cfg.block, BlockAfter)) == Hook(none.block, BlockAfter)
    ensures Erase(Hook(cfg.block, BlockBefore)) == Hook(none.block, BlockBefore)
  {
    EraseAppend(Hook(cfg.func, FuncBefore), Hook(cfg.block, BlockBefore));
    EraseHook(cfg.func, FuncBefore);
    EraseHook(cfg.block, BlockBefore);
    EraseHook(cfg.block, BlockAfter);
  }

  lemma EraseFunc(b: Blocks, f: Func, addend: nat, arm64: bool, cfg: EventConfig, none: EventConfig)
    requires Silent(none)
    ensures EraseBlocks(EncodeFunc(b, f, addend, arm64, cfg)) == EncodeFunc(EraseBlocks(b), f, addend, arm64, none)
  {
    var (p, q) := (PartsOf(f, addend, arm64, cfg), PartsOf(f, addend, arm64, none));
    PartsErase(f, addend, arm64, cfg, none);
    EncodesParts(b, f, addend, arm64, cfg);
    EncodesParts(EraseBlocks(b), f, addend, arm64, none);
    ErasePlaceParts(b, p, q, EncodeFunc(b, f, addend, arm64, cfg), EncodeFunc(EraseBlocks(b), f, addend, arm64, none));
  }

  // What a function is made of before it is placed.
  datatype Parts = Parts(vmaddr: nat, opening: seq<Slot>, items: seq<Item>, after: seq<Slot>, before: seq<Slot>)

  function PartsOf(f: Func, addend: nat, arm64: bool, cfg: EventConfig): Parts {
    Parts(f.start + addend, Hook(cfg.func, FuncBefore) + Hook(cfg.block, BlockBefore),
          Items(f.insns, f.start + addend, arm64, cfg),
          Hook(cfg.block, BlockAfter), Hook(cfg.block, BlockBefore))
  }

  ghost predicate PartsEraseTo(p: Parts, q: Parts) {
    q == Parts(p.vmaddr, Erase(p.opening), EraseItems(p.items), Erase(p.after), Erase(p.before))
  }

  lemma PartsErase(f: Func, addend: nat, arm64: bool, cfg: EventConfig, none: EventConfig)
    requires Silent(none)
    ensures PartsEraseTo(PartsOf(f, addend, arm64, cfg), PartsOf(f, addend, arm64, none))
  {
    EraseOpening(cfg, none);
    EraseAllItems(f.insns, f.start + addend, arm64, cfg, none);
  }

  ghost predicate PlacedParts(b: Blocks, p: Parts, x: Blocks)
  { x == PlaceFunc(b, p.vmaddr, p.opening, p.items, p.after, p.before) }

  lemma EncodesParts(b: Blocks, f: Func, addend: nat, arm64: bool, cfg: EventConfig)
    ensures PlacedParts(b, PartsOf(f, addend, arm64, cfg), EncodeFunc(b, f, addend, arm64, cfg))
  {
  }

  lemma ErasePlaceParts(b: Blocks, p: Parts, q: Parts, x: Blocks, y: Blocks)
    requires PartsEraseTo(p, q) && PlacedParts(b, p, x) && PlacedParts(EraseBlocks(b), q, y)
    ensures EraseBlocks(x) == y
  {
    ErasePlaceFunc(b, p.vmaddr, p.opening, p.items, p.after, p.before);
  }

  // Instrumentation only adds hooks: erasing them gives the un-instrumented encoding, block by block.
  lemma EraseEncode(funcs: seq<Func>, addend: nat, arm64: bool, cfg: EventConfig)
    requires funcs != []
    ensures EraseBlocks(Encode(funcs, addend, arm64, cfg)) == Encode(funcs, addend, arm64, NO_HOOKS)
  {
    EraseFuncs(funcs, |funcs|, addend, arm64, cfg, NO_HOOKS);
    if |funcs| == 1 {
      ErasePush(EncodeFuncs(funcs, 1, addend, arm64, cfg), [Event(FinishEmulation)]);
      EraseOne(Event(FinishEmulation));
    }
  }

  // The same for the flat arrays.
  lemma {:induction false} EraseFlat(hs: seq<seq<Slot>>)
    ensures Flat(EraseAll(hs)) == Erase(Flat(hs))
  {
    if hs != [] {
      var n := |hs| - 1;
      EraseFlat(hs[..n]);
      EraseAppend(Flat(hs[..n]), hs[n]);
      assert EraseAll(hs)[..n] == EraseAll(hs[..n]);
    }
  }

  // ---- block leaders ----

  // Instruction i starts a block: the first one, a referenced one, or one behind a jump, call or return.
  predicate Leads(insns: seq<GuestInsn>, i: nat)
    requires i < |insns|
  { i == 0 || insns[i].referenced || Transfers(insns[i - 1].typ) }

  // The addresses of the leaders among the first n instructions of the function at addr.
  function Leaders(insns: seq<GuestInsn>, n: nat, addr: nat): seq<nat>
    requires n <= |insns|
    decreases n
  { if n == 0 then [] else Leaders(insns, n - 1,
                                   addr) + (if Leads(insns, n - 1) then [addr + insns[n - 1].fnoff] else []) }

  function AllLeaders(funcs: seq<Func>, n: nat, addend: nat): seq<nat>
    requires n <= |funcs|
    decreases n
  {
    if n == 0 then []
    else AllLeaders(funcs, n - 1, addend) + Leaders(funcs[n - 1].insns, |funcs[n - 1].insns|,
                                                    funcs[n - 1].start + addend)
  }

  // Sorted, non-overlapping, non-empty functions whose instructions lie inside them in order.
  ghost predicate FuncOk(f: Func) {
    && f.insns != [] && f.insns[0].fnoff == 0
    && (forall i, j :: 0 <= i < j < |f.insns| ==> f.insns[i].fnoff < f.insns[j].fnoff)
    && (forall i :: 0 <= i < |f.insns| ==> f.start + f.insns[i].fnoff < f.end)
  }

  ghost predicate FuncsOk(funcs: seq<Func>) {
    && funcs != [] && (forall i :: 0 <= i < |funcs| ==> FuncOk(funcs[i]))
    && (forall i, j :: 0 <= i < j < |funcs| ==> funcs[i].end <= funcs[j].start)
  }

  predicate SameBoundary(item: Item, insn: GuestInsn, addr: nat) {
    item.vmaddr == addr + insn.fnoff && item.referenced == insn.referenced && item.transfers == Transfers(insn.typ)
  }

  ghost predicate SameBoundaries(items: seq<Item>, insns: seq<GuestInsn>, addr: nat) {
    |items| == |insns| && forall i :: 0 <= i < |insns| ==> SameBoundary(items[i], insns[i], addr)
  }

  lemma ItemsBoundaries(insns: seq<GuestInsn>, addr: nat, arm64: bool, cfg: EventConfig)
    ensures SameBoundaries(Items(insns, addr, arm64, cfg), insns, addr)
  {
  }

  // r has the addresses of b and the leaders of the first n instructions.
  ghost predicate AddrsAre(b: Blocks, insns: seq<GuestInsn>, n: nat, addr: nat, r: Blocks)
    requires 0 < n <= |insns|
  { r.vmaddrs == b.vmaddrs + Leaders(insns, n, addr) && r.newbb == Transfers(insns[n - 1].typ) }

  lemma {:induction false} PlaceLeaders(b: Blocks, opening: seq<Slot>, items: seq<Item>, insns: seq<GuestInsn>, n: nat,
                                        addr: nat, after: seq<Slot>, before: seq<Slot>)
    requires 0 < n <= |items| && SameBoundaries(items, insns, addr) && insns[0].fnoff == 0
    ensures AddrsAre(b, insns, n, addr, PlaceAll(StartBlock(b, addr, opening), items, n, after, before))
    decreases n
  {
    var s := StartBlock(b, addr, opening);
    PlacedNext(s, items, n, after, before);
    assert SameBoundary(items[n - 1], insns[n - 1], addr);
    if n == 1 {
      PlaceFirstAddr(b, s, opening, items[0], insns, n, addr, after, before, PlaceAll(s, items, n, after, before));
    } else {
      PlaceLeaders(b, opening, items, insns, n - 1, addr, after, before);
      PlaceNextAddr(b, PlaceAll(s, items, n - 1, after, before), items[n - 1], insns, n, addr, after, before,
                    PlaceAll(s, items, n, after, before));
    }
  }

  lemma PlaceFirstAddr(b: Blocks, s: Blocks, opening: seq<Slot>, item: Item, insns: seq<GuestInsn>, n: nat, addr: nat,
                       after: seq<Slot>, before: seq<Slot>, x: Blocks)
    requires n == 1 && s == StartBlock(b, addr, opening) && insns != [] && insns[0].fnoff == 0
    requires SameBoundary(item, insns[0], addr) && PlacedOne(s, item, true, after, before, x)
    ensures AddrsAre(b, insns, n, addr, x)
  {
    assert Leaders(insns, n - 1, addr) == [] && Leaders(insns, n, addr) == [addr];
  }

  lemma PlaceNextAddr(b: Blocks, c: Blocks, item: Item, insns: seq<GuestInsn>, n: nat, addr: nat, after: seq<Slot>,
                      before: seq<Slot>, x: Blocks)
    requires 1 < n <= |insns| && SameBoundary(item, insns[n - 1], addr) && AddrsAre(b, insns, n - 1, addr, c)
    requires PlacedOne(c, item, false, after, before, x)
    ensures AddrsAre(b, insns, n, addr, x)
  {
    PlaceAddrs(c, item, after, before);
  }

  lemma PlaceAddrs(b: Blocks, item: Item, after: seq<Slot>, before: seq<Slot>)
    requires b.handlers != []
    ensures var r := Place(b, item, false, after, before);
      r.vmaddrs == b.vmaddrs + (if item.referenced || b.newbb then [item.vmaddr] else []) && r.newbb == item.transfers
  {
    assert b.vmaddrs + [] == b.vmaddrs;
  }

  lemma FuncAddrs(b: Blocks, f: Func, addend: nat, arm64: bool, cfg: EventConfig)
    requires FuncOk(f)
    ensures EncodeFunc(b, f, addend, arm64, cfg).vmaddrs == b.vmaddrs + Leaders(f.insns, |f.insns|, f.start + addend)
  {
    var items := Items(f.insns, f.start + addend, arm64, cfg);
    ItemsBoundaries(f.insns, f.start + addend, arm64, cfg);
    PlacedAddrs(b, Hook(cfg.func, FuncBefore) + Hook(cfg.block, BlockBefore), items, f.insns, f.start + addend,
                Hook(cfg.block, BlockAfter), Hook(cfg.block, BlockBefore), EncodeFunc(b, f, addend, arm64, cfg));
  }

  lemma PlacedAddrs(b: Blocks, opening: seq<Slot>, items: seq<Item>, insns: seq<GuestInsn>, addr: nat,
                    after: seq<Slot>, before: seq<Slot>, x: Blocks)
    requires x == PlaceFunc(b, addr, opening, items, after, before)
    requires items != [] && SameBoundaries(items, insns, addr) && insns[0].fnoff == 0
    ensures x.vmaddrs == b.vmaddrs + Leaders(insns, |insns|, addr)
  {
    PlaceLeaders(b, opening, items, insns, |items|, addr, after, before);
  }

  ghost predicate EachOk(funcs: seq<Func>) { forall i :: 0 <= i < |funcs| ==> FuncOk(funcs[i]) }

  // The block addresses of the first n functions are their leaders, whatever the event configuration.
  ghost predicate Led(funcs: seq<Func>, n: nat, addend: nat, arm64: bool, cfg: EventConfig)
    requires n <= |funcs|
  { EncodeFuncs(funcs, n, addend, arm64, cfg).vmaddrs == AllLeaders(funcs, n, addend) }

  lemma {:induction false} FuncsAddrs(funcs: seq<Func>, n: nat, addend: nat, arm64: bool, cfg: EventConfig)
    requires EachOk(funcs) && n <= |funcs|
    ensures Led(funcs, n, addend, arm64, cfg)
    decreases n
  {
    if n == 0 {
      NoneLed(funcs, n, addend, arm64, cfg);
    } else {
      FuncsAddrs(funcs, n - 1, addend, arm64, cfg);
      NextFuncAddrs(funcs, n, addend, arm64, cfg);
    }
  }

  lemma NoneLed(funcs: seq<Func>, n: nat, addend: nat, arm64: bool, cfg: EventConfig)
    requires n == 0
    ensures Led(funcs, n, addend, arm64, cfg)
  {
  }

  lemma NextFuncAddrs(funcs: seq<Func>, n: nat, addend: nat, arm64: bool, cfg: EventConfig)
    requires 0 < n <= |funcs| && EachOk(funcs) && Led(funcs, n - 1, addend, arm64, cfg)
    ensures Led(funcs, n, addend, arm64, cfg)
  {
    NextLed(funcs[n - 1], addend, arm64, cfg, EncodeFuncs(funcs, n - 1, addend, arm64, cfg),
            EncodeFuncs(funcs, n, addend, arm64, cfg), AllLeaders(funcs, n - 1, addend));
  }

  lemma NextLed(f: Func, addend: nat, arm64: bool, cfg: EventConfig, b: Blocks, x: Blocks, l: seq<nat>)
    requires FuncOk(f) && x == EncodeFunc(b, f, addend, arm64, cfg) && b.vmaddrs == l
    ensures x.vmaddrs == l + Leaders(f.insns, |f.insns|, f.start + addend)
  {
    FuncAddrs(b, f, addend, arm64, cfg);
  }

  lemma IncreasingAppend(l: seq<nat>, m: seq<nat>)
    requires Search.StrictlySorted(l) && Search.StrictlySorted(m) && l != [] && m != [] && l[|l| - 1] < m[0]
    ensures Search.StrictlySorted(l + m)
  {
    forall i, j | 0 <= i < j < |l + m| ensures (l + m)[i] < (l + m)[j] {
      if i < |l| <= j { assert l[i] <= l[|l| - 1] && m[0] <= m[j - |l|]; }
    }
  }

  // The leaders of a function are in increasing order, between its bounds, starting with its entry.
  lemma {:induction false} LeadersIncrease(f: Func, n: nat, addr: nat)
    requires FuncOk(f) && 0 < n <= |f.insns|
    ensures var l := Leaders(f.insns, n, addr);
      Search.StrictlySorted(l) && l != [] && l[0] == addr && l[|l| - 1] <= addr + f.insns[n - 1].fnoff
    decreases n
  {
    if n == 1 {
      assert Leaders(f.insns, 0, addr) == [] && Leaders(f.insns, 1, addr) == [addr];
    } else {
      LeadersIncrease(f, n - 1, addr);
      var l := Leaders(f.insns, n - 1, addr);
      assert f.insns[n - 2].fnoff < f.insns[n - 1].fnoff;
      IncreasingAppend(l, [addr + f.insns[n - 1].fnoff]);
      assert l + [] == l;
    }
  }

  // Increasing addresses from lo to below hi.
  ghost predicate Spans(l: seq<nat>, lo: nat, hi: nat)
  { Search.StrictlySorted(l) && l != [] && l[0] == lo && l[|l| - 1] < hi }

  lemma SpansAppend(l: seq<nat>, m: seq<nat>, lo: nat, mid: nat, start: nat, hi: nat)
    requires Spans(l, lo, mid) && Spans(m, start, hi) && mid <= start
    ensures Spans(l + m, lo, hi)
  {
    IncreasingAppend(l, m);
  }

  lemma FuncSpans(f: Func, addend: nat)
    requires FuncOk(f)
    ensures Spans(Leaders(f.insns, |f.insns|, f.start + addend), f.start + addend, f.end + addend)
  {
    LeadersIncrease(f, |f.insns|, f.start + addend);
  }

  // Block addresses strictly increase, from the first function's entry to below the last one's end.
  lemma {:induction false} AllLeadersIncrease(funcs: seq<Func>, n: nat, addend: nat)
    requires FuncsOk(funcs) && 0 < n <= |funcs|
    ensures Spans(AllLeaders(funcs, n, addend), funcs[0].start + addend, funcs[n - 1].end + addend)
    decreases n
  {
    if n == 1 {
      var f := funcs[0];
      FuncSpans(f, addend);
      FirstSpans(funcs, n, addend, Leaders(f.insns, |f.insns|, f.start + addend), f.start + addend, f.end + addend);
    } else {
      AllLeadersIncrease(funcs, n - 1, addend);
      NextSpans(funcs, n, addend, AllLeaders(funcs, n - 1, addend));
    }
  }

  lemma FirstSpans(funcs: seq<Func>, n: nat, addend: nat, m: seq<nat>, lo: nat, hi: nat)
    requires funcs != [] && n == 1 && Spans(m, lo, hi)
    requires m == Leaders(funcs[0].insns, |funcs[0].insns|, funcs[0].start + addend)
    ensures Spans(AllLeaders(funcs, n, addend), lo, hi)
  {
    FirstLeaders(funcs, n, addend);
    SameSpans(AllLeaders(funcs, n, addend), m, lo, hi);
  }

  lemma SameSpans(l: seq<nat>, m: seq<nat>, lo: nat, hi: nat)
    requires l == m && Spans(m, lo, hi)
    ensures Spans(l, lo, hi)
  {
  }

  lemma FirstLeaders(funcs: seq<Func>, n: nat, addend: nat)
    requires n == 1 && funcs != []
    ensures AllLeaders(funcs, n, addend) == Leaders(funcs[0].insns, |funcs[0].insns|, funcs[0].start + addend)
  {
    var m := Leaders(funcs[0].insns, |funcs[0].insns|, funcs[0].start + addend);
    assert AllLeaders(funcs, n - 1, addend) == [] && [] + m == m;
  }

  lemma NextSpans(funcs: seq<Func>, n: nat, addend: nat, l: seq<nat>)
    requires FuncsOk(funcs) && 1 < n <= |funcs| && l == AllLeaders(funcs, n - 1, addend)
    requires Spans(l, funcs[0].start + addend, funcs[n - 2].end + addend)
    ensures Spans(AllLeaders(funcs, n, addend), funcs[0].start + addend, funcs[n - 1].end + addend)
  {
    var f := funcs[n - 1];
    FuncSpans(f, addend);
    assert funcs[n - 2].end <= f.start;
    SpansAppend(l, Leaders(f.insns, |f.insns|, f.start + addend), funcs[0].start + addend, funcs[n - 2].end + addend,
                f.start + addend, f.end + addend);
  }

  // a is the address of a leader among the first n instructions.
  ghost predicate LeaderIn(insns: seq<GuestInsn>, n: nat, addr: nat, a: nat)
    requires n <= |insns|
  { exists i: nat :: i < n && Leads(insns, i) && a == addr + insns[i].fnoff }

  lemma {:induction false} LeadersMembers(insns: seq<GuestInsn>, n: nat, addr: nat, a: nat)
    requires n <= |insns|
    ensures a in Leaders(insns, n, addr) <==> LeaderIn(insns, n, addr, a)
    decreases n
  {
    if n > 0 {
      LeadersMembers(insns, n - 1, addr, a);
      if LeaderIn(insns, n - 1, addr, a) {
        var k: nat :| k < n - 1 && Leads(insns, k) && a == addr + insns[k].fnoff;
        assert k < n;
      }
    }
  }

  // a is the address of a block leader of one of the first n functions.
  ghost predicate LeaderOf(funcs: seq<Func>, n: nat, addend: nat, a: nat)
    requires n <= |funcs|
  { exists k: nat :: k < n && LeaderIn(funcs[k].insns, |funcs[k].insns|, funcs[k].start + addend, a) }

  lemma {:induction false} AllLeadersMembers(funcs: seq<Func>, n: nat, addend: nat, a: nat)
    requires n <= |funcs|
    ensures a in AllLeaders(funcs, n, addend) <==> LeaderOf(funcs, n, addend, a)
    decreases n
  {
    if n > 0 {
      var f := funcs[n - 1];
      AllLeadersMembers(funcs, n - 1, addend, a);
      LeadersMembers(f.insns, |f.insns|, f.start + addend, a);
      LeaderOfNext(funcs, n, addend, a);
      InAppend(AllLeaders(funcs, n - 1, addend), Leaders(f.insns, |f.insns|, f.start + addend), a);
    }
  }

  lemma InAppend(l: seq<nat>, m: seq<nat>, a: nat)
    ensures a in l + m <==> a in l || a in m
  {
  }

  lemma LeaderOfNext(funcs: seq<Func>, n: nat, addend: nat, a: nat)
    requires 0 < n <= |funcs|
    ensures LeaderOf(funcs, n, addend, a)
       <==> LeaderOf(funcs, n - 1, addend, a) || LeaderIn(funcs[n - 1].insns, |funcs[n - 1].insns|,
                                                          funcs[n - 1].start + addend, a)
  {
    if LeaderOf(funcs, n - 1, addend, a) {
      var k: nat :| k < n - 1 && LeaderIn(funcs[k].insns, |funcs[k].insns|, funcs[k].start + addend, a);
      assert k < n;
    }
  }

  // ---- block heads ----

  // s is the real slot of the instruction at address a.
  ghost predicate IsInsn(funcs: seq<Func>, addend: nat, a: nat, s: Slot) {
    exists k: nat, i: nat :: k < |funcs| && i < |funcs[k].insns| && InsnAt(funcs[k], i, addend, a, s)
  }

  predicate InsnAt(f: Func, i: nat, addend: nat, a: nat, s: Slot)
    requires i < |f.insns|
  { a == f.start + addend + f.insns[i].fnoff && s == RealSlot(f.insns[i]) }

  ghost predicate HeadsOk(b: Blocks, funcs: seq<Func>, addend: nat) {
    && |b.vmaddrs| == |b.handlers|
    && forall k :: 0 <= k < |b.handlers| ==>
      b.handlers[k] != [] && IsInsn(funcs, addend, b.vmaddrs[k], b.handlers[k][0])
  }

  ghost predicate ItemHeads(items: seq<Item>, funcs: seq<Func>, addend: nat) {
    forall i :: 0 <= i < |items| ==> items[i].slots != [] && IsInsn(funcs, addend, items[i].vmaddr, items[i].slots[0])
  }

  lemma PlaceHead(b: Blocks, item: Item, funcs: seq<Func>, addend: nat)
    requires HeadsOk(b, funcs, addend) && b.handlers != [] && ItemHeads([item], funcs, addend)
    ensures HeadsOk(Place(b, item, false, [], []), funcs, addend)
  {
    assert [item][0] == item;
  }

  lemma PlaceFirst(b: Blocks, item: Item, funcs: seq<Func>, addend: nat)
    requires HeadsOk(b, funcs, addend) && ItemHeads([item], funcs, addend)
    ensures HeadsOk(Place(StartBlock(b, item.vmaddr, []), item, true, [], []), funcs, addend)
  {
    assert [item][0] == item;
  }

  lemma {:induction false} PlaceHeads(b: Blocks, items: seq<Item>, n: nat, funcs: seq<Func>, addend: nat)
    requires HeadsOk(b, funcs, addend) && 0 < n <= |items| && ItemHeads(items, funcs, addend)
    ensures HeadsOk(PlaceAll(StartBlock(b, items[0].vmaddr, []), items, n, [], []), funcs, addend)
    decreases n
  {
    var s := StartBlock(b, items[0].vmaddr, []);
    PlaceNext(s, items, n - 1, [], []);
    if n == 1 {
      PlaceFirst(b, items[0], funcs, addend);
    } else {
      PlaceHeads(b, items, n - 1, funcs, addend);
      PlaceHead(PlaceAll(s, items, n - 1, [], []), items[n - 1], funcs, addend);
    }
  }

  lemma FuncItemHeads(funcs: seq<Func>, k: nat, addend: nat, arm64: bool, none: EventConfig)
    requires k < |funcs| && Silent(none)
    ensures ItemHeads(Items(funcs[k].insns, funcs[k].start + addend, arm64, none), funcs, addend)
  {
    var (f, items) := (funcs[k], Items(funcs[k].insns, funcs[k].start + addend, arm64, none));
    forall i | 0 <= i < |items| ensures items[i].slots != [] && IsInsn(funcs, addend, items[i].vmaddr,
        items[i].slots[0]) {
      PlainHead(f.insns[i], arm64, none);
      assert InsnAt(f, i, addend, items[i].vmaddr, items[i].slots[0]);
    }
  }

  // Without hooks an instruction's slots begin with its real slot.
  lemma PlainHead(insn: GuestInsn, arm64: bool, none: EventConfig)
    requires Silent(none)
    ensures InsnSlots(insn, arm64, none) != [] && InsnSlots(insn, arm64, none)[0] == RealSlot(insn)
  {
  }

  lemma FuncHeads(b: Blocks, funcs: seq<Func>, k: nat, addend: nat, arm64: bool, none: EventConfig)
    requires k < |funcs| && FuncOk(funcs[k]) && Silent(none) && HeadsOk(b, funcs, addend)
    ensures HeadsOk(EncodeFunc(b, funcs[k], addend, arm64, none), funcs, addend)
  {
    var f := funcs[k];
    var items := Items(f.insns, f.start + addend, arm64, none);
    FuncItemHeads(funcs, k, addend, arm64, none);
    SilentHooks(none);
    PlacedHeads(b, f.start + addend, Hook(none.func, FuncBefore) + Hook(none.block, BlockBefore), items,
                Hook(none.block, BlockAfter),
                Hook(none.block, BlockBefore), EncodeFunc(b, f, addend, arm64, none), funcs, addend);
  }

  lemma SilentHooks(none: EventConfig)
    requires Silent(none)
    ensures Hook(none.func, FuncBefore) + Hook(none.block, BlockBefore) == []
    ensures Hook(none.block, BlockAfter) == [] && Hook(none.block, BlockBefore) == []
  {
  }

  lemma PlacedHeads(b: Blocks, vmaddr: nat, opening: seq<Slot>, items: seq<Item>, after: seq<Slot>, before: seq<Slot>,
                    x: Blocks,
                    funcs: seq<Func>, addend: nat)
    requires x == PlaceFunc(b, vmaddr, opening, items, after, before) && opening == [] && after == [] && before == []
    requires HeadsOk(b, funcs, addend) && items != [] && vmaddr == items[0].vmaddr && ItemHeads(items, funcs, addend)
    ensures HeadsOk(x, funcs, addend)
  {
    PlaceHeads(b, items, |items|, funcs, addend);
  }

  lemma {:induction false} FuncsHeads(funcs: seq<Func>, n: nat, addend: nat, arm64: bool, none: EventConfig)
    requires n <= |funcs| && (forall i :: 0 <= i < |funcs| ==> FuncOk(funcs[i])) && Silent(none)
    ensures HeadsOk(EncodeFuncs(funcs, n, addend, arm64, none), funcs, addend)
    decreases n
  {
    if n > 0 {
      FuncsHeads(funcs, n - 1, addend, arm64, none);
      NextFuncHeads(funcs, EncodeFuncs(funcs, n - 1, addend, arm64, none), n, addend, arm64, none);
    }
  }

  lemma NextFuncHeads(funcs: seq<Func>, b: Blocks, n: nat, addend: nat, arm64: bool, none: EventConfig)
    requires 0 < n <= |funcs| && FuncOk(funcs[n - 1]) && Silent(none)
    requires b == EncodeFuncs(funcs, n - 1, addend, arm64, none)
    requires HeadsOk(b, funcs, addend)
    ensures HeadsOk(EncodeFuncs(funcs, n, addend, arm64, none), funcs, addend)
  {
    FuncHeads(b, funcs, n - 1, addend, arm64, none);
  }

  /**
   For sorted, non-overlapping, non-empty functions and any event configuration the block addresses
   are exactly the leaders, strictly increasing from the first entry to below maxaddr.
   */
  lemma EncodeLeaders(funcs: seq<Func>, addend: nat, arm64: bool, cfg: EventConfig)
    requires FuncsOk(funcs)
    ensures var l := Encode(funcs, addend, arm64, cfg).vmaddrs;
      && Spans(l, funcs[0].start + addend, funcs[|funcs| - 1].end + addend)
      && forall a: nat :: a in l <==> LeaderOf(funcs, |funcs|, addend, a)
  {
    var n := |funcs|;
    EncodeAddrs(funcs, addend, arm64, cfg);
    AllLeadersIncrease(funcs, n, addend);
    forall a: nat ensures a in AllLeaders(funcs, n, addend) <==> LeaderOf(funcs, n, addend, a) {
      AllLeadersMembers(funcs, n, addend, a);
    }
  }

  lemma EncodeAddrs(funcs: seq<Func>, addend: nat, arm64: bool, cfg: EventConfig)
    requires FuncsOk(funcs)
    ensures Encode(funcs, addend, arm64, cfg).vmaddrs == AllLeaders(funcs, |funcs|, addend)
  {
    FuncsAddrs(funcs, |funcs|, addend, arm64, cfg);
  }

  // There is one handler list per address; behind its hooks it begins with the instruction at that address.
  lemma EncodeHeads(funcs: seq<Func>, addend: nat, arm64: bool, cfg: EventConfig)
    requires FuncsOk(funcs)
    ensures var e := Encode(funcs, addend, arm64, cfg);
      && |e.vmaddrs| == |e.handlers|
      && forall k :: 0 <= k < |e.handlers| ==>
        Erase(e.handlers[k]) != [] && IsInsn(funcs, addend, e.vmaddrs[k], Erase(e.handlers[k])[0])
  {
    EraseEncode(funcs, addend, arm64, cfg);
    PlainHeads(funcs, addend, arm64, NO_HOOKS);
  }

  lemma PlainHeads(funcs: seq<Func>, addend: nat, arm64: bool, none: EventConfig)
    requires FuncsOk(funcs) && Silent(none)
    ensures HeadsOk(Encode(funcs, addend, arm64, none), funcs, addend)
  {
    FuncsHeads(funcs, |funcs|, addend, arm64, none);
  }
}
