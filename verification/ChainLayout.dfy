/**
 Where an instruction's slots lie in the flat array that encode builds (src/Orchestrator.cpp), and what
 a callback that answers Processed skips (src/Event.cpp).
 */
module ChainLayout {
  import opened Words
  import opened Chain
  import opened ChainShape
  import opened ChainRun
  import opened Simulation

  // ---- the flat array only grows at its end ----

  lemma FlatPush(b: Blocks, s: seq<Slot>)
    requires b.handlers != []
    ensures Flat(Push(b, s).handlers) == Flat(b.handlers) + s
  {
    var (h, n) := (b.handlers, |b.handlers| - 1);
    var h' := Push(b, s).handlers;
    assert h'[..n] == h[..n] && h'[n] == h[n] + s;
    assert Flat(h[..n]) + (h[n] + s) == (Flat(h[..n]) + h[n]) + s;
  }

  lemma FlatStart(b: Blocks, vmaddr: nat, s: seq<Slot>)
    ensures Flat(StartBlock(b, vmaddr, s).handlers) == Flat(b.handlers) + s
  {
    assert (b.handlers + [s])[..|b.handlers|] == b.handlers;
  }

  // The slots x are found at position pos.
  predicate Occurs(x: seq<Slot>, s: seq<Slot>, pos: nat) { pos + |x| <= |s| && s[pos..pos + |x|] == x }

  lemma OccursLonger(x: seq<Slot>, s: seq<Slot>, s': seq<Slot>, pos: nat)
    requires Occurs(x, s, pos) && s <= s'
    ensures Occurs(x, s', pos)
  {
    assert s'[pos..pos + |x|] == s[pos..pos + |x|];
  }

  lemma PushOccurs(b: Blocks, s: seq<Slot>, x: seq<Slot>, r: seq<Slot>)
    requires b.handlers != [] && x == Flat(b.handlers) && r == Flat(Push(b, s).handlers)
    ensures x <= r && Occurs(s, r, |x|)
  {
    FlatPush(b, s);
    assert r == x + s;
  }

  // Closing a block and opening the next one.
  lemma SplitGrows(b: Blocks, vmaddr: nat, after: seq<Slot>, before: seq<Slot>)
    requires b.handlers != []
    ensures Flat(b.handlers) <= Flat(StartBlock(Push(b, after), vmaddr, before).handlers)
  {
    FlatPush(b, after);
    FlatStart(Push(b, after), vmaddr, before);
  }

  // Placing an instruction appends its slots, behind the hooks of a new block if it starts one.
  lemma PlaceGrows(b: Blocks, item: Item, first: bool, after: seq<Slot>, before: seq<Slot>) returns (pos: nat)
    requires b.handlers != []
    ensures var r := Flat(Place(b, item, first, after, before).handlers);
      Flat(b.handlers) <= r && Occurs(item.slots, r, pos)
  {
    var s := if Splits(item, first, b.newbb) then StartBlock(Push(b, after), item.vmaddr, before) else b;
    if Splits(item, first, b.newbb) { SplitGrows(b, item.vmaddr, after, before); }
    pos := |Flat(s.handlers)|;
    PushOccurs(s, item.slots, Flat(s.handlers), Flat(Place(b, item, first, after, before).handlers));
  }

  ghost predicate Grows(b: Blocks, x: Blocks) { Flat(b.handlers) <= Flat(x.handlers) }

  lemma NextGrows(b: Blocks, c: Blocks, item: Item, first: bool, after: seq<Slot>, before: seq<Slot>, x: Blocks)
    requires c.handlers != [] && Grows(b, c) && x == Place(c, item, first, after, before)
    ensures Grows(b, x)
  {
    var pos := PlaceGrows(c, item, first, after, before);
  }

  lemma {:induction false} PlaceAllGrows(b: Blocks, items: seq<Item>, n: nat, after: seq<Slot>, before: seq<Slot>,
                                         x: Blocks)
    requires b.handlers != [] && n <= |items| && x == PlaceAll(b, items, n, after, before)
    ensures Grows(b, x)
    decreases n
  {
    if n > 0 {
      var c := PlaceAll(b, items, n - 1, after, before);
      PlaceAllGrows(b, items, n - 1, after, before, c);
      PlaceNext(b, items, n - 1, after, before);
      NextGrows(b, c, items[n - 1], n == 1, after, before, x);
    }
  }

  // The slots of item i are in the array after n > i items.
  lemma {:induction false} ItemOccurs(b: Blocks, items: seq<Item>, i: nat, n: nat, after: seq<Slot>,
                                      before: seq<Slot>, x: Blocks) returns (pos: nat)
    requires b.handlers != [] && i < n <= |items| && x == PlaceAll(b, items, n, after, before)
    ensures OccursIn(items[i].slots, x, pos)
    decreases n
  {
    var c := PlaceAll(b, items, n - 1, after, before);
    PlaceNext(b, items, n - 1, after, before);
    if i < n - 1 {
      pos := ItemOccurs(b, items, i, n - 1, after, before, c);
      PlacedLater(c, items[n - 1], n == 1, after, before, x, items[i].slots, pos);
    } else {
      pos := PlacedHere(c, items[n - 1], n == 1, after, before, x);
    }
  }

  predicate OccursIn(s: seq<Slot>, x: Blocks, pos: nat) { Occurs(s, Flat(x.handlers), pos) }

  lemma PlacedHere(c: Blocks, item: Item, first: bool, after: seq<Slot>, before: seq<Slot>, x: Blocks)
    returns (pos: nat)
    requires c.handlers != [] && x == Place(c, item, first, after, before)
    ensures OccursIn(item.slots, x, pos)
  {
    pos := PlaceGrows(c, item, first, after, before);
  }

  lemma PlacedLater(c: Blocks, item: Item, first: bool, after: seq<Slot>, before: seq<Slot>, x: Blocks, s: seq<Slot>,
                    pos: nat)
    requires c.handlers != [] && x == Place(c, item, first, after, before) && OccursIn(s, c, pos)
    ensures OccursIn(s, x, pos)
  {
    var here := PlaceGrows(c, item, first, after, before);
    OccursLonger(s, Flat(c.handlers), Flat(x.handlers), pos);
  }

  lemma StillOccurs(s: seq<Slot>, x: Blocks, y: Blocks, pos: nat)
    requires OccursIn(s, x, pos) && Grows(x, y)
    ensures OccursIn(s, y, pos)
  {
    OccursLonger(s, Flat(x.handlers), Flat(y.handlers), pos);
  }

  lemma FuncGrows(b: Blocks, f: Func, addend: nat, arm64: bool, cfg: EventConfig)
    ensures Flat(b.handlers) <= Flat(EncodeFunc(b, f, addend, arm64, cfg).handlers)
  {
    var p := PartsOf(f, addend, arm64, cfg);
    EncodesParts(b, f, addend, arm64, cfg);
    PartsGrow(b, p, EncodeFunc(b, f, addend, arm64, cfg));
  }

  lemma PartsGrow(b: Blocks, p: Parts, x: Blocks)
    requires PlacedParts(b, p, x)
    ensures Flat(b.handlers) <= Flat(x.handlers)
  {
    FlatStart(b, p.vmaddr, p.opening);
    PlaceAllGrows(StartBlock(b, p.vmaddr, p.opening), p.items, |p.items|, p.after, p.before, x);
  }

  lemma PartOccurs(b: Blocks, p: Parts, x: Blocks, i: nat) returns (pos: nat)
    requires PlacedParts(b, p, x) && i < |p.items|
    ensures OccursIn(p.items[i].slots, x, pos)
  {
    pos := ItemOccurs(StartBlock(b, p.vmaddr, p.opening), p.items, i, |p.items|, p.after, p.before, x);
  }

  lemma InsnOccursInFunc(b: Blocks, x: Blocks, f: Func, addend: nat, arm64: bool, cfg: EventConfig, i: nat)
    returns (pos: nat)
    requires i < |f.insns| && FuncEncoded(b, f, addend, arm64, cfg, x)
    ensures OccursIn(InsnSlots(f.insns[i], arm64, cfg), x, pos)
  {
    EncodesParts(b, f, addend, arm64, cfg);
    pos := PartOccurs(b, PartsOf(f, addend, arm64, cfg), x, i);
  }

  ghost predicate FuncEncoded(b: Blocks, f: Func, addend: nat, arm64: bool, cfg: EventConfig, x: Blocks) {
    x == EncodeFunc(b, f, addend, arm64, cfg)
  }

  // The blocks after each function.
  ghost predicate Steps(enc: seq<Blocks>, funcs: seq<Func>, addend: nat, arm64: bool, cfg: EventConfig) {
    && |enc| <= |funcs| + 1
    && forall j :: 0 <= j < |enc| - 1 ==> FuncEncoded(enc[j], funcs[j], addend, arm64, cfg, enc[j + 1])
  }

  lemma EncodedSteps(funcs: seq<Func>, n: nat, addend: nat, arm64: bool, cfg: EventConfig) returns (enc: seq<Blocks>)
    requires n <= |funcs|
    ensures |enc| == n + 1 && enc[n] == EncodeFuncs(funcs, n, addend, arm64, cfg)
    ensures Steps(enc, funcs, addend, arm64, cfg)
  {
    enc := seq(n + 1, j requires 0 <= j <= n => EncodeFuncs(funcs, j, addend, arm64, cfg));
    forall j | 0 <= j < n ensures FuncEncoded(enc[j], funcs[j], addend, arm64, cfg, enc[j + 1]) {
      FuncStep(funcs, j, addend, arm64, cfg);
    }
  }

  lemma FuncStep(funcs: seq<Func>, j: nat, addend: nat, arm64: bool, cfg: EventConfig)
    requires j < |funcs|
    ensures FuncEncoded(EncodeFuncs(funcs, j, addend, arm64, cfg), funcs[j], addend, arm64, cfg,
                        EncodeFuncs(funcs, j + 1, addend, arm64, cfg))
  {
  }

  // Encoding more functions only extends the flat array.
  lemma {:induction false} StepsGrow(enc: seq<Blocks>, funcs: seq<Func>, k: nat, n: nat, addend: nat, arm64: bool,
                                     cfg: EventConfig)
    requires Steps(enc, funcs, addend, arm64, cfg) && k <= n < |enc|
    ensures Grows(enc[k], enc[n])
    decreases n
  {
    if k < n {
      StepsGrow(enc, funcs, k, n - 1, addend, arm64, cfg);
      NextFuncGrows(enc[k], enc[n - 1], enc[n], funcs[n - 1], addend, arm64, cfg);
    }
  }

  lemma NextFuncGrows(a: Blocks, b: Blocks, x: Blocks, f: Func, addend: nat, arm64: bool, cfg: EventConfig)
    requires Grows(a, b) && FuncEncoded(b, f, addend, arm64, cfg, x)
    ensures Grows(a, x)
  {
    FuncGrows(b, f, addend, arm64, cfg);
  }

  lemma InsnOccursInSteps(enc: seq<Blocks>, funcs: seq<Func>, addend: nat, arm64: bool, cfg: EventConfig, k: nat,
                          i: nat) returns (pos: nat)
    requires Steps(enc, funcs, addend, arm64, cfg) && k < |enc| - 1 && i < |funcs[k].insns|
    ensures OccursIn(InsnSlots(funcs[k].insns[i], arm64, cfg), enc[|enc| - 1], pos)
  {
    pos := InsnOccursInFunc(enc[k], enc[k + 1], funcs[k], addend, arm64, cfg, i);
    StepsGrow(enc, funcs, k + 1, |enc| - 1, addend, arm64, cfg);
    StillOccurs(InsnSlots(funcs[k].insns[i], arm64, cfg), enc[k + 1], enc[|enc| - 1], pos);
  }

  lemma InsnOccursInFuncs(funcs: seq<Func>, n: nat, addend: nat, arm64: bool, cfg: EventConfig, k: nat, i: nat)
    returns (pos: nat)
    requires k < n <= |funcs| && i < |funcs[k].insns|
    ensures OccursIn(InsnSlots(funcs[k].insns[i], arm64, cfg), EncodeFuncs(funcs, n, addend, arm64, cfg), pos)
  {
    var enc := EncodedSteps(funcs, n, addend, arm64, cfg);
    pos := InsnOccursInSteps(enc, funcs, addend, arm64, cfg, k, i);
  }

  // Every instruction of a binary has its slots, with its hooks, in a row in the flat array.
  lemma InsnOccurs(funcs: seq<Func>, addend: nat, arm64: bool, cfg: EventConfig, k: nat, i: nat) returns (pos: nat)
    requires k < |funcs| && i < |funcs[k].insns|
    ensures Occurs(InsnSlots(funcs[k].insns[i], arm64, cfg), EncodingOf(funcs, addend, arm64, cfg).slots, pos)
  {
    var b := EncodeFuncs(funcs, |funcs|, addend, arm64, cfg);
    pos := InsnOccursInFuncs(funcs, |funcs|, addend, arm64, cfg, k, i);
    if |funcs| == 1 {
      FlatPush(b, [Event(FinishEmulation)]);
      OccursLonger(InsnSlots(funcs[k].insns[i], arm64, cfg), Flat(b.handlers),
                   EncodingOf(funcs, addend, arm64, cfg).slots, pos);
    }
  }

  // ---- what a Processed answer skips ----

  // Position pos of binary b is reached from s before any non-hook slot is executed.
  ghost predicate Arrives<G(!new)>(p: Program, env: Env<G>, s: State<G>, b: nat, pos: nat) {
    exists n: nat :: Trace(Machine(p, env), s, n) == [] && IsAt(Reach(Machine(p, env), s, n), b, pos)
  }

  predicate IsAt<G>(s: State<G>, b: nat, pos: nat) { s.At? && s.bin == b && s.slot == pos }

  // Stopped, or behind position pos of binary b.
  predicate Beyond<G>(s: State<G>, b: nat, pos: nat) { s.At? ==> s.bin == b && s.slot > pos }

  // Hooks only move on.
  lemma HooksMoveOn<G(!new)>(p: Program, env: Env<G>, s: State<G>, b: nat, pos: nat)
    requires Beyond(s, b, pos) && Emits(p, s) == []
    ensures Beyond(Step(p, s, env), b, pos)
  {
  }

  lemma {:induction false} StaysBeyond<G(!new)>(p: Program, env: Env<G>, s: State<G>, b: nat, pos: nat, n: nat)
    requires n > 0 && Beyond(Step(p, s, env), b, pos) && Trace(Machine(p, env), s, n) == []
    ensures Beyond(Reach(Machine(p, env), s, n), b, pos)
    decreases n
  {
    if n == 1 {
      assert Reach(Machine(p, env), s, 0) == s;
    } else {
      StaysBeyond(p, env, s, b, pos, n - 1);
      HooksMoveOn(p, env, Reach(Machine(p, env), s, n - 1), b, pos);
    }
  }

  // The hooks before an instruction and its real slot, where its slots lie.
  lemma InsnFront(insn: GuestInsn, arm64: bool, cfg: EventConfig, s: seq<Slot>, i: nat)
    requires Occurs(InsnSlots(insn, arm64, cfg), s, i) && cfg.insn
    ensures i + 1 < |s| && s[i] == Event(InsnBefore)
    ensures cfg.debug ==> i + 2 < |s| && s[i + 1] == Event(Debugging) && s[i + 2] == RealSlot(insn)
    ensures !cfg.debug ==> s[i + 1] == RealSlot(insn)
  {
    var x := InsnSlots(insn, arm64, cfg);
    assert x[0] == s[i..i + |x|][0] && x[1] == s[i..i + |x|][1];
    if cfg.debug { assert x[2] == s[i..i + |x|][2]; }
  }

  function RealPosition(i: nat, cfg: EventConfig): nat { if cfg.debug then i + 2 else i + 1 }

  /**
   At the InsnBefore hook of any instruction, a callback that answers Processed keeps the real handler
   from being the next slot executed if and only if the debugging hook is off: with it on, the slot
   skipped is the debugging hook and the handler runs.
   */
  lemma ProcessedSkips<G(!new)>(p: Program, env: Env<G>, b: nat, i: nat, g: G, insn: GuestInsn, arm64: bool,
                         cfg: EventConfig)
    requires b < |p| && Occurs(InsnSlots(insn, arm64, cfg), p[b].slots, i) && cfg.insn
    requires env.callback(InsnBefore, g) == Processed
    ensures SlotAt(p, At(b, RealPosition(i, cfg), g)) == Some(RealSlot(insn))
    ensures Arrives(p, env, At(b, i, g), b, RealPosition(i, cfg)) <==> cfg.debug
  {
    var (s, pos, m) := (At(b, i, g), RealPosition(i, cfg), Machine(p, env));
    InsnFront(insn, arm64, cfg, p[b].slots, i);
    assert Step(p, s, env) == At(b, i + 2, g) && Emits(p, s) == [];
    if cfg.debug {
      assert Reach(m, s, 0) == s && Reach(m, s, 1) == At(b, i + 2, g) && Trace(m, s, 0) == [];
      assert Trace(m, s, 1) == [] && IsAt(Reach(m, s, 1), b, pos);
    } else {
      forall n: nat | Trace(m, s, n) == [] ensures !IsAt(Reach(m, s, n), b, pos) {
        if n > 0 { StaysBeyond(p, env, s, b, pos, n); } else { assert Reach(m, s, n) == s; }
      }
    }
  }

  // So it is for every instruction of every encoded binary.
  lemma ProcessedInBinary<G(!new)>(bins: seq<Binary>, cfgs: seq<EventConfig>, b: nat, k: nat, j: nat, env: Env<G>,
                            g: G) returns (i: nat)
    requires Encodable(bins) && |cfgs| == |bins| && b < |bins| && cfgs[b].insn
    requires env.callback(InsnBefore, g) == Processed
    requires k < |bins[b].funcs| && j < |bins[b].funcs[k].insns|
    ensures var p := ProgramOf(bins, cfgs);
      && SlotAt(p, At(b, i, g)) == Some(Event(InsnBefore))
      && SlotAt(p, At(b, RealPosition(i, cfgs[b]), g)) == Some(RealSlot(bins[b].funcs[k].insns[j]))
      && (Arrives(p, env, At(b, i, g), b, RealPosition(i, cfgs[b])) <==> cfgs[b].debug)
  {
    var (p, x) := (ProgramOf(bins, cfgs), bins[b]);
    i := InsnOccurs(x.funcs, x.addend, x.arm64, cfgs[b], k, j);
    InsnFront(x.funcs[k].insns[j], x.arm64, cfgs[b], p[b].slots, i);
    ProcessedSkips(p, env, b, i, g, x.funcs[k].insns[j], x.arm64, cfgs[b]);
  }
}
