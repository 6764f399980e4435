/**
 Orchestrator::find of src/Orchestrator.cpp: a guest address is looked up in a direct-mapped cache of
 256 lines, then in the blocks used last, then in all encoded blocks. The caches are transparent:
 over every sequence of encode, find and clear the answers are those of an uncached scan.
 */
module AddressCache {
  import opened Words
  import opened Search
  import opened Chain
  import opened ChainShape
  import opened ChainRun

  // Encoded blocks as find sees them: pointers are indices into the flat slot array.
  datatype Encoded = Encoded(vmaddrs: seq<nat>, maxaddr: nat, bbhandlers: seq<seq<nat>>, rthandlers: seq<Slot>)

  ghost predicate Pointing(p: seq<nat>, n: nat) { p != [] && forall j :: 0 <= j < |p| ==> p[j] < n }

  ghost predicate Usable(b: Encoded) {
    && b.vmaddrs != [] && StrictlySorted(b.vmaddrs) && |b.bbhandlers| == |b.vmaddrs|
    && forall k :: 0 <= k < |b.bbhandlers| ==> Pointing(b.bbhandlers[k], |b.rthandlers|)
  }

  function OpLen(s: Slot): nat { if s.Real? then s.oplen else 0 }

  /**
   The walk through a block for an address inside it: it stops at the slot that ends at the address
   and steps back over an event slot before it. Stepping back from the first slot leaves the block.
   */
  function Walk(rt: seq<Slot>, ptrs: seq<nat>, first: nat, addr: nat, vmaddr: nat): Option<int>
    requires forall j :: 0 <= j < |ptrs| ==> ptrs[j] < |rt|
  {
    if ptrs == [] then None
    else if addr + OpLen(rt[ptrs[0]]) == vmaddr then Some(StepBack(rt, ptrs[0], first))
    else Walk(rt, ptrs[1..], first, addr + OpLen(rt[ptrs[0]]), vmaddr)
  }

  function StepBack(rt: seq<Slot>, i: nat, first: nat): int
    requires i < |rt|
  { if i - 1 >= first && rt[i - 1].Real? then i else i - 1 }

  // What findBlocks answers: the block's first slot at a block address, else the walk.
  ghost function Lookup(b: Encoded, vmaddr: nat): Option<int>
    requires Usable(b)
  {
    if vmaddr < b.vmaddrs[0] || vmaddr >= b.maxaddr then None else
    var p := LowerBound(b.vmaddrs, vmaddr);
    if IsExact(p, b.vmaddrs, vmaddr) then Some(b.bbhandlers[p][0])
    else
      var k := if p > 0 then p - 1 else p;
      Walk(b.rthandlers, b.bbhandlers[k], b.bbhandlers[k][0], b.vmaddrs[k], vmaddr)
  }

  // find at a block address returns the block's first slot.
  lemma LookupBlockStart(b: Encoded, k: nat)
    requires Usable(b) && k < |b.vmaddrs| && b.vmaddrs[k] < b.maxaddr
    ensures Lookup(b, b.vmaddrs[k]) == Some(b.bbhandlers[k][0])
  {
    StrictIsSorted(b.vmaddrs);
    ExactIffMember(b.vmaddrs, b.vmaddrs[k]);
  }

  // ---- the uncached scan ----

  datatype Ptr = Ptr(blocks: nat, slot: int)
  datatype Answer = Insn(p: Ptr) | TerminateSlot

  ghost predicate AllUsable(bbs: seq<Encoded>) { forall k :: 0 <= k < |bbs| ==> Usable(bbs[k]) }

  // The first of blocks k, k + 1, ... that yields the address.
  ghost function Scan(bbs: seq<Encoded>, k: nat, a: nat): Answer
    requires AllUsable(bbs) && k <= |bbs|
    decreases |bbs| - k
  {
    if k == |bbs| then TerminateSlot
    else match Lookup(bbs[k], a) case Some(i) => Insn(Ptr(k, i)) case None => Scan(bbs, k + 1, a)
  }

  // r is a true answer for address a: found in some blocks, or in none.
  ghost predicate Answers(bbs: seq<Encoded>, a: nat, r: Answer)
    requires AllUsable(bbs)
  {
    match r
    case Insn(p) => p.blocks < |bbs| && Lookup(bbs[p.blocks], a) == Some(p.slot)
    case TerminateSlot => forall k :: 0 <= k < |bbs| ==> Lookup(bbs[k], a).None?
  }

  ghost predicate Apart(b: Encoded, c: Encoded)
    requires Usable(b) && Usable(c)
  { b.maxaddr <= c.vmaddrs[0] || c.maxaddr <= b.vmaddrs[0] }

  ghost predicate Disjoint(bbs: seq<Encoded>)
    requires AllUsable(bbs)
  { forall i, j :: 0 <= i < j < |bbs| ==> Apart(bbs[i], bbs[j]) }

  lemma {:induction false} ScanAnswers(bbs: seq<Encoded>, k: nat, a: nat)
    requires AllUsable(bbs) && k <= |bbs| && forall j :: 0 <= j < k ==> Lookup(bbs[j], a).None?
    ensures Answers(bbs, a, Scan(bbs, k, a))
    decreases |bbs| - k
  {
    if k < |bbs| && Lookup(bbs[k], a).None? { ScanAnswers(bbs, k + 1, a); }
  }

  // With disjoint ranges at most one binary yields an address.
  lemma OneYields(bbs: seq<Encoded>, a: nat, i: nat, j: nat)
    requires AllUsable(bbs) && Disjoint(bbs) && i < |bbs| && j < |bbs|
    requires Lookup(bbs[i], a).Some? && Lookup(bbs[j], a).Some?
    ensures i == j
  {
  }

  // With disjoint ranges there is one true answer: the scan's.
  lemma AnswerUnique(bbs: seq<Encoded>, a: nat, r: Answer)
    requires AllUsable(bbs) && Disjoint(bbs) && Answers(bbs, a, r)
    ensures r == Scan(bbs, 0, a)
  {
    ScanAnswers(bbs, 0, a);
    var s := Scan(bbs, 0, a);
    if r.Insn? && s.Insn? { OneYields(bbs, a, r.p.blocks, s.p.blocks); }
  }

  // Encoding another binary never changes the answer for an address that had one.
  lemma {:induction false} ScanGrows(bbs: seq<Encoded>, b: Encoded, k: nat, a: nat)
    requires AllUsable(bbs) && Usable(b) && k <= |bbs|
    ensures AllUsable(bbs + [b])
    ensures Scan(bbs, k, a).Insn? ==> Scan(bbs + [b], k, a) == Scan(bbs, k, a)
    decreases |bbs| - k
  {
    if k < |bbs| { ScanGrows(bbs, b, k + 1, a); }
  }

  // ---- the encoder's output is usable ----

  function EncodedOf(funcs: seq<Func>, addend: nat, arm64: bool, cfg: EventConfig): Encoded
    requires funcs != []
  {
    var e := Encode(funcs, addend, arm64, cfg);
    Encoded(e.vmaddrs, funcs[|funcs| - 1].end + addend, BlockPointers(e.handlers), Flat(e.handlers))
  }

  lemma BlockPointersUsable(hs: seq<seq<Slot>>, k: nat)
    requires k < |hs| && hs[k] != []
    ensures Pointing(BlockPointers(hs)[k], |Flat(hs)|) && BlockPointers(hs)[k][0] == Start(hs, k)
  {
    FlatPrefix(hs, k + 1);
    FlatStep(hs, k);
  }

  // Encoding well-formed functions gives blocks find can use, and every block address leads to its block.
  lemma EncodedUsable(funcs: seq<Func>, addend: nat, arm64: bool, cfg: EventConfig)
    requires FuncsOk(funcs)
    ensures Usable(EncodedOf(funcs, addend, arm64, cfg))
    ensures var e := Encode(funcs, addend, arm64, cfg);
      |e.vmaddrs| == |e.handlers| &&
      forall k :: 0 <= k < |e.vmaddrs| ==>
        Lookup(EncodedOf(funcs, addend, arm64, cfg), e.vmaddrs[k]) == Some(Start(e.handlers, k))
  {
    var (e, b) := (Encode(funcs, addend, arm64, cfg), EncodedOf(funcs, addend, arm64, cfg));
    EncodeLeaders(funcs, addend, arm64, cfg);
    EncodeHeads(funcs, addend, arm64, cfg);
    forall k | 0 <= k < |e.handlers| ensures e.handlers[k] != [] {
      assert Erase(e.handlers[k]) != [];
    }
    BlocksUsable(b, e.handlers);
  }

  lemma AllPointing(hs: seq<seq<Slot>>)
    requires forall k :: 0 <= k < |hs| ==> hs[k] != []
    ensures forall k :: 0 <= k < |hs| ==> Pointing(BlockPointers(hs)[k], |Flat(hs)|)
  {
    forall k | 0 <= k < |hs| ensures Pointing(BlockPointers(hs)[k], |Flat(hs)|) {
      BlockPointersUsable(hs, k);
    }
  }

  lemma BlockFound(b: Encoded, hs: seq<seq<Slot>>, k: nat)
    requires Usable(b) && |b.vmaddrs| == |hs| && b.bbhandlers == BlockPointers(hs) && k < |hs| && hs[k] != []
    requires b.vmaddrs[k] < b.maxaddr
    ensures Lookup(b, b.vmaddrs[k]) == Some(Start(hs, k))
  {
    LookupBlockStart(b, k);
    BlockPointersUsable(hs, k);
  }

  lemma BlocksUsable(b: Encoded, hs: seq<seq<Slot>>)
    requires |b.vmaddrs| == |hs| && b.bbhandlers == BlockPointers(hs) && b.rthandlers == Flat(hs)
    requires b.vmaddrs != [] && StrictlySorted(b.vmaddrs) && b.vmaddrs[|b.vmaddrs| - 1] < b.maxaddr
    requires forall k :: 0 <= k < |hs| ==> hs[k] != []
    ensures Usable(b) && forall k :: 0 <= k < |hs| ==> Lookup(b, b.vmaddrs[k]) == Some(Start(hs, k))
  {
    AllPointing(hs);
    forall k | 0 <= k < |hs| ensures Lookup(b, b.vmaddrs[k]) == Some(Start(hs, k)) {
      assert b.vmaddrs[k] <= b.vmaddrs[|b.vmaddrs| - 1];
      BlockFound(b, hs, k);
    }
  }

  // ---- the chain's transfers and find() ----

  ghost predicate AllOk(bins: seq<Binary>) { forall b :: 0 <= b < |bins| ==> FuncsOk(bins[b].funcs) }

  // What the orchestrator holds after encoding the binaries one after the other.
  ghost function EncodedAll(bins: seq<Binary>, cfgs: seq<EventConfig>): (bbs: seq<Encoded>)
    requires AllOk(bins) && |cfgs| == |bins|
    ensures |bbs| == |bins|
  { seq(|bins|, b requires 0 <= b < |bins| => EncodedOf(bins[b].funcs, bins[b].addend, bins[b].arm64, cfgs[b])) }

  lemma AllEncodedUsable(bins: seq<Binary>, cfgs: seq<EventConfig>)
    requires AllOk(bins) && |cfgs| == |bins|
    ensures AllUsable(EncodedAll(bins, cfgs))
  {
    forall b | 0 <= b < |bins| ensures Usable(EncodedAll(bins, cfgs)[b]) {
      EncodedUsable(bins[b].funcs, bins[b].addend, bins[b].arm64, cfgs[b]);
    }
  }

  lemma {:induction false} BlockSlotFound(blocks: seq<BlockStart>, a: nat) returns (k: nat)
    requires BlockSlot(blocks, a).Some?
    ensures k < |blocks| && blocks[k] == BlockStart(a, BlockSlot(blocks, a).value)
  {
    if blocks[0].vmaddr == a {
      k := 0;
    } else {
      k := BlockSlotFound(blocks[1..], a);
      k := k + 1;
    }
  }

  // A block address of one binary leads find to that block's first slot.
  lemma BlockSlotIsLookup(funcs: seq<Func>, addend: nat, arm64: bool, cfg: EventConfig, a: nat)
    requires FuncsOk(funcs) && BlockSlot(EncodingOf(funcs, addend, arm64, cfg).blocks, a).Some?
    ensures Usable(EncodedOf(funcs, addend, arm64, cfg))
    ensures Lookup(EncodedOf(funcs, addend, arm64, cfg), a)
         == Some(BlockSlot(EncodingOf(funcs, addend, arm64, cfg).blocks, a).value)
  {
    var e := Encode(funcs, addend, arm64, cfg);
    EncodedUsable(funcs, addend, arm64, cfg);
    var k := BlockSlotFound(BlockStarts(e.vmaddrs, e.handlers), a);
  }

  // Every block address of the encoding leads find to its slot.
  ghost predicate LeadsTo(c: Encoding, e: Encoded)
    requires Usable(e)
  { forall a: nat :: BlockSlot(c.blocks, a).Some? ==> Lookup(e, a) == Some(BlockSlot(c.blocks, a).value) }

  ghost predicate AllLeadTo(p: Program, bbs: seq<Encoded>) {
    |p| == |bbs| && AllUsable(bbs) && forall b :: 0 <= b < |p| ==> LeadsTo(p[b], bbs[b])
  }

  lemma BinariesLeadTo(bins: seq<Binary>, cfgs: seq<EventConfig>)
    requires AllOk(bins) && |cfgs| == |bins|
    ensures AllLeadTo(ProgramOf(bins, cfgs), EncodedAll(bins, cfgs))
  {
    AllEncodedUsable(bins, cfgs);
    forall b | 0 <= b < |bins| ensures LeadsTo(ProgramOf(bins, cfgs)[b], EncodedAll(bins, cfgs)[b]) {
      BinaryLeadsTo(bins[b].funcs, bins[b].addend, bins[b].arm64, cfgs[b]);
    }
  }

  lemma BinaryLeadsTo(funcs: seq<Func>, addend: nat, arm64: bool, cfg: EventConfig)
    requires FuncsOk(funcs)
    ensures Usable(EncodedOf(funcs, addend, arm64, cfg))
    ensures LeadsTo(EncodingOf(funcs, addend, arm64, cfg), EncodedOf(funcs, addend, arm64, cfg))
  {
    EncodedUsable(funcs, addend, arm64, cfg);
    var (c, e) := (EncodingOf(funcs, addend, arm64, cfg), EncodedOf(funcs, addend, arm64, cfg));
    forall a: nat | BlockSlot(c.blocks, a).Some? ensures Lookup(e, a) == Some(BlockSlot(c.blocks, a).value) {
      BlockSlotIsLookup(funcs, addend, arm64, cfg, a);
    }
  }

  lemma {:induction false} GotoAnswers<G>(p: Program, bbs: seq<Encoded>, b: nat, a: nat, g: G)
    requires AllLeadTo(p, bbs) && b <= |p|
    ensures var r := Goto(p, b, a, g); r.At? ==> Answers(bbs, a, Insn(Ptr(r.bin, r.slot)))
    decreases |p| - b
  {
    if b < |p| {
      assert LeadsTo(p[b], bbs[b]);
      GotoAnswers(p, bbs, b + 1, a, g);
    }
  }

  /**
   Transfers between binaries: with disjoint address ranges, wherever the chains continue after a
   jump, call or return is the slot that find() returns for the guest's PC.
   */
  lemma GotoIsFind<G>(bins: seq<Binary>, cfgs: seq<EventConfig>, a: nat, g: G)
    requires AllOk(bins) && |cfgs| == |bins| && Sound(EncodedAll(bins, cfgs))
    ensures var r := Goto(ProgramOf(bins, cfgs), 0, a, g);
      r.At? ==> Scan(EncodedAll(bins, cfgs), 0, a) == Insn(Ptr(r.bin, r.slot))
  {
    BinariesLeadTo(bins, cfgs);
    GotoAnswers(ProgramOf(bins, cfgs), EncodedAll(bins, cfgs), 0, a, g);
    var r := Goto(ProgramOf(bins, cfgs), 0, a, g);
    if r.At? { AnswerUnique(EncodedAll(bins, cfgs), a, Insn(Ptr(r.bin, r.slot))); }
  }

  method BuildBlocks(funcs: seq<Func>, addend: nat, arm64: bool, cfg: EventConfig) returns (b: Encoded)
    requires funcs != []
    ensures b == EncodedOf(funcs, addend, arm64, cfg)
  {
    var blocks := new BasicBlocks();
    blocks.EncodeBinary(funcs, addend, arm64, cfg);
    b := Encoded(blocks.vmaddrs, blocks.maxaddr, blocks.bbhandlers, blocks.rthandlers);
  }

  // ---- the orchestrator and its caches ----

  datatype Line = Line(vmaddr: nat, insn: Option<Ptr>)

  // A line is empty or holds what the lookup of its address yields.
  ghost predicate LineOk(bbs: seq<Encoded>, line: Line)
    requires AllUsable(bbs)
  { line.insn.Some? ==> Answers(bbs, line.vmaddr, Insn(line.insn.value)) }

  class Orchestrator {
    var basicblocks: seq<Encoded>
    var current: Option<nat>
    const L1: array<Line>

    ghost predicate Valid()
      reads this, L1
    {
      && L1.Length == 256 && AllUsable(basicblocks)
      && (current.Some? ==> current.value < |basicblocks|)
      && forall i :: 0 <= i < 256 ==> LineOk(basicblocks, L1[i])
    }

    constructor ()
      ensures Valid() && basicblocks == [] && fresh(L1)
    {
      basicblocks, current := [], None;
      L1 := new Line[256](_ => Line(0, None));
    }

    // The end of encode: install the blocks and make them current.
    method Install(b: Encoded)
      requires Valid() && Usable(b)
      modifies this`basicblocks, this`current
      ensures Valid() && basicblocks == old(basicblocks) + [b]
    {
      basicblocks := basicblocks + [b];
      current := Some(|basicblocks| - 1);
    }

    method EncodeBinary(funcs: seq<Func>, addend: nat, arm64: bool, cfg: EventConfig)
      requires Valid() && FuncsOk(funcs)
      modifies this`basicblocks, this`current
      ensures Valid() && basicblocks == old(basicblocks) + [EncodedOf(funcs, addend, arm64, cfg)]
    {
      var b := BuildBlocks(funcs, addend, arm64, cfg);
      EncodedUsable(funcs, addend, arm64, cfg);
      Install(b);
    }

    method Clear()
      requires Valid()
      modifies this, L1
      ensures Valid() && basicblocks == []
    {
      basicblocks, current := [], None;
      for i := 0 to 256
        invariant forall k :: 0 <= k < i ==> L1[k] == Line(0, None)
        invariant basicblocks == [] && current == None
      {
        L1[i] := Line(0, None);
      }
    }

    // findBlocks, without the cache update.
    method SearchBlocks(b: Encoded, vmaddr: nat) returns (r: Option<int>)
      requires Usable(b)
      ensures r == Lookup(b, vmaddr)
    {
      if vmaddr < b.vmaddrs[0] || vmaddr >= b.maxaddr { return None; }
      StrictIsSorted(b.vmaddrs);
      var found := BinarySearch(b.vmaddrs, vmaddr);
      if IsExact(found, b.vmaddrs, vmaddr) { return Some(b.bbhandlers[found][0]); }
      if found != 0 { found := found - 1; }
      var ptrs := b.bbhandlers[found];
      var addr: nat := b.vmaddrs[found];
      for j := 0 to |ptrs|
        invariant Lookup(b, vmaddr) == Walk(b.rthandlers, ptrs[j..], ptrs[0], addr, vmaddr)
      {
        var insn: int := ptrs[j];
        assert ptrs[j..][1..] == ptrs[j + 1..];
        addr := addr + OpLen(b.rthandlers[insn]);
        if addr == vmaddr {
          var ptr: int := insn - 1;
          if ptr >= ptrs[0] && b.rthandlers[ptr].Real? { ptr := ptr + 1; }
          return Some(ptr);
        }
      }
      r := None;
    }

    // findBlocks: a hit is put in the line of its address.
    method FindBlocks(k: nat, vmaddr: nat) returns (r: Option<Ptr>)
      requires Valid() && k < |basicblocks|
      modifies L1
      ensures Valid()
      ensures match r
        case None => Lookup(basicblocks[k], vmaddr).None?
        case Some(p) => p.blocks == k && Lookup(basicblocks[k], vmaddr) == Some(p.slot)
    {
      var slot := SearchBlocks(basicblocks[k], vmaddr);
      if slot.None? { return None; }
      L1[vmaddr % 256] := Line(vmaddr, Some(Ptr(k, slot.value)));
      r := Some(Ptr(k, slot.value));
    }

    // findCache
    method FindCache(vmaddr: nat) returns (r: Option<Ptr>)
      requires Valid() && current.Some?
      modifies L1
      ensures Valid()
      ensures match r
        case None => Lookup(basicblocks[current.value], vmaddr).None?
        case Some(p) => Answers(basicblocks, vmaddr, Insn(p))
    {
      var line := L1[vmaddr % 256];
      if line.vmaddr == vmaddr && line.insn.Some? { return line.insn; }
      r := FindBlocks(current.value, vmaddr);
    }

    // find: a true answer, and with disjoint ranges the answer of the uncached scan.
    method Find(vmaddr: nat) returns (r: Answer)
      requires Valid()
      modifies this`current, L1
      ensures Valid() && Answers(basicblocks, vmaddr, r)
      ensures Disjoint(basicblocks) ==> r == Scan(basicblocks, 0, vmaddr)
    {
      if current.Some? {
        var hit := FindCache(vmaddr);
        if hit.Some? {
          if Disjoint(basicblocks) { AnswerUnique(basicblocks, vmaddr, Insn(hit.value)); }
          return Insn(hit.value);
        }
      }
      for k := 0 to |basicblocks|
        invariant Valid()
        invariant current.Some? ==> Lookup(basicblocks[current.value], vmaddr).None?
        invariant forall j :: 0 <= j < k ==> Lookup(basicblocks[j], vmaddr).None?
      {
        if current == Some(k) { continue; }
        var hit := FindBlocks(k, vmaddr);
        if hit.Some? {
          current := Some(k);
          if Disjoint(basicblocks) { AnswerUnique(basicblocks, vmaddr, Insn(hit.value)); }
          return Insn(hit.value);
        }
      }
      if Disjoint(basicblocks) { AnswerUnique(basicblocks, vmaddr, TerminateSlot); }
      r := TerminateSlot;
    }
  }

  // ---- whole runs ----

  datatype Command = EncodeCmd(blocks: Encoded) | FindCmd(vmaddr: nat) | ClearCmd

  // The encoded blocks after a command.
  function Next(cmd: Command, bbs: seq<Encoded>): seq<Encoded> {
    match cmd case EncodeCmd(b) => bbs + [b] case FindCmd(_) => bbs case ClearCmd => []
  }

  // A command encodes usable blocks whose addresses no encoded blocks have.
  ghost predicate Allowed(cmd: Command, bbs: seq<Encoded>) {
    cmd.EncodeCmd? ==> Usable(cmd.blocks) && forall i :: 0 <= i < |bbs| ==> Usable(bbs[i]) && Apart(bbs[i], cmd.blocks)
  }

  ghost predicate AllAllowed(cmds: seq<Command>, bbs: seq<Encoded>)
    decreases |cmds|
  { cmds != [] ==> Allowed(cmds[0], bbs) && AllAllowed(cmds[1..], Next(cmds[0], bbs)) }

  ghost predicate Sound(bbs: seq<Encoded>) { AllUsable(bbs) && Disjoint(bbs) }

  lemma NextSound(cmd: Command, bbs: seq<Encoded>)
    requires Sound(bbs) && Allowed(cmd, bbs)
    ensures Sound(Next(cmd, bbs))
  {
  }

  // The answers of a run without any cache.
  ghost function Uncached(cmds: seq<Command>, bbs: seq<Encoded>): seq<Answer>
    requires Sound(bbs) && AllAllowed(cmds, bbs)
    decreases |cmds|
  {
    if cmds == [] then [] else
    NextSound(cmds[0], bbs);
    (if cmds[0].FindCmd? then [Scan(bbs, 0, cmds[0].vmaddr)] else []) + Uncached(cmds[1..], Next(cmds[0], bbs))
  }

  // One command; a find contributes its answer.
  method Execute(o: Orchestrator, cmd: Command) returns (answers: seq<Answer>)
    requires o.Valid() && Sound(o.basicblocks) && Allowed(cmd, o.basicblocks)
    modifies o, o.L1
    ensures o.Valid() && o.basicblocks == Next(cmd, old(o.basicblocks)) && Sound(o.basicblocks)
    ensures answers == if cmd.FindCmd? then [Scan(old(o.basicblocks), 0, cmd.vmaddr)] else []
  {
    NextSound(cmd, o.basicblocks);
    answers := [];
    match cmd
    case EncodeCmd(b) => o.Install(b);
    case ClearCmd => o.Clear();
    case FindCmd(a) =>
      var r := o.Find(a);
      answers := [r];
  }

  // Cache transparency: any sequence of encode, find and clear answers as if there were no cache.
  method Drive(cmds: seq<Command>) returns (answers: seq<Answer>)
    requires AllAllowed(cmds, [])
    ensures answers == Uncached(cmds, [])
  {
    var o := new Orchestrator();
    answers := [];
    assert cmds[0..] == cmds;
    for i := 0 to |cmds|
      invariant o.Valid() && fresh(o) && fresh(o.L1) && Sound(o.basicblocks) && AllAllowed(cmds[i..], o.basicblocks)
      invariant Uncached(cmds, []) == answers + Uncached(cmds[i..], o.basicblocks)
    {
      UncachedStep(cmds, i, o.basicblocks, answers);
      var more := Execute(o, cmds[i]);
      answers := answers + more;
    }
  }

  lemma UncachedStep(cmds: seq<Command>, i: nat, bbs: seq<Encoded>, before: seq<Answer>)
    requires i < |cmds| && Sound(bbs) && AllAllowed(cmds[i..], bbs)
    ensures Allowed(cmds[i], bbs) && Sound(Next(cmds[i], bbs)) && AllAllowed(cmds[i + 1..], Next(cmds[i], bbs))
    ensures before + Uncached(cmds[i..], bbs)
         == (before + if cmds[i].FindCmd? then [Scan(bbs, 0, cmds[i].vmaddr)] else []) + Uncached(cmds[i + 1..],
             Next(cmds[i], bbs))
  {
    assert cmds[i..][1..] == cmds[i + 1..] && cmds[i..][0] == cmds[i];
    NextSound(cmds[i], bbs);
  }
}
