/**
 From a binary's instructions to the metadata file: PreEncoder::analyzeInsnMeta of src/PreEncoder.cpp
 gives every instruction its handler index; following an instruction through the written file leads to
 a record with exactly its bytes in the binary.
 */
module PreEncode {
  import opened Words
  import opened Bytes
  import opened Flatten
  import opened HandlerIndex
  import opened HandlerRecord
  import opened HandlerSection
  import opened MetadataFile

  // ---- analyzeInsnMeta ----

  datatype CodeInsn = CodeInsn(fnoff: nat, bytes: seq<Byte>, isData: bool)
  datatype CodeFunc = CodeFunc(rva: nat, insns: seq<CodeInsn>)

  // An instruction of the binary: its relative address, a 32-bit field, and its bytes.
  datatype Located = Located(rva: nat, bytes: seq<Byte>)

  // The instructions among the first n entries of a function; data is passed over.
  function InsnsOf(f: CodeFunc, n: nat): seq<Located>
    requires n <= |f.insns|
    decreases n
  {
    if n == 0 then [] else
    var i := f.insns[n - 1];
    InsnsOf(f, n - 1) + (if i.isData then [] else [LocatedAt(f.rva, i)])
  }

  function LocatedAt(fnrva: nat, i: CodeInsn): Located { Located((fnrva + i.fnoff) % 0x1_0000_0000, i.bytes) }

  function AllInsns(funcs: seq<CodeFunc>, n: nat): seq<Located>
    requires n <= |funcs|
    decreases n
  { if n == 0 then [] else AllInsns(funcs, n - 1) + InsnsOf(funcs[n - 1], |funcs[n - 1].insns|) }

  // All instructions of the binary, function by function.
  function CodeOf(funcs: seq<CodeFunc>): seq<Located> { AllInsns(funcs, |funcs|) }

  // Every instruction has its address and the index of its handler.
  ghost predicate Analyzed(code: seq<Located>, handlers: seq<Entry>, ops: set<seq<Byte>>, metas: seq<InsnMeta>) {
    && |metas| == |code|
    && forall k :: 0 <= k < |code| ==>
      metas[k].rva == code[k].rva && IsIndex(handlers, ops, code[k].bytes, metas[k].handler)
  }

  lemma AnalyzedPush(code: seq<Located>, handlers: seq<Entry>, ops: set<seq<Byte>>, metas: seq<InsnMeta>, l: Located,
                     m: InsnMeta)
    requires Analyzed(code, handlers, ops, metas) && m.rva == l.rva && IsIndex(handlers, ops, l.bytes, m.handler)
    ensures Analyzed(code + [l], handlers, ops, metas + [m])
  {
  }

  method AnalyzeInsnMeta(pe: PreEncoder, funcs: seq<CodeFunc>) returns (metas: seq<InsnMeta>)
    requires pe.Valid() && pe.Loaded()
    ensures Analyzed(CodeOf(funcs), pe.handlers, pe.ops, metas)
  {
    metas := [];
    for n := 0 to |funcs|
      invariant Analyzed(AllInsns(funcs, n), pe.handlers, pe.ops, metas)
    {
      metas := AnalyzeFunction(pe, funcs[n], AllInsns(funcs, n), metas);
    }
  }

  method AnalyzeFunction(pe: PreEncoder, f: CodeFunc, ghost code: seq<Located>,
                         before: seq<InsnMeta>) returns (metas: seq<InsnMeta>)
    requires pe.Valid() && pe.Loaded() && Analyzed(code, pe.handlers, pe.ops, before)
    ensures Analyzed(code + InsnsOf(f, |f.insns|), pe.handlers, pe.ops, metas)
  {
    metas := before;
    assert code + InsnsOf(f, 0) == code;
    for i := 0 to |f.insns|
      invariant Analyzed(code + InsnsOf(f, i), pe.handlers, pe.ops, metas)
    {
      metas := AnalyzeNext(pe, f, i, code, metas);
    }
  }

  method AnalyzeNext(pe: PreEncoder, f: CodeFunc, i: nat, ghost code: seq<Located>, before: seq<InsnMeta>)
    returns (metas: seq<InsnMeta>)
    requires pe.Valid() && pe.Loaded() && i < |f.insns| && Analyzed(code + InsnsOf(f, i), pe.handlers, pe.ops, before)
    ensures Analyzed(code + InsnsOf(f, i + 1), pe.handlers, pe.ops, metas)
  {
    InsnsNext(code, f, i);
    if f.insns[i].isData { return before; }
    metas := AnalyzeOne(pe, f.rva, f.insns[i], code + InsnsOf(f, i), before);
  }

  method AnalyzeOne(pe: PreEncoder, fnrva: nat, insn: CodeInsn, ghost code: seq<Located>,
                    before: seq<InsnMeta>) returns (metas: seq<InsnMeta>)
    requires pe.Valid() && pe.Loaded() && Analyzed(code, pe.handlers, pe.ops, before)
    ensures Analyzed(code + [LocatedAt(fnrva, insn)], pe.handlers, pe.ops, metas)
  {
    var handler := pe.HandlerIndex(insn.bytes);
    var meta := InsnMeta((fnrva + insn.fnoff) % 0x1_0000_0000, handler);
    AnalyzedPush(code, pe.handlers, pe.ops, before, LocatedAt(fnrva, insn), meta);
    metas := before + [meta];
  }

  lemma InsnsNext(code: seq<Located>, f: CodeFunc, i: nat)
    requires i < |f.insns|
    ensures code + InsnsOf(f, i + 1)
         == if f.insns[i].isData then code + InsnsOf(f, i) else (code + InsnsOf(f, i)) + [LocatedAt(f.rva, f.insns[i])]
  {
    var done := InsnsOf(f, i);
    assert done + [] == done;
    assert code + (done + [LocatedAt(f.rva, f.insns[i])]) == (code + done) + [LocatedAt(f.rva, f.insns[i])];
  }

  // ---- handlers and their keys ----

  // The engine's handler object for an entry: the key as an integer of its class's width.
  predicate HandlerFor(e: Entry, h: Handler) { h.width == Width(ClassOf(|e.bytes|)) && h.opcode == LE(e.key, h.width) }

  ghost predicate HandlersFor(entries: seq<Entry>, hs: seq<Handler>) {
    |entries| == |hs| && forall i :: 0 <= i < |hs| ==> HandlerFor(entries[i], hs[i])
  }

  // Writing the number of a byte string gives the bytes back, padded with zeros.
  lemma {:induction false} LEFromLE(b: seq<Byte>, w: nat)
    requires AreBytes(b) && |b| <= w
    ensures LE(FromLE(b), w) == b + Zeros(w - |b|)
    decreases w
  {
    if b == [] {
      assert b + Zeros(w) == Zeros(w);
      LEZero(w);
    } else {
      FirstByte(b[0], FromLE(b[1..]));
      LEFromLE(b[1..], w - 1);
      assert b + Zeros(w - |b|) == [b[0]] + (b[1..] + Zeros(w - 1 - |b[1..]|));
    }
  }

  lemma FirstByte(x: nat, rest: nat)
    requires x < 256
    ensures (x + 256 * rest) % 256 == x && (x + 256 * rest) / 256 == rest
  {
  }

  lemma {:induction false} LEZero(w: nat)
    ensures LE(0, w) == Zeros(w)
  {
    if w > 0 {
      LEZero(w - 1);
      assert Zeros(w) == [0] + Zeros(w - 1);
    }
  }

  // A record holds the first oplen bytes of the opcode it was made for, padded with zeros.
  lemma RecordedBytes(e: Entry, h: Handler, b: seq<Byte>)
    requires HandlerFor(e, h) && e.bytes == b && e.key == KeyOf(b) && 1 <= |b| <= 16 && AreBytes(b)
    requires h.oplen <= |h.opcode|
    ensures |b| <= h.width && h.opcode == b + Zeros(h.width - |b|)
    ensures h.opcode[..h.oplen] == b <==> h.oplen == |b|
  {
    LEFromLE(b, h.width);
    if h.oplen == |b| { assert h.opcode[..|b|] == b; }
  }

  // ---- from the binary to the file and back ----

  // Entry k of the file has the instruction's address and leads to the record of the handler it was
  // given; that record holds the instruction's bytes if and only if the handler's length is theirs.
  ghost predicate LeadsToBytes(img: Image, data: seq<Byte>, k: nat, l: Located) {
    && k < |img.insns| && img.insns[k].handler < |img.handlers|
    && InsnIn(data, k).Some? && InsnIn(data, k).value.rva == l.rva && InsnIn(data, k).value.handler != U32_MAX
    && HandlerIn(data, InsnIn(data, k).value).Some?
    && BytesAt(HandlerIn(data, InsnIn(data, k).value).value, img.handlers[img.insns[k].handler], l.bytes)
  }

  ghost predicate BytesAt(s: seq<Byte>, h: Handler, b: seq<Byte>)
  { |s| >= 4 && (ReadOpcode(s) == Some(b) <==> h.oplen == |b|) }

  // The handlers of the image are those of the prefetched opcodes, which are prefix-free.
  ghost predicate Prefetched(entries: seq<Entry>, ops: set<seq<Byte>>, hs: seq<Handler>) {
    && HandlersFor(entries, hs) && Opcodes(ops) && PrefixFree(ops) && |entries| <= INVALID
    && forall i :: 0 <= i < |entries| ==> entries[i].key == KeyOf(entries[i].bytes)
  }

  // What LoadHandlers leaves satisfies that, when the engine's handler objects carry the keys.
  lemma LoadedPrefetched(opc: seq<seq<Entry>>, entries: seq<Entry>, ranges: seq<Range>, ops: set<seq<Byte>>,
                         hs: seq<Handler>)
    requires Filed(opc, ops) && Partition(opc, entries, ranges) && |entries| <= INVALID
    requires HandlersFor(entries, hs) && Opcodes(ops) && PrefixFree(ops)
    ensures Prefetched(entries, ops, hs)
  {
    forall i | 0 <= i < |entries| ensures entries[i].key == KeyOf(entries[i].bytes) {
      ListedMade(opc, entries, ranges, ops, i);
    }
  }

  /**
   For prefix-free opcodes, following instruction k of the binary through the file leads to a record
   whose opcode bytes are exactly the instruction's bytes, if and only if the length the engine gave
   that handler is the instruction's.
   */
  lemma FollowBytes(img: Image, p: Parts, entries: seq<Entry>, ops: set<seq<Byte>>, code: seq<Located>, k: nat)
    requires InTypes(img) && PartsOf(img, p) && Analyzed(code, entries, ops, img.insns)
    requires Prefetched(entries, ops, img.handlers)
    requires k < |code| && code[k].bytes in ops
    ensures LeadsToBytes(img, FileFrom(img, p), k, code[k])
  {
    var e := EntryOf(entries, ops, img.handlers, code, img.insns, k);
    FollowEntry(img, p, k, e, code[k]);
  }

  // The handler an instruction was given was made for its bytes.
  ghost predicate MadeFor(e: Entry, hs: seq<Handler>, meta: InsnMeta, l: Located) {
    && meta.rva == l.rva && meta.handler != U32_MAX && meta.handler < |hs| && HandlerFor(e, hs[meta.handler])
    && e.bytes == l.bytes && e.key == KeyOf(l.bytes) && 1 <= |l.bytes| <= 16 && AreBytes(l.bytes)
  }

  lemma EntryOf(entries: seq<Entry>, ops: set<seq<Byte>>, hs: seq<Handler>, code: seq<Located>, metas: seq<InsnMeta>,
                k: nat) returns (e: Entry)
    requires Analyzed(code, entries, ops, metas) && Prefetched(entries, ops, hs) && k < |code| && code[k].bytes in ops
    ensures MadeFor(e, hs, metas[k], code[k])
  {
    var i := metas[k].handler;
    assert IsIndex(entries, ops, code[k].bytes, i);
    IndexFound(entries, ops, code[k].bytes, i);
    e := entries[i];
  }

  lemma FollowEntry(img: Image, p: Parts, k: nat, e: Entry, l: Located)
    requires InTypes(img) && PartsOf(img, p) && k < |img.insns| && MadeFor(e, img.handlers, img.insns[k], l)
    ensures LeadsToBytes(img, FileFrom(img, p), k, l)
  {
    FollowInstruction(img, p, k);
    EntryBytes(img, FileFrom(img, p), k, p.insns[k], e, l);
  }

  lemma EntryBytes(img: Image, data: seq<Byte>, k: nat, insn: InsnMeta, e: Entry, l: Located)
    requires k < |img.insns| && InsnIn(data, k) == Some(insn) && insn.rva == l.rva && insn.handler != U32_MAX
    requires Followed(img, data, insn, img.insns[k].handler) && HandlerFor(e, img.handlers[img.insns[k].handler])
    requires e.bytes == l.bytes && e.key == KeyOf(l.bytes) && 1 <= |l.bytes| <= 16 && AreBytes(l.bytes)
    ensures LeadsToBytes(img, data, k, l)
  {
    FollowedBytes(img, data, insn, e, img.insns[k].handler, l.bytes);
  }

  lemma FollowedBytes(img: Image, data: seq<Byte>, insn: InsnMeta, e: Entry, i: nat, b: seq<Byte>)
    requires Followed(img, data, insn, i) && HandlerFor(e, img.handlers[i])
    requires e.bytes == b && e.key == KeyOf(b) && 1 <= |b| <= 16 && AreBytes(b)
    ensures BytesAt(HandlerIn(data, insn).value, img.handlers[i], b)
  {
    RecordedBytes(e, img.handlers[i], b);
  }

  // A prefetched opcode has an index, and there the handler made for it.
  lemma IndexFound(entries: seq<Entry>, ops: set<seq<Byte>>, b: seq<Byte>, i: nat)
    requires IsIndex(entries, ops, b, i) && b in ops && Opcodes(ops) && PrefixFree(ops) && |entries| <= INVALID
    ensures i < |entries| && i != INVALID && entries[i].bytes == b && entries[i] in entries
  {
  }

  // ---- a handler whose length is not its opcode's ----

  // What initDynamic leaves when the disassembler rejects the bytes: length 0 and abort() to run.
  function Rejected(b: seq<Byte>, abort: int): Handler
    requires |b| == 4
  { Handler(4, LE(KeyOf(b), 4), 0, Dynamic, [], abort, []) }

  // A binary of one instruction, prefetched, whose bytes the disassembler rejects.
  function RejectedImage(b: seq<Byte>, abort: int): Image
    requires |b| == 4
  { Image([InsnMeta(0, 0)], [], map[], [Rejected(b, abort)], false, true, []) }

  function RejectedParts(b: seq<Byte>, abort: int): Parts
    requires |b| == 4
  { Parts([InsnMeta(0, 0)], Tables([], []), [Record(Rejected(b, abort), false, 0)], [0]) }

  // For every such instruction the file is written and the record followed from it holds no bytes at all.
  lemma RejectedBytes(b: seq<Byte>, abort: int) returns (img: Image, p: Parts, e: Entry)
    requires |b| == 4 && AreBytes(b)
    ensures img == RejectedImage(b, abort) && InTypes(img) && PartsOf(img, p)
    ensures Analyzed([Located(0, b)], [e], {b}, img.insns) && Prefetched([e], {b}, img.handlers)
    ensures FollowsEmpty(FileFrom(img, p), 0)
  {
    img, p, e := RejectedImage(b, abort), RejectedParts(b, abort), Entry(KeyOf(b), b);
    RejectedWrites(b, abort);
    RejectedAnalyzed(b, e, Rejected(b, abort));
    FollowsNothing(img, p, 0);
  }

  lemma RejectedAnalyzed(b: seq<Byte>, e: Entry, h: Handler)
    requires 1 <= |b| <= 16 && AreBytes(b) && e == Entry(KeyOf(b), b) && HandlerFor(e, h)
    ensures Analyzed([Located(0, b)], [e], {b}, [InsnMeta(0, 0)]) && Prefetched([e], {b}, [h])
  {
    assert IsIndex([e], {b}, b, 0);
  }

  // The record followed from entry k has no opcode bytes.
  ghost predicate FollowsEmpty(data: seq<Byte>, k: nat) {
    && InsnIn(data, k).Some? && HandlerIn(data, InsnIn(data, k).value).Some?
    && var s := HandlerIn(data, InsnIn(data, k).value).value; |s| >= 4 && ReadOpcode(s) == Some([])
  }

  lemma FollowsNothing(img: Image, p: Parts, k: nat)
    requires InTypes(img) && PartsOf(img, p) && k < |img.insns| && img.insns[k].handler < |img.handlers|
    requires img.insns[k].handler != U32_MAX && img.handlers[img.insns[k].handler].oplen == 0
    ensures FollowsEmpty(FileFrom(img, p), k)
  {
    FollowInstruction(img, p, k);
  }

  lemma RejectedWrites(b: seq<Byte>, abort: int)
    requires |b| == 4
    ensures InTypes(RejectedImage(b, abort)) && PartsOf(RejectedImage(b, abort), RejectedParts(b, abort))
  {
    var (h, p) := (Rejected(b, abort), RejectedParts(b, abort));
    assert Serialize(h, false, [], 0) == Some(p.records[0]);
    RecordSize(h, false, 0);
    ConcatLength(p.records);
  }
}
