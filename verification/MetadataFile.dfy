/**
 The metadata file: PreEncoder::serialize of src/PreEncoder.cpp lays out header, instruction,
 operand, expression and handler sections; the accessors of src/IMetaData.h read them back.
 */
module MetadataFile {
  import opened Words
  import opened Bytes
  import opened Operands
  import opened Metadata
  import opened Flatten
  import opened TableCodec
  import opened HandlerRecord
  import opened HandlerSection

  // An instruction: its relative address and its handler (an index, in the file an offset), U32_MAX for none.
  datatype InsnMeta = InsnMeta(rva: nat, handler: nat)

  // What serialize() starts from.
  datatype Image = Image(insns: seq<InsnMeta>, ops: seq<Operand>, offs: Offsets, handlers: seq<Handler>,
                         haswx: bool, arm64: bool, impls: seq<int>)

  function Aot(img: Image): bool { img.haswx && img.arm64 }

  // Values within the integer types of the source.
  predicate OperandInTypes(op: Operand) {
    && op.size <= 0xffff && op.action <= 255
    && (op.payload.Immediate? ==> op.payload.val < TWO64)
    && (op.payload.Address? ==> IsInt64(op.payload.scale) && IsInt64(op.payload.displacement) && op.payload.kind <= 255)
  }

  predicate InsnInTypes(insn: InsnMeta) { insn.rva <= U32_MAX && insn.handler <= U32_MAX }

  ghost predicate InTypes(img: Image) {
    && (forall i :: 0 <= i < |img.insns| ==> InsnInTypes(img.insns[i]))
    && (forall i :: 0 <= i < |img.ops| ==> OperandInTypes(img.ops[i]))
    && AllWellFormed(img.handlers)
  }

  // ---- the layout ----

  function HeaderLayout(): seq<nat> { [4, 4, 4, 4, 4, 4, 4, 4, 4, 4, 4, 4] }

  const MAGIC: nat := 0x4D564541
  const VERSION: nat := 1

  function Flags(haswx: bool, arm64: bool): nat { (if haswx then 1 else 0) + (if arm64 then 2 else 4) }

  // The counts of the four sections and the size of the last one.
  datatype Shape = Shape(insns: nat, operands: nat, nodes: nat, handlers: nat, handlerBytes: nat, flags: nat)

  function OffInsns(): nat { 48 }
  function OffOperands(p: Shape): nat { 48 + 8 * p.insns }
  function OffNodes(p: Shape): nat { OffOperands(p) + 48 * p.operands }
  function OffHandlers(p: Shape): nat { OffNodes(p) + 12 * p.nodes }
  function Total(p: Shape): nat { OffHandlers(p) + p.handlerBytes }

  function HeaderFields(p: Shape): (v: seq<nat>)
    ensures |v| == 12
  {
    [MAGIC, VERSION, Total(p), p.flags, OffInsns(), p.insns, OffOperands(p), p.operands, OffNodes(p), p.nodes,
     OffHandlers(p), p.handlers]
  }

  function HeaderBytes(p: Shape): seq<Byte> { Pack(HeaderLayout(), HeaderFields(p)) }

  function InsnLayout(): seq<nat> { [4, 4] }
  function InsnBytes(insn: InsnMeta): seq<Byte> { Pack(InsnLayout(), [insn.rva, insn.handler]) }

  function InsnParts(insns: seq<InsnMeta>): seq<seq<Byte>>
  { seq(|insns|, i requires 0 <= i < |insns| => InsnBytes(insns[i])) }
  function OperandParts(ops: seq<MetaOperand>): seq<seq<Byte>>
  { seq(|ops|, i requires 0 <= i < |ops| => OperandBytes(ops[i])) }
  function NodeParts(nodes: seq<Node>): seq<seq<Byte>>
  { seq(|nodes|, i requires 0 <= i < |nodes| => NodeBytes(nodes[i])) }

  function ShapeOf(insns: seq<InsnMeta>, t: Tables, records: seq<seq<Byte>>, flags: nat): Shape {
    Shape(|insns|, |t.operands|, |t.nodes|, |records|, |Concat(records)|, flags)
  }

  function FileOf(insns: seq<InsnMeta>, t: Tables, records: seq<seq<Byte>>, flags: nat): seq<Byte> {
    HeaderBytes(ShapeOf(insns, t, records, flags)) + Concat(InsnParts(insns)) + Concat(OperandParts(t.operands))
    + Concat(NodeParts(t.nodes)) + Concat(records)
  }

  // ---- when serialize() succeeds, and what it writes ----

  // A valid handler index becomes the offset of the record.
  function Resolved(insn: InsnMeta, offsets: seq<nat>): InsnMeta
    requires insn.handler == U32_MAX || insn.handler < |offsets|
  { if insn.handler == U32_MAX then insn else InsnMeta(insn.rva, offsets[insn.handler]) }

  predicate Resolvable(insns: seq<InsnMeta>, n: nat) {
    forall i :: 0 <= i < |insns| ==> insns[i].handler == U32_MAX || insns[i].handler < n
  }

  // What the file is made from: resolved instructions, converted tables, records and their offsets.
  datatype Parts = Parts(insns: seq<InsnMeta>, tables: Tables, records: seq<seq<Byte>>, offsets: seq<nat>)

  ghost predicate PartsOf(img: Image, p: Parts)
    requires InTypes(img)
  {
    && ConvertAll(img.ops, img.offs) == Some(p.tables)
    && RecordsOf(img.handlers, Aot(img), img.impls, p.records) && OffsetsOf(p.records, p.offsets)
    && Resolvable(img.insns, |p.offsets|) && |p.insns| == |img.insns|
    && (forall i :: 0 <= i < |img.insns| ==> p.insns[i] == Resolved(img.insns[i], p.offsets))
    && |p.records| <= U32_MAX && Total(PartsShape(img, p)) <= U32_MAX
  }

  function PartsShape(img: Image, p: Parts): Shape
  { ShapeOf(p.insns, p.tables, p.records, Flags(img.haswx, img.arm64)) }

  function FileFrom(img: Image, p: Parts): seq<Byte>
  { FileOf(p.insns, p.tables, p.records, Flags(img.haswx, img.arm64)) }

  // ---- sizes ----

  lemma LayoutSizes()
    ensures Sum(HeaderLayout()) == 48 && Sum(InsnLayout()) == 8
  {
    SumOfFours(HeaderLayout());
    SumOfFours(InsnLayout());
  }

  lemma {:induction false} SumOfFours(l: seq<nat>)
    requires forall i :: 0 <= i < |l| ==> l[i] == 4
    ensures Sum(l) == 4 * |l|
  {
    if l != [] { SumOfFours(l[1..]); }
  }

  ghost predicate AllOfSize(parts: seq<seq<Byte>>, k: nat) { forall j :: 0 <= j < |parts| ==> |parts[j]| == k }

  lemma UniformSize(parts: seq<seq<Byte>>, k: nat)
    requires AllOfSize(parts, k)
    ensures |Concat(parts)| == k * |parts|
  {
    OffsetUniform(parts, k, |parts|);
    ConcatLength(parts);
  }

  lemma SectionSizes(insns: seq<InsnMeta>, t: Tables)
    ensures AllOfSize(InsnParts(insns), 8) && |Concat(InsnParts(insns))| == 8 * |insns|
    ensures AllOfSize(OperandParts(t.operands), 48) && |Concat(OperandParts(t.operands))| == 48 * |t.operands|
    ensures AllOfSize(NodeParts(t.nodes), 12) && |Concat(NodeParts(t.nodes))| == 12 * |t.nodes|
  {
    LayoutSizes();
    UniformSize(InsnParts(insns), 8);
    UniformSize(OperandParts(t.operands), 48);
    UniformSize(NodeParts(t.nodes), 12);
  }

  // ---- the readers ----

  // A header field, and the elements and records its offsets lead to; None where a read would leave the file.
  function HeaderField(data: seq<Byte>, j: nat): Option<nat>
    requires j < 12
  {
    LayoutSizes();
    if |data| < 48 then None else Some(Unpack(HeaderLayout(), data)[j])
  }

  // Memory from element i of the section whose offset is header field j.
  function ElementIn(data: seq<Byte>, j: nat, size: nat, i: nat): (r: Option<seq<Byte>>)
    requires j < 12
    ensures r.Some? ==> |r.value| >= size
  {
    var off := HeaderField(data, j);
    if off.None? || off.value + size * i + size > |data| then None else Some(data[off.value + size * i..])
  }

  // insns()[i]
  function InsnIn(data: seq<Byte>, i: nat): Option<InsnMeta> {
    LayoutSizes();
    match ElementIn(data, 4, 8, i)
    case None => None
    case Some(s) => var v := Unpack(InsnLayout(), s); Some(InsnMeta(v[0], v[1]))
  }

  // operands()[i]
  function OperandIn(data: seq<Byte>, i: nat): Option<MetaOperand> {
    match ElementIn(data, 6, 48, i) case None => None case Some(s) => ReadOperand(s)
  }

  // expressions()[i]
  function NodeIn(data: seq<Byte>, i: nat): Option<Node> {
    match ElementIn(data, 8, 12, i) case None => None case Some(s) => ReadNode(s)
  }

  // handler(insn)
  function HandlerIn(data: seq<Byte>, insn: InsnMeta): Option<seq<Byte>> {
    var off := HeaderField(data, 10);
    if off.None? || off.value + insn.handler > |data| then None else Some(data[off.value + insn.handler..])
  }

  // ---- elements of equal size ----

  lemma ElementAt(pre: seq<Byte>, parts: seq<seq<Byte>>, post: seq<Byte>, k: nat, i: nat)
    requires i < |parts| && AllOfSize(parts, k)
    ensures var data := pre + Concat(parts) + post;
      |pre| + k * i + k <= |data| && parts[i] <= data[|pre| + k * i..]
  {
    var data := pre + Concat(parts) + post;
    OffsetUniform(parts, k, i);
    ConcatSlice(parts, i);
    Within(pre, Concat(parts), post, k * i, k);
  }

  lemma Within(pre: seq<Byte>, mid: seq<Byte>, post: seq<Byte>, o: nat, n: nat)
    requires o + n <= |mid|
    ensures (pre + mid + post)[|pre| + o..|pre| + o + n] == mid[o..o + n]
    ensures mid[o..o + n] <= (pre + mid + post)[|pre| + o..]
  {
    var data := pre + mid + post;
    assert data[|pre| + o..|pre| + o + n] == mid[o..o + n];
    assert data[|pre| + o..][..n] == mid[o..o + n];
  }

  // ---- the header ----

  lemma HeaderFits(p: Shape)
    requires Total(p) <= U32_MAX && p.handlers <= U32_MAX && p.flags <= U32_MAX
    ensures Fit(HeaderLayout(), HeaderFields(p))
  {
    FitAll(HeaderLayout(), HeaderFields(p));
  }

  lemma HeaderRoundTrip(p: Shape, rest: seq<Byte>, j: nat)
    requires Total(p) <= U32_MAX && p.handlers <= U32_MAX && p.flags <= U32_MAX && j < 12
    ensures |HeaderBytes(p)| == 48
    ensures HeaderField(HeaderBytes(p) + rest, j) == Some(HeaderFields(p)[j])
  {
    LayoutSizes();
    HeaderFits(p);
    PackRoundTrip(HeaderLayout(), HeaderFields(p), rest);
  }

  // ---- converted tables fit their records ----

  ghost predicate NodesFit(nodes: seq<Node>) { forall i :: 0 <= i < |nodes| ==> NodeFits(nodes[i]) }

  ghost predicate FlatFits(f: Flat) { NodesFit(f.nodes) && NodeFits(f.root) }

  lemma {:induction false} FlattenFits(e: MaybeExpr, offs: Offsets, nodes: seq<Node>)
    requires Closed(nodes) && |nodes| <= NO_CHILD && NodesFit(nodes) && FlattenTree(e, offs, nodes).Some?
    ensures FlatFits(FlattenTree(e, offs, nodes).value)
    decreases e
  {
    if e.Ptr? && e.e.LLVMOp? {
      var f1, f2 := OperationParts(e.e, offs, nodes);
      FlattenShape(e.e.op1, offs, nodes);
      FlattenFits(e.e.op1, offs, nodes);
      PushClosed(nodes, f1);
      if e.e.op2.Ptr? {
        FlattenShape(e.e.op2, offs, f1.nodes + [f1.root]);
        FlattenFits(e.e.op2, offs, f1.nodes + [f1.root]);
      }
    }
  }

  lemma ConvertOneFits(op: Operand, offs: Offsets, nodes: seq<Node>)
    requires Closed(nodes) && |nodes| <= NO_CHILD && NodesFit(nodes) && OperandInTypes(op)
    requires ConvertOne(op, offs, nodes).Some?
    ensures var c := ConvertOne(op, offs, nodes).value; NodesFit(c.nodes) && OperandFits(c.operand)
  {
    if op.payload.Expression? { FlattenFits(op.payload.expr, offs, nodes); }
  }

  ghost predicate TablesFit(t: Tables) {
    NodesFit(t.nodes) && forall i :: 0 <= i < |t.operands| ==> OperandFits(t.operands[i])
  }

  lemma {:induction false} ConvertAllFits(ops: seq<Operand>, offs: Offsets)
    requires (forall i :: 0 <= i < |ops| ==> OperandInTypes(ops[i])) && ConvertAll(ops, offs).Some?
    ensures TablesFit(ConvertAll(ops, offs).value)
  {
    if ops != [] {
      var n := |ops| - 1;
      ConvertAllFits(ops[..n], offs);
      ConvertClosed(ops[..n], offs);
      ConvertOneFits(ops[n], offs, ConvertAll(ops[..n], offs).value.nodes);
    }
  }

  // ---- the sections of a file ----

  lemma Regroup(h: seq<Byte>, i: seq<Byte>, o: seq<Byte>, n: seq<Byte>, r: seq<Byte>)
    ensures h + i + o + n + r == h + (i + o + n + r)
    ensures h + i + o + n + r == h + i + (o + n + r)
    ensures h + i + o + n + r == (h + i) + o + (n + r)
    ensures (h + i + o + n + r)[|h| + |i| + |o| + |n|..] == r
  {
    AppendAssoc(h + i + o, n, r);
    AppendAssoc(h + i, o, n + r);
    AppendAssoc(o, n, r);
    AppendAssoc(h, i, o + (n + r));
    AppendAssoc(i, o, n + r);
    AppendAssoc(i + o, n, r);
  }

  // Field j of the header of a file.
  lemma FieldOf(insns: seq<InsnMeta>, t: Tables, records: seq<seq<Byte>>, flags: nat, j: nat)
    requires var p := ShapeOf(insns, t, records, flags);
      Total(p) <= U32_MAX && p.handlers <= U32_MAX && flags <= U32_MAX
    requires j < 12
    ensures HeaderField(FileOf(insns, t, records, flags), j) == Some(HeaderFields(ShapeOf(insns, t, records, flags))[j])
    ensures |HeaderBytes(ShapeOf(insns, t, records, flags))| == 48
  {
    var (i, o, n, r) := (Concat(InsnParts(insns)), Concat(OperandParts(t.operands)), Concat(NodeParts(t.nodes)),
                         Concat(records));
    var p := ShapeOf(insns, t, records, flags);
    Regroup(HeaderBytes(p), i, o, n, r);
    HeaderRoundTrip(p, i + o + n + r, j);
  }

  // The shape of a file whose header fields all fit.
  ghost predicate ShapeFits(insns: seq<InsnMeta>, t: Tables, records: seq<seq<Byte>>, flags: nat) {
    var p := ShapeOf(insns, t, records, flags);
    Total(p) <= U32_MAX && p.handlers <= U32_MAX && flags <= U32_MAX
  }

  lemma SectionElement(data: seq<Byte>, pre: seq<Byte>, parts: seq<seq<Byte>>, post: seq<Byte>, j: nat, off: nat,
                       size: nat, k: nat)
    requires data == pre + Concat(parts) + post && off == |pre| && j < 12 && HeaderField(data, j) == Some(off)
    requires k < |parts| && AllOfSize(parts, size)
    ensures ElementIn(data, j, size, k).Some? && parts[k] <= ElementIn(data, j, size, k).value
  {
    ElementAt(pre, parts, post, size, k);
  }

  lemma InsnReads(insns: seq<InsnMeta>, t: Tables, records: seq<seq<Byte>>, flags: nat, k: nat)
    requires ShapeFits(insns, t, records, flags) && k < |insns| && InsnInTypes(insns[k])
    ensures InsnIn(FileOf(insns, t, records, flags), k) == Some(insns[k])
  {
    InsnElement(insns, t, records, flags, InsnParts(insns), k);
    InsnRoundTrip(insns[k], ElementIn(FileOf(insns, t, records, flags), 4, 8, k).value);
  }

  lemma InsnElement(insns: seq<InsnMeta>, t: Tables, records: seq<seq<Byte>>, flags: nat, parts: seq<seq<Byte>>, k: nat)
    requires ShapeFits(insns, t, records, flags) && parts == InsnParts(insns) && k < |parts|
    ensures var e := ElementIn(FileOf(insns, t, records, flags), 4, 8, k); e.Some? && parts[k] <= e.value
  {
    FieldOf(insns, t, records, flags, 4);
    var (h, o, n, r) := (HeaderBytes(ShapeOf(insns, t, records, flags)), Concat(OperandParts(t.operands)),
                         Concat(NodeParts(t.nodes)), Concat(records));
    Regroup(h, Concat(parts), o, n, r);
    SectionSizes(insns, t);
    SectionElement(FileOf(insns, t, records, flags), h, parts, o + n + r, 4, OffInsns(), 8, k);
  }

  lemma InsnRoundTrip(insn: InsnMeta, s: seq<Byte>)
    requires InsnInTypes(insn) && InsnBytes(insn) <= s && |s| >= 8
    ensures Sum(InsnLayout()) == 8 && Unpack(InsnLayout(), s) == [insn.rva, insn.handler]
  {
    LayoutSizes();
    FitAll(InsnLayout(), [insn.rva, insn.handler]);
    assert s == InsnBytes(insn) + s[8..];
    PackRoundTrip(InsnLayout(), [insn.rva, insn.handler], s[8..]);
  }

  lemma OperandElement(insns: seq<InsnMeta>, t: Tables, records: seq<seq<Byte>>, flags: nat, parts: seq<seq<Byte>>,
                       k: nat)
    requires ShapeFits(insns, t, records, flags) && parts == OperandParts(t.operands) && k < |parts|
    ensures var e := ElementIn(FileOf(insns, t, records, flags), 6, 48, k); e.Some? && parts[k] <= e.value
  {
    FieldOf(insns, t, records, flags, 6);
    var (h, i, n, r) := (HeaderBytes(ShapeOf(insns, t, records, flags)), Concat(InsnParts(insns)),
                         Concat(NodeParts(t.nodes)), Concat(records));
    Regroup(h, i, Concat(parts), n, r);
    SectionSizes(insns, t);
    SectionElement(FileOf(insns, t, records, flags), h + i, parts, n + r, 6,
                   OffOperands(ShapeOf(insns, t, records, flags)), 48, k);
  }

  lemma OperandReads(insns: seq<InsnMeta>, t: Tables, records: seq<seq<Byte>>, flags: nat, k: nat)
    requires ShapeFits(insns, t, records, flags) && k < |t.operands| && OperandFits(t.operands[k])
    ensures OperandIn(FileOf(insns, t, records, flags), k) == Some(t.operands[k])
  {
    OperandElement(insns, t, records, flags, OperandParts(t.operands), k);
    OperandAtPrefix(t.operands[k], ElementIn(FileOf(insns, t, records, flags), 6, 48, k).value);
  }

  lemma OperandAtPrefix(op: MetaOperand, s: seq<Byte>)
    requires OperandFits(op) && OperandBytes(op) <= s && |s| >= 48
    ensures ReadOperand(s) == Some(op)
  {
    var b := OperandBytes(op);
    assert s == b + s[|b|..];
    OperandRoundTrip(op, s[|b|..]);
  }

  lemma NodeElement(insns: seq<InsnMeta>, t: Tables, records: seq<seq<Byte>>, flags: nat, parts: seq<seq<Byte>>, k: nat)
    requires ShapeFits(insns, t, records, flags) && parts == NodeParts(t.nodes) && k < |parts|
    ensures var e := ElementIn(FileOf(insns, t, records, flags), 8, 12, k); e.Some? && parts[k] <= e.value
  {
    FieldOf(insns, t, records, flags, 8);
    var (h, i, o) := (HeaderBytes(ShapeOf(insns, t, records, flags)), Concat(InsnParts(insns)),
                      Concat(OperandParts(t.operands)));
    SectionSizes(insns, t);
    SectionElement(FileOf(insns, t, records, flags), h + i + o, parts, Concat(records), 8,
                   OffNodes(ShapeOf(insns, t, records, flags)), 12, k);
  }

  lemma NodeReads(insns: seq<InsnMeta>, t: Tables, records: seq<seq<Byte>>, flags: nat, k: nat)
    requires ShapeFits(insns, t, records, flags) && k < |t.nodes| && NodeFits(t.nodes[k])
    ensures NodeIn(FileOf(insns, t, records, flags), k) == Some(t.nodes[k])
  {
    NodeElement(insns, t, records, flags, NodeParts(t.nodes), k);
    NodeAtPrefix(t.nodes[k], ElementIn(FileOf(insns, t, records, flags), 8, 12, k).value);
  }

  lemma NodeAtPrefix(node: Node, s: seq<Byte>)
    requires NodeFits(node) && NodeBytes(node) <= s && |s| >= 12
    ensures ReadNode(s) == Some(node)
  {
    var b := NodeBytes(node);
    assert s == b + s[|b|..];
    NodeRoundTrip(node, s[|b|..]);
  }

  // The handler section runs from its offset to the end of the file.
  lemma HandlersAt(insns: seq<InsnMeta>, t: Tables, records: seq<seq<Byte>>, flags: nat)
    requires ShapeFits(insns, t, records, flags)
    ensures var (data, p) := (FileOf(insns, t, records, flags), ShapeOf(insns, t, records, flags));
      && HeaderField(data, 10) == Some(OffHandlers(p)) && HeaderField(data, 11) == Some(|records|)
      && |data| == Total(p) && data[OffHandlers(p)..] == Concat(records)
  {
    FieldOf(insns, t, records, flags, 10);
    FieldOf(insns, t, records, flags, 11);
    HandlersSlice(insns, t, records, flags, FileOf(insns, t, records, flags),
                  OffHandlers(ShapeOf(insns, t, records, flags)));
  }

  lemma HandlersSlice(insns: seq<InsnMeta>, t: Tables, records: seq<seq<Byte>>, flags: nat, data: seq<Byte>, at: nat)
    requires data == FileOf(insns, t, records, flags) && at == OffHandlers(ShapeOf(insns, t, records, flags))
    ensures |data| == at + |Concat(records)| && data[at..] == Concat(records)
  {
    SectionSizes(insns, t);
    LayoutSizes();
    LastSection(HeaderBytes(ShapeOf(insns, t, records, flags)), Concat(InsnParts(insns)),
                Concat(OperandParts(t.operands)),
                Concat(NodeParts(t.nodes)), Concat(records), at);
  }

  lemma LastSection(h: seq<Byte>, i: seq<Byte>, o: seq<Byte>, n: seq<Byte>, r: seq<Byte>, at: nat)
    requires at == |h| + |i| + |o| + |n|
    ensures var data := h + i + o + n + r; |data| == at + |r| && data[at..] == r
  {
    Regroup(h, i, o, n, r);
  }

  // ---- the round trip of a whole file ----

  lemma PartsFit(img: Image, p: Parts)
    requires InTypes(img) && PartsOf(img, p)
    ensures ShapeFits(p.insns, p.tables, p.records, Flags(img.haswx, img.arm64))
    ensures TablesFit(p.tables) && Closed(p.tables.nodes) && |p.tables.operands| == |img.ops|
  {
    ConvertAllFits(img.ops, img.offs);
    ConvertClosed(img.ops, img.offs);
  }

  // A resolved instruction keeps its "no handler" mark exactly when it had it.
  lemma ResolvedFits(img: Image, p: Parts, k: nat)
    requires InTypes(img) && PartsOf(img, p) && k < |img.insns|
    ensures InsnInTypes(p.insns[k]) && (p.insns[k].handler == U32_MAX <==> img.insns[k].handler == U32_MAX)
  {
    var i := img.insns[k].handler;
    assert InsnInTypes(img.insns[k]);
    if i != U32_MAX {
      RecordAt(img.handlers, Aot(img), img.impls, p.records, i);
      OffsetStep(p.records, i);
    }
  }

  /**
   Following instruction k: its entry holds its address; with a handler, the entry leads to a
   record with the type, opcode bytes, implementation field and operands of that handler.
   */
  lemma FollowInstruction(img: Image, p: Parts, k: nat)
    requires InTypes(img) && PartsOf(img, p) && k < |img.insns|
    ensures
      var (data, insn) := (FileFrom(img, p), img.insns[k]);
      && InsnIn(data, k) == Some(p.insns[k]) && p.insns[k].rva == insn.rva
      && (p.insns[k].handler == U32_MAX <==> insn.handler == U32_MAX)
    ensures img.insns[k].handler != U32_MAX ==> Followed(img, FileFrom(img, p), p.insns[k], img.insns[k].handler)
  {
    var flags := Flags(img.haswx, img.arm64);
    PartsFit(img, p);
    ResolvedFits(img, p, k);
    InsnReads(p.insns, p.tables, p.records, flags, k);
    if img.insns[k].handler != U32_MAX {
      FollowHandler(img, p, img.insns[k].handler, p.insns[k]);
    }
  }

  // The handler pointer of an entry leads to the record of handler i.
  ghost predicate Followed(img: Image, data: seq<Byte>, insn: InsnMeta, i: nat) {
    && i < |img.handlers| && ImplAt(img.handlers, Aot(img), img.impls, i).Some?
    && HandlerIn(data, insn).Some?
    && Reads(HandlerIn(data, insn).value, img.handlers[i], ImplAt(img.handlers, Aot(img), img.impls, i).value)
  }

  lemma FollowHandler(img: Image, p: Parts, i: nat, insn: InsnMeta)
    requires InTypes(img) && PartsOf(img, p) && i < |img.handlers| && insn.handler == Offset(p.records, i)
    ensures Followed(img, FileFrom(img, p), insn, i)
  {
    var base := HandlerBase(img, p);
    FollowedFrom(img, p, FileFrom(img, p), base, i, insn);
  }

  lemma FollowedFrom(img: Image, p: Parts, data: seq<Byte>, base: nat, i: nat, insn: InsnMeta)
    requires InTypes(img) && RecordsOf(img.handlers, Aot(img), img.impls, p.records) && i < |img.handlers|
    requires base <= |data| && data[base..] == Concat(p.records) && HeaderField(data, 10) == Some(base)
    requires insn.handler == Offset(p.records, i)
    ensures Followed(img, data, insn, i)
  {
    SectionReads(data, base, img.handlers, Aot(img), img.impls, p.records, i);
    HandlerPointer(data, base, insn);
  }

  lemma HandlerPointer(data: seq<Byte>, base: nat, insn: InsnMeta)
    requires HeaderField(data, 10) == Some(base) && base + insn.handler <= |data|
    ensures HandlerIn(data, insn) == Some(data[base + insn.handler..])
  {
  }

  // Reading the tables back gives the converted operands and nodes.
  lemma TablesRead(img: Image, p: Parts, k: nat)
    requires InTypes(img) && PartsOf(img, p)
    ensures k < |p.tables.operands| ==> OperandIn(FileFrom(img, p), k) == Some(p.tables.operands[k])
    ensures k < |p.tables.nodes| ==> NodeIn(FileFrom(img, p), k) == Some(p.tables.nodes[k])
  {
    PartsFit(img, p);
    if k < |p.tables.operands| { OperandReads(p.insns, p.tables, p.records, Flags(img.haswx, img.arm64), k); }
    if k < |p.tables.nodes| { NodeReads(p.insns, p.tables, p.records, Flags(img.haswx, img.arm64), k); }
  }

  // The nodes a reader finds in the expression section.
  ghost predicate NodesRead(data: seq<Byte>, nodes: seq<Node>) {
    HeaderField(data, 9) == Some(|nodes|) && forall i :: 0 <= i < |nodes| ==> NodeIn(data, i) == Some(nodes[i])
  }

  lemma NodesReadBack(img: Image, p: Parts)
    requires InTypes(img) && PartsOf(img, p)
    ensures NodesRead(FileFrom(img, p), p.tables.nodes)
  {
    PartsFit(img, p);
    FieldOf(p.insns, p.tables, p.records, Flags(img.haswx, img.arm64), 9);
    forall i | 0 <= i < |p.tables.nodes| ensures NodeIn(FileFrom(img, p), i) == Some(p.tables.nodes[i]) {
      TablesRead(img, p, i);
    }
  }

  // A reader has no choice about the nodes.
  lemma NodesReadUnique(data: seq<Byte>, a: seq<Node>, b: seq<Node>)
    requires NodesRead(data, a) && NodesRead(data, b)
    ensures a == b
  {
    forall i | 0 <= i < |a| ensures a[i] == b[i] {
      assert NodeIn(data, i) == Some(a[i]) && NodeIn(data, i) == Some(b[i]);
    }
  }

  lemma ImageMeaning(img: Image, p: Parts, k: nat, pointer: bool, cpu: Cpu)
    requires InTypes(img) && PartsOf(img, p) && k < |img.ops|
    ensures k < |p.tables.operands|
    ensures Agrees(img.ops[k], img.offs, p.tables.operands[k], p.tables.nodes, pointer, cpu)
  {
    ConvertAllMeaning(img.ops, img.offs, k, pointer, cpu);
  }

  /**
   From trees to bytes and back: a reader decodes operand k and the nodes from the file, and the
   decoded operand evaluates on every CPU state as the original tree did.
   */
  lemma FileMeaning(img: Image, p: Parts, k: nat, pointer: bool, cpu: Cpu) returns (op: MetaOperand, nodes: seq<Node>)
    requires InTypes(img) && PartsOf(img, p) && k < |img.ops|
    ensures OperandIn(FileFrom(img, p), k) == Some(op) && NodesRead(FileFrom(img, p), nodes)
    ensures Agrees(img.ops[k], img.offs, op, nodes, pointer, cpu)
  {
    ImageMeaning(img, p, k, pointer, cpu);
    TablesRead(img, p, k);
    NodesReadBack(img, p);
    op, nodes := p.tables.operands[k], p.tables.nodes;
  }

  // Where the header says the handler section is.
  lemma HandlerBase(img: Image, p: Parts) returns (base: nat)
    requires InTypes(img) && PartsOf(img, p)
    ensures var data := FileFrom(img, p);
      HeaderField(data, 10) == Some(base) && base <= |data| && data[base..] == Concat(p.records)
    ensures HeaderField(FileFrom(img, p), 11) == Some(|img.handlers|)
    ensures base % 4 == 0
  {
    PartsFit(img, p);
    HandlersAt(p.insns, p.tables, p.records, Flags(img.haswx, img.arm64));
    base := OffHandlers(PartsShape(img, p));
    BaseAligned(PartsShape(img, p));
  }

  lemma BaseAligned(p: Shape)
    ensures OffHandlers(p) % 4 == 0
  {
  }

  // Embedded ARM64 code: aligned in the file, and exactly where handler() points.
  lemma FileCodeAligned(img: Image, p: Parts, k: nat)
    requires InTypes(img) && PartsOf(img, p) && Aot(img) && k < |img.handlers|
    requires img.handlers[k].typ.Dynamic? && img.handlers[k].code != [] && img.handlers[k].oplen % 4 == 0
    ensures HeaderField(FileFrom(img, p), 10).Some?
    ensures CodeInPlace(FileFrom(img, p), HeaderField(FileFrom(img, p), 10).value + p.offsets[k], img.handlers[k].code)
  {
    var base := HandlerBase(img, p);
    CodeAligned(FileFrom(img, p), base, img.handlers, img.impls, p.records, k,
                HeaderField(FileFrom(img, p), 10).value + p.offsets[k]);
  }

  // dump recomputes the writer's offsets when it makes the same choice about embedded code.
  lemma FileWalk(img: Image, p: Parts) returns (base: nat)
    requires InTypes(img) && PartsOf(img, p) && (img.haswx ==> img.arm64)
    ensures HeaderField(FileFrom(img, p), 10) == Some(base) && HeaderField(FileFrom(img, p), 11) == Some(|img.handlers|)
    ensures Walk(FileFrom(img, p), base, base, |img.handlers|, img.haswx) == Some(p.offsets)
  {
    base := HandlerBase(img, p);
    WalkReproduces(FileFrom(img, p), base, img.handlers, Aot(img), img.impls, p.records, p.offsets);
  }

  // ---- serialize() ----

  // Nothing serialize() could write for this image.
  ghost predicate NoFile(img: Image)
    requires InTypes(img)
  { forall p: Parts :: !PartsOf(img, p) }

  lemma NoSectionNoFile(img: Image)
    requires InTypes(img) && NoSection(img.handlers, Aot(img), img.impls)
    ensures NoFile(img)
  {
  }

  lemma UnresolvedNoFile(img: Image, i: nat)
    requires InTypes(img) && i < |img.insns| && img.insns[i].handler != U32_MAX
    requires img.insns[i].handler >= |img.handlers|
    ensures NoFile(img)
  {
  }

  lemma UnresolvableNoFile(img: Image, n: nat)
    requires InTypes(img) && n == |img.handlers| && !Resolvable(img.insns, n)
    ensures NoFile(img)
  {
    var i :| 0 <= i < |img.insns| && img.insns[i].handler != U32_MAX && img.insns[i].handler >= n;
    UnresolvedNoFile(img, i);
  }

  lemma MadeParts(img: Image, p: Parts)
    requires InTypes(img) && ConvertAll(img.ops, img.offs) == Some(p.tables)
    requires RecordsOf(img.handlers, Aot(img), img.impls, p.records) && OffsetsOf(p.records, p.offsets)
    requires Resolvable(img.insns, |p.offsets|) && |p.insns| == |img.insns|
    requires forall i :: 0 <= i < |img.insns| ==> p.insns[i] == Resolved(img.insns[i], p.offsets)
    requires |p.records| <= U32_MAX
    requires Total(ShapeOf(p.insns, p.tables, p.records, Flags(img.haswx, img.arm64))) <= U32_MAX
    ensures PartsOf(img, p)
  {
  }

  lemma TooLargeNoFile(img: Image, t: Tables, records: seq<seq<Byte>>)
    requires InTypes(img) && ConvertAll(img.ops, img.offs) == Some(t)
    requires RecordsOf(img.handlers, Aot(img), img.impls, records)
    requires |records| > U32_MAX || Total(Shape(|img.insns|, |t.operands|, |t.nodes|, |records|, |Concat(records)|,
                                                0)) > U32_MAX
    ensures NoFile(img)
  {
    forall p: Parts ensures !PartsOf(img, p) {
      if PartsOf(img, p) { RecordsUnique(img.handlers, Aot(img), img.impls, records, p.records); }
    }
  }

  method ResolveHandlers(insns: seq<InsnMeta>, offsets: seq<nat>) returns (r: Option<seq<InsnMeta>>)
    ensures r.Some? <==> Resolvable(insns, |offsets|)
    ensures r.Some? ==> |r.value| == |insns| && forall i :: 0 <= i < |insns| ==>
      r.value[i] == Resolved(insns[i], offsets)
  {
    var instructions := insns;
    for i := 0 to |insns|
      invariant |instructions| == |insns| && Resolvable(insns[..i], |offsets|)
      invariant forall k :: 0 <= k < i ==>
        Resolvable([insns[k]], |offsets|) && instructions[k] == Resolved(insns[k], offsets)
      invariant forall k :: i <= k < |insns| ==> instructions[k] == insns[k]
    {
      var h := instructions[i].handler;
      if h == U32_MAX { continue; }
      if h >= |offsets| { return None; }
      instructions := instructions[i := InsnMeta(instructions[i].rva, offsets[h])];
    }
    r := Some(instructions);
  }

  // memcpy into the output buffer, behind what is already there.
  method CopyBytes(buf: array<Byte>, at: nat, ghost before: seq<Byte>, bytes: seq<Byte>)
    requires at + |bytes| <= buf.Length && buf[..at] == before
    modifies buf
    ensures buf[..at + |bytes|] == before + bytes
  {
    for i := 0 to |bytes|
      invariant buf[..at] == before
      invariant buf[at..at + i] == bytes[..i]
    {
      buf[at + i] := bytes[i];
      assert buf[at..at + i + 1] == buf[at..at + i] + [bytes[i]];
    }
    assert buf[..at + |bytes|] == buf[..at] + buf[at..at + |bytes|];
  }

  // The handler records, copied one after the other.
  method CopyRecords(buf: array<Byte>, at: nat, ghost before: seq<Byte>, records: seq<seq<Byte>>)
    requires at + |Concat(records)| <= buf.Length && buf[..at] == before
    modifies buf
    ensures buf[..at + |Concat(records)|] == before + Concat(records)
  {
    var offset := at;
    assert records[..0] == [];
    for i := 0 to |records|
      invariant offset == at + |Concat(records[..i])| && offset <= at + |Concat(records)|
      invariant buf[..offset] == before + Concat(records[..i])
    {
      NextRecord(records, i);
      CopyBytes(buf, offset, before + Concat(records[..i]), records[i]);
      AppendAssoc(before, Concat(records[..i]), records[i]);
      offset := offset + |records[i]|;
    }
    assert records[..|records|] == records;
  }

  lemma NextRecord(records: seq<seq<Byte>>, i: nat)
    requires i < |records|
    ensures Concat(records[..i + 1]) == Concat(records[..i]) + records[i]
    ensures |Concat(records[..i + 1])| <= |Concat(records)|
  {
    assert records[..i + 1] == records[..i] + [records[i]];
    ConcatPush(records[..i], records[i]);
    assert records == records[..i + 1] + records[i + 1..];
    ConcatAppend(records[..i + 1], records[i + 1..]);
  }

  /**
   serialize() up to the output stream: the file made of the image's parts, or nothing when there
   are no such parts (an operand or handler that cannot be converted, an instruction whose handler
   does not exist, a section beyond the 32-bit format).
   */
  method SerializeImage(img: Image) returns (out: Option<seq<Byte>>, ghost p: Parts)
    requires InTypes(img)
    ensures out.Some? ==> PartsOf(img, p) && out.value == FileFrom(img, p)
    ensures out.None? ==> NoFile(img)
  {
    p := Parts([], Tables([], []), [], []);
    var converter := new Converter(img.offs);
    var converted := converter.ConvertOperands(img.ops);
    if !converted { return None, p; }
    var t := Tables(converter.metadata, converter.expressions);
    var ok, records, offsets := SerializeHandlers(img.handlers, Aot(img), img.impls);
    if !ok {
      NoSectionNoFile(img);
      return None, p;
    }
    var resolved := ResolveHandlers(img.insns, offsets);
    if resolved.None? {
      UnresolvableNoFile(img, |offsets|);
      return None, p;
    }
    var instructions := resolved.value;
    var shape := ShapeOf(instructions, t, records, Flags(img.haswx, img.arm64));
    if |records| > U32_MAX || Total(shape) > U32_MAX {
      TooLargeNoFile(img, t, records);
      return None, p;
    }
    p := Parts(instructions, t, records, offsets);
    MadeParts(img, p);
    var file := WriteFile(instructions, t, records, Flags(img.haswx, img.arm64));
    out := Some(file);
  }

  method WriteFile(instructions: seq<InsnMeta>, t: Tables, records: seq<seq<Byte>>,
                   flags: nat) returns (file: seq<Byte>)
    ensures file == FileOf(instructions, t, records, flags)
  {
    var shape := ShapeOf(instructions, t, records, flags);
    SectionSizes(instructions, t);
    LayoutSizes();
    file := FillBuffer(shape, HeaderBytes(shape), Concat(InsnParts(instructions)), Concat(OperandParts(t.operands)),
                       Concat(NodeParts(t.nodes)), records);
  }

  // The output buffer, filled section by section at the section offsets.
  method FillBuffer(p: Shape, header: seq<Byte>, insns: seq<Byte>, operands: seq<Byte>, nodes: seq<Byte>,
                    records: seq<seq<Byte>>)
    returns (file: seq<Byte>)
    requires |header| == OffInsns() && OffInsns() + |insns| == OffOperands(p)
    requires OffOperands(p) + |operands| == OffNodes(p)
    requires OffNodes(p) + |nodes| == OffHandlers(p) && p.handlerBytes == |Concat(records)|
    ensures file == header + insns + operands + nodes + Concat(records)
  {
    var outbuf := new Byte[Total(p)](_ => 0);
    FillSections(outbuf, OffInsns(), OffOperands(p), OffNodes(p), OffHandlers(p), header, insns, operands, nodes,
                 records);
    file := outbuf[..];
  }

  method FillSections(outbuf: array<Byte>, offInsns: nat, offOperands: nat, offNodes: nat, offHandlers: nat,
                      header: seq<Byte>, insns: seq<Byte>, operands: seq<Byte>, nodes: seq<Byte>,
                      records: seq<seq<Byte>>)
    requires |header| == offInsns && offInsns + |insns| == offOperands && offOperands + |operands| == offNodes
    requires offNodes + |nodes| == offHandlers && offHandlers + |Concat(records)| == outbuf.Length
    modifies outbuf
    ensures outbuf[..] == header + insns + operands + nodes + Concat(records)
  {
    CopyBytes(outbuf, 0, [], header);
    assert [] + header == header;
    CopyBytes(outbuf, offInsns, header, insns);
    CopyBytes(outbuf, offOperands, header + insns, operands);
    CopyBytes(outbuf, offNodes, header + insns + operands, nodes);
    CopyRecords(outbuf, offHandlers, header + insns + operands + nodes, records);
    assert outbuf[..] == outbuf[..outbuf.Length];
  }
}
