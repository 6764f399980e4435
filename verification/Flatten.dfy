/**
 ConvertExpression, ConvertOperand and convertOperands of src/OpcodeEngine.cpp: operand trees are
 flattened in post-order into one shared node array. The methods push onto that array in place;
 the functions say what they leave there; the lemmas say that it means the same.
 */
module Flatten {
  import opened Words
  import opened Operands
  import opened Metadata

  // The converted root of a tree, and the array after its descendants were pushed.
  datatype Flat = Flat(root: Node, nodes: seq<Node>)

  function FlattenTree(e: MaybeExpr, offs: Offsets, nodes: seq<Node>): Option<Flat> {
    match e
    case Null => None
    case Ptr(LLVMOp(opcode, op1, op2, width)) =>
      if opcode > 255 then None else
      var a := FlattenChild(FlattenTree(op1, offs, nodes));
      if a.None? then None else
      if op2.Null? then Finish(opcode, |a.value| - 1, NO_CHILD, width, a.value) else
      var b := FlattenChild(FlattenTree(op2, offs, a.value));
      if b.None? then None else Finish(opcode, |a.value| - 1, |b.value| - 1, width, b.value)
    case Ptr(Reg(reg)) =>
      if reg.None? || reg.value.name !in offs || offs[reg.value.name] > 0xffff || reg.value.size > 0xffff then None
      else Some(Flat(RegisterNode(offs[reg.value.name], reg.value.size), nodes))
    case Ptr(Const(c)) =>
      if c.None? || c.value.bits > 64 || c.value.value >= TWO64 then None
      else Some(Flat(ConstantNode(c.value.value % 0x1_0000_0000, c.value.value / 0x1_0000_0000, c.value.bits), nodes))
    case Ptr(Name(name)) =>
      if name == "" || name !in offs || offs[name] > 0xffff then None
      else Some(Flat(RegisterNode(offs[name], NameSize(name)), nodes))
  }

  // append_child: push the converted child, unless the array is full. The result is never empty.
  function FlattenChild(f: Option<Flat>): (r: Option<seq<Node>>)
    ensures r.Some? ==> r.value != []
  {
    if f.None? || |f.value.nodes| >= NO_CHILD then None else Some(f.value.nodes + [f.value.root])
  }

  function Finish(opcode: nat, lhs: nat, rhs: nat, width: Option<nat>, nodes: seq<Node>): Option<Flat> {
    if width.Some? && width.value > 255 then None
    else Some(Flat(Operation(opcode, lhs, rhs, if width.Some? then width.value else 0), nodes))
  }

  // Every cast in the tree carries a type.
  predicate CastsTyped(e: MaybeExpr) {
    match e
    case Ptr(LLVMOp(opcode, op1, op2, width)) => (IsCast(opcode) ==> width.Some?) && CastsTyped(op1) && CastsTyped(op2)
    case _ => true
  }

  // What flattening one tree guarantees about the array and the root.
  ghost predicate FlatOk(nodes: seq<Node>, f: Flat) {
    nodes <= f.nodes && Closed(f.nodes) && |f.nodes| <= NO_CHILD && ChildrenBelow(f.root, |f.nodes|)
  }

  lemma {:induction false} FlattenShape(e: MaybeExpr, offs: Offsets, nodes: seq<Node>)
    requires Closed(nodes) && |nodes| <= NO_CHILD
    ensures var f := FlattenTree(e, offs, nodes); f.Some? ==> FlatOk(nodes, f.value)
    decreases e
  {
    if e.Ptr? && e.e.LLVMOp? && FlattenTree(e, offs, nodes).Some? {
      FlattenShape(e.e.op1, offs, nodes);
      var a := FlattenChild(FlattenTree(e.e.op1, offs, nodes)).value;
      PushClosed(nodes, FlattenTree(e.e.op1, offs, nodes).value);
      if e.e.op2.Ptr? {
        FlattenShape(e.e.op2, offs, a);
        PushClosed(a, FlattenTree(e.e.op2, offs, a).value);
      }
    }
  }

  lemma PushClosed(nodes: seq<Node>, f: Flat)
    requires FlatOk(nodes, f) && |f.nodes| < NO_CHILD
    ensures var a := f.nodes + [f.root]; Closed(a) && nodes <= a && |a| <= NO_CHILD && a[|a| - 1] == f.root
  {
  }

  // The value a pushed child has in any later array.
  lemma PushedValue(nodes: seq<Node>, f: Flat, later: seq<Node>, cpu: Cpu)
    requires FlatOk(nodes, f) && Closed(later) && f.nodes + [f.root] <= later
    ensures var i := |f.nodes|;
      later[i] == f.root && EvalNode(later, i, later[i], cpu) == EvalNode(f.nodes, |f.nodes|, f.root, cpu)
  {
    var i := |f.nodes|;
    assert later[i] == (f.nodes + [f.root])[i];
    EvalStable(f.nodes, later, |f.nodes|, i, f.root, cpu);
  }

  // ---- missing types ----

  // The tree as the flat form stores it: a missing type becomes width 0.
  function Filled(e: MaybeExpr): MaybeExpr {
    match e
    case Ptr(LLVMOp(opcode, op1, op2, width)) => Ptr(LLVMOp(opcode, Filled(op1), Filled(op2), Some(WidthField(width))))
    case _ => e
  }

  function WidthField(width: Option<nat>): nat { if width.Some? then width.value else 0 }

  // Filling in types changes nothing where casts have theirs; otherwise the tree evaluator faults.
  lemma {:induction false} FilledMeaning(e: MaybeExpr, offs: Offsets, cpu: Cpu)
    ensures CastsTyped(Filled(e))
    ensures CastsTyped(e) ==> EvalTree(Filled(e), offs, cpu) == EvalTree(e, offs, cpu)
    ensures !CastsTyped(e) ==> EvalTree(e, offs, cpu).None?
    decreases e
  {
    if e.Ptr? && e.e.LLVMOp? {
      FilledMeaning(e.e.op1, offs, cpu);
      FilledMeaning(e.e.op2, offs, cpu);
    }
  }

  lemma {:induction false} FlattenFilled(e: MaybeExpr, offs: Offsets, nodes: seq<Node>)
    ensures FlattenTree(Filled(e), offs, nodes) == FlattenTree(e, offs, nodes)
    decreases e
  {
    if e.Ptr? && e.e.LLVMOp? {
      FlattenFilled(e.e.op1, offs, nodes);
      var a := FlattenChild(FlattenTree(e.e.op1, offs, nodes));
      if a.Some? { FlattenFilled(e.e.op2, offs, a.value); }
    }
  }

  /**
   The flat value is that of the tree with missing types filled in. It is the tree's own value if and
   only if every cast has its type or that value is a fault; a tree that has a value has all types.
   */
  ghost predicate SameMeaning(tree: Option<nat>, filled: Option<nat>, flat: Option<nat>, typed: bool) {
    flat == filled && (flat == tree <==> typed || filled.None?) && (tree.Some? ==> typed)
  }

  // The value of an operation in the array, once its children's values are known.
  lemma OperationValue(f: Flat, l: Option<nat>, r: Option<nat>, cpu: Cpu)
    requires Closed(f.nodes) && ChildrenBelow(f.root, |f.nodes|) && f.root.Operation?
    requires l == EvalNode(f.nodes, f.root.lhs, f.nodes[f.root.lhs], cpu)
    requires f.root.rhs == NO_CHILD ==> r == Some(0)
    requires f.root.rhs != NO_CHILD ==> r == EvalNode(f.nodes, f.root.rhs, f.nodes[f.root.rhs], cpu)
    ensures EvalNode(f.nodes, |f.nodes|, f.root, cpu)
         == if l.None? || r.None? then None else Apply(f.root.opcode, f.root.width, l.value, r.value)
  {
  }

  // Flattening preserves the meaning of trees whose casts have their types.
  lemma {:induction false} TypedMeaning(e: MaybeExpr, offs: Offsets, nodes: seq<Node>, cpu: Cpu)
    requires Closed(nodes) && |nodes| <= NO_CHILD && FlattenTree(e, offs, nodes).Some? && CastsTyped(e)
    ensures Means(e, offs, nodes, FlattenTree(e, offs, nodes).value, cpu)
    decreases e
  {
    FlattenShape(e, offs, nodes);
    if e.Ptr? && e.e.LLVMOp? {
      var f := FlattenTree(e, offs, nodes).value;
      var f1, f2 := OperationParts(e.e, offs, nodes);
      TypedMeaning(e.e.op1, offs, nodes, cpu);
      if e.e.op2.Ptr? {
        PushClosed(nodes, f1);
        TypedMeaning(e.e.op2, offs, f1.nodes + [f1.root], cpu);
        BinaryMeaning(e.e, offs, nodes, f1, f2, f, cpu);
      } else {
        UnaryMeaning(e.e, offs, nodes, f1, f, cpu);
      }
    }
  }

  /**
   Flattening preserves meaning: the array evaluator computes from the flat form what the tree
   evaluator computes, faults included, exactly when casts have their types or the flat form faults too.
   */
  lemma FlattenMeaning(e: MaybeExpr, offs: Offsets, nodes: seq<Node>, cpu: Cpu)
    requires Closed(nodes) && |nodes| <= NO_CHILD && FlattenTree(e, offs, nodes).Some?
    ensures var f := FlattenTree(e, offs, nodes).value;
      && FlatOk(nodes, f)
      && SameMeaning(EvalTree(e, offs, cpu), EvalTree(Filled(e), offs, cpu),
                     EvalNode(f.nodes, |f.nodes|, f.root, cpu), CastsTyped(e))
  {
    FilledMeaning(e, offs, cpu);
    FlattenFilled(e, offs, nodes);
    TypedMeaning(Filled(e), offs, nodes, cpu);
  }

  // How a converted operation is put together from its converted children.
  lemma OperationParts(e: Expr, offs: Offsets, nodes: seq<Node>) returns (f1: Flat, f2: Flat)
    requires e.LLVMOp? && FlattenTree(Ptr(e), offs, nodes).Some?
    ensures FlattenTree(e.op1, offs, nodes) == Some(f1) && |f1.nodes| < NO_CHILD
    ensures
      var f := FlattenTree(Ptr(e), offs, nodes).value;
      if e.op2.Null? then
        f == Flat(Operation(e.opcode, |f1.nodes|, NO_CHILD, WidthField(e.width)), f1.nodes + [f1.root])
      else
        && FlattenTree(e.op2, offs, f1.nodes + [f1.root]) == Some(f2) && |f2.nodes| < NO_CHILD
        && f == Flat(Operation(e.opcode, |f1.nodes|, |f2.nodes|, WidthField(e.width)), f2.nodes + [f2.root])
  {
    f1 := FlattenTree(e.op1, offs, nodes).value;
    f2 := f1;
    if e.op2.Ptr? { f2 := FlattenTree(e.op2, offs, f1.nodes + [f1.root]).value; }
  }

  ghost predicate Means(e: MaybeExpr, offs: Offsets, nodes: seq<Node>, f: Flat, cpu: Cpu) {
    FlatOk(nodes, f) && EvalNode(f.nodes, |f.nodes|, f.root, cpu) == EvalTree(e, offs, cpu)
  }

  lemma UnaryMeaning(e: Expr, offs: Offsets, nodes: seq<Node>, f1: Flat, f: Flat, cpu: Cpu)
    requires e.LLVMOp? && e.op2.Null? && CastsTyped(Ptr(e)) && Means(e.op1, offs, nodes, f1, cpu) && FlatOk(nodes, f)
    requires f == Flat(Operation(e.opcode, |f1.nodes|, NO_CHILD, WidthField(e.width)), f1.nodes + [f1.root])
    ensures Means(Ptr(e), offs, nodes, f, cpu)
  {
    PushedValue(nodes, f1, f.nodes, cpu);
    OperationValue(f, EvalNode(f1.nodes, |f1.nodes|, f1.root, cpu), Some(0), cpu);
  }

  lemma BinaryMeaning(e: Expr, offs: Offsets, nodes: seq<Node>, f1: Flat, f2: Flat, f: Flat, cpu: Cpu)
    requires e.LLVMOp? && e.op2.Ptr? && CastsTyped(Ptr(e)) && Means(e.op1, offs, nodes, f1, cpu) && FlatOk(nodes, f)
    requires Means(e.op2, offs, f1.nodes + [f1.root], f2, cpu)
    requires f == Flat(Operation(e.opcode, |f1.nodes|, |f2.nodes|, WidthField(e.width)), f2.nodes + [f2.root])
    requires |f2.nodes| < NO_CHILD
    ensures Means(Ptr(e), offs, nodes, f, cpu)
  {
    assert f1.nodes + [f1.root] <= f.nodes;
    PushedValue(nodes, f1, f.nodes, cpu);
    PushedValue(f1.nodes + [f1.root], f2, f.nodes, cpu);
    OperationValue(f, EvalNode(f1.nodes, |f1.nodes|, f1.root, cpu), EvalNode(f2.nodes, |f2.nodes|, f2.root, cpu), cpu);
  }

  // A cast whose type is missing: the tree evaluator faults, the array evaluator reads width 0.
  lemma UntypedCastDiffers(cpu: Cpu)
    ensures
      var e := Ptr(LLVMOp(ZEXT, Ptr(Const(Some(ConstInt(8, 5)))), Null, None));
      var f := FlattenTree(e, map[], []);
      && !CastsTyped(e) && EvalTree(e, map[], cpu).None? && f.Some?
      && FlatOk([], f.value) && EvalNode(f.value.nodes, |f.value.nodes|, f.value.root, cpu) == Some(0)
  {
    var e := Ptr(LLVMOp(ZEXT, Ptr(Const(Some(ConstInt(8, 5)))), Null, None));
    var f := FlattenTree(e, map[], []).value;
    assert f == Flat(Operation(ZEXT, 0, NO_CHILD, 0), [ConstantNode(5, 0, 8)]);
    OperationValue(f, Some(5), Some(0), cpu);
  }

  // ---- operands ----

  // One converted operand, and the array after its expression was pushed.
  datatype Converted = Converted(operand: MetaOperand, nodes: seq<Node>)

  predicate FitsU16(reg: RegRef) { reg.offset <= 0xffff && reg.size <= 0xffff }

  function ToMeta(reg: RegRef): MetaReg { MetaReg(reg.offset, reg.size) }

  // Only named registers of an address are converted; the others stay zero.
  function NamedMeta(reg: RegRef): MetaReg { if reg.name != "" then ToMeta(reg) else MetaReg(0, 0) }

  predicate NamedFits(reg: RegRef) { reg.name != "" ==> FitsU16(reg) }

  function ConvertPayload(p: Payload): Option<Value> {
    match p
    case Invalid => Some(NoValue)
    case Register(reg) => if FitsU16(reg) then Some(RegisterValue(ToMeta(reg))) else None
    case ShiftRegister(reg, shiftSize, extractSize, first, can, shift, extend) =>
      if shiftSize > 255 || extractSize > 255 || !FitsU16(reg) then None
      else Some(ShiftRegisterValue(ToMeta(reg), shiftSize, extractSize, first, can, shift, extend))
    case Immediate(val, isSigned) => Some(ImmediateWord(val, isSigned))
    case Address(segment, base, index, scale, displacement, addressSize, kind) =>
      if addressSize > 255 || !NamedFits(segment) || !NamedFits(base) || !NamedFits(index) then None
      else Some(AddressWord(NamedMeta(segment), NamedMeta(base), NamedMeta(index), scale, displacement, addressSize,
                            kind))
    case Expression(_, _) => None
    case Unknown(_) => None
  }

  // static_cast<uint16_t>(operand.size)
  function ConvertOne(op: Operand, offs: Offsets, nodes: seq<Node>): Option<Converted> {
    if op.payload.Expression? then
      var f := FlattenTree(op.payload.expr, offs, nodes);
      if f.None? then None
      else Some(Converted(MetaOperand(op.size % 0x10000, op.action, ExpressionValue(op.payload.form, f.value.root)),
                          f.value.nodes))
    else
      var v := ConvertPayload(op.payload);
      if v.None? then None else Some(Converted(MetaOperand(op.size % 0x10000, op.action, v.value), nodes))
  }

  predicate OperandTyped(op: Operand) { op.payload.Expression? ==> CastsTyped(op.payload.expr) }

  // The operand with its tree's missing types filled in.
  function FilledOperand(op: Operand): Operand {
    if op.payload.Expression? then op.(payload := Expression(op.payload.form, Filled(op.payload.expr))) else op
  }

  // What a converted operand m with node array nodes owes to the operand op it was made from.
  ghost predicate Agrees(op: Operand, offs: Offsets, m: MetaOperand, nodes: seq<Node>, pointer: bool, cpu: Cpu) {
    && Closed(nodes) && RootBelow(m, nodes)
    && SameMeaning(EvalOperand(op, pointer, offs, cpu), EvalOperand(FilledOperand(op), pointer, offs, cpu),
                   EvalMeta(m, pointer, nodes, cpu), OperandTyped(op))
  }

  lemma NamedReads(reg: RegRef, cpu: Cpu)
    ensures MetaWordOrZero(NamedMeta(reg), cpu) == WordOrZero(reg, cpu)
  {
    if reg.name != "" && reg.size == 0 {
      assert LoadReg(cpu, reg.offset, 0) == 0;
    }
  }

  // Converting one operand keeps its value, in the array it leaves and in every later one.
  lemma ConvertOneMeaning(op: Operand, offs: Offsets, nodes: seq<Node>, later: seq<Node>, pointer: bool, cpu: Cpu)
    requires Closed(nodes) && |nodes| <= NO_CHILD && op.size < 0x10000
    requires var c := ConvertOne(op, offs, nodes); c.Some? && c.value.nodes <= later && Closed(later)
    ensures var c := ConvertOne(op, offs, nodes).value;
      && nodes <= c.nodes && Closed(c.nodes) && |c.nodes| <= NO_CHILD && RootBelow(c.operand, c.nodes)
      && Agrees(op, offs, c.operand, later, pointer, cpu)
  {
    if op.payload.Expression? {
      var c := ConvertOne(op, offs, nodes).value;
      FlattenMeaning(op.payload.expr, offs, nodes, cpu);
      EvalStable(c.nodes, later, |c.nodes|, |later|, c.operand.value.root, cpu);
    } else {
      ConvertPlainMeaning(op, offs, nodes, later, pointer, cpu);
    }
  }

  lemma ConvertPlainMeaning(op: Operand, offs: Offsets, nodes: seq<Node>, later: seq<Node>, pointer: bool, cpu: Cpu)
    requires !op.payload.Expression? && op.size < 0x10000 && Closed(later)
    requires ConvertOne(op, offs, nodes).Some?
    ensures var c := ConvertOne(op, offs, nodes).value;
      && c.nodes == nodes && !c.operand.value.ExpressionValue?
      && EvalOperand(op, pointer, offs, cpu) == EvalMeta(c.operand, pointer, later, cpu)
  {
    ConvertPlain(op, offs, nodes);
    PayloadMeaning(op, ConvertPayload(op.payload).value, offs, later, pointer, cpu);
  }

  lemma ConvertPlain(op: Operand, offs: Offsets, nodes: seq<Node>)
    requires !op.payload.Expression? && op.size < 0x10000 && ConvertOne(op, offs, nodes).Some?
    ensures ConvertPayload(op.payload).Some?
    ensures ConvertOne(op, offs, nodes).value
         == Converted(MetaOperand(op.size, op.action, ConvertPayload(op.payload).value), nodes)
  {
  }

  lemma PayloadMeaning(op: Operand, v: Value, offs: Offsets, later: seq<Node>, pointer: bool, cpu: Cpu)
    requires ConvertPayload(op.payload) == Some(v) && Closed(later)
    ensures !v.ExpressionValue?
    ensures EvalOperand(op, pointer, offs, cpu) == EvalMeta(MetaOperand(op.size, op.action, v), pointer, later, cpu)
  {
    if op.payload.Address? { AddressMeaning(op, v, offs, later, pointer, cpu); }
  }

  lemma AddressMeaning(op: Operand, v: Value, offs: Offsets, later: seq<Node>, pointer: bool, cpu: Cpu)
    requires op.payload.Address? && ConvertPayload(op.payload) == Some(v) && Closed(later)
    ensures EvalOperand(op, pointer, offs, cpu) == EvalMeta(MetaOperand(op.size, op.action, v), pointer, later, cpu)
  {
    NamedReads(op.payload.segment, cpu);
    NamedReads(op.payload.base, cpu);
    NamedReads(op.payload.index, cpu);
  }

  // ---- the whole operand list ----

  datatype Tables = Tables(operands: seq<MetaOperand>, nodes: seq<Node>)

  function ConvertAll(ops: seq<Operand>, offs: Offsets): Option<Tables> {
    if ops == [] then Some(Tables([], [])) else
    var t := ConvertAll(ops[..|ops| - 1], offs);
    if t.None? then None else
    var c := ConvertOne(ops[|ops| - 1], offs, t.value.nodes);
    if c.None? then None else Some(Tables(t.value.operands + [c.value.operand], c.value.nodes))
  }

  // Later appends never disturb earlier operands: each one is settled by the array it left.
  lemma {:induction false} ConvertPrefix(ops: seq<Operand>, offs: Offsets, i: nat)
    requires i < |ops| && ConvertAll(ops, offs).Some? && (forall k :: 0 <= k < |ops| ==> ops[k].size < 0x10000)
    ensures var t := ConvertAll(ops, offs).value;
      && |t.operands| == |ops| && Closed(t.nodes) && |t.nodes| <= NO_CHILD
      && ConvertAll(ops[..i], offs).Some?
      && var t0 := ConvertAll(ops[..i], offs).value;
         && Closed(t0.nodes) && |t0.nodes| <= NO_CHILD
         && ConvertOne(ops[i], offs, t0.nodes).Some?
         && t.operands[i] == ConvertOne(ops[i], offs, t0.nodes).value.operand
         && ConvertOne(ops[i], offs, t0.nodes).value.nodes <= t.nodes
    decreases |ops|
  {
    var n := |ops| - 1;
    var front := ops[..n];
    var t' := ConvertAll(front, offs).value;
    ConvertClosed(front, offs);
    ConvertOneShape(ops[n], offs, t'.nodes);
    if i < n {
      ConvertPrefix(front, offs, i);
      assert front[..i] == ops[..i] && front[i] == ops[i];
    }
  }

  lemma ConvertOneShape(op: Operand, offs: Offsets, nodes: seq<Node>)
    requires Closed(nodes) && |nodes| <= NO_CHILD && ConvertOne(op, offs, nodes).Some?
    ensures var c := ConvertOne(op, offs, nodes).value; nodes <= c.nodes && Closed(c.nodes) && |c.nodes| <= NO_CHILD
  {
    if op.payload.Expression? { FlattenShape(op.payload.expr, offs, nodes); }
  }

  lemma {:induction false} ConvertClosed(ops: seq<Operand>, offs: Offsets)
    requires ConvertAll(ops, offs).Some?
    ensures var t := ConvertAll(ops, offs).value; |t.operands| == |ops| && Closed(t.nodes) && |t.nodes| <= NO_CHILD
  {
    if ops != [] {
      var n := |ops| - 1;
      ConvertClosed(ops[..n], offs);
      ConvertOneShape(ops[n], offs, ConvertAll(ops[..n], offs).value.nodes);
    }
  }

  /**
   If convertOperands succeeds, every operand evaluates on every CPU state from the final shared array
   as from its original tree, exactly when the tree's casts have their types or the flat form faults.
   */
  lemma ConvertAllMeaning(ops: seq<Operand>, offs: Offsets, i: nat, pointer: bool, cpu: Cpu)
    requires i < |ops| && ConvertAll(ops, offs).Some? && (forall k :: 0 <= k < |ops| ==> ops[k].size < 0x10000)
    ensures var t := ConvertAll(ops, offs).value;
      |t.operands| == |ops| && |t.nodes| <= NO_CHILD && Agrees(ops[i], offs, t.operands[i], t.nodes, pointer, cpu)
  {
    ConvertPrefix(ops, offs, i);
    ConvertOneMeaning(ops[i], offs, ConvertAll(ops[..i], offs).value.nodes, ConvertAll(ops, offs).value.nodes, pointer,
                      cpu);
  }

  // ---- the converter, pushing in place ----

  class Converter {
    var metadata: seq<MetaOperand>
    var expressions: seq<Node>
    const offs: Offsets

    constructor (offs: Offsets)
      ensures this.offs == offs && metadata == [] && expressions == []
    {
      this.offs := offs;
      metadata, expressions := [], [];
    }

    method ConvertExpression(e: MaybeExpr) returns (root: Option<Node>)
      modifies this`expressions
      ensures var f := FlattenTree(e, offs, old(expressions));
        && (root.Some? <==> f.Some?)
        && (f.Some? ==> root.value == f.value.root && expressions == f.value.nodes)
      decreases e, 1
    {
      match e
      case Null => return None;
      case Ptr(LLVMOp(opcode, op1, op2, width)) =>
        if opcode > 255 { return None; }
        var lhs := AppendChild(op1);
        if lhs.None? { return None; }
        var rhs := Some(NO_CHILD);
        if op2.Ptr? {
          rhs := AppendChild(op2);
          if rhs.None? { return None; }
        }
        if width.Some? && width.value > 255 { return None; }
        return Some(Operation(opcode, lhs.value, rhs.value, if width.Some? then width.value else 0));
      case Ptr(Reg(reg)) =>
        if reg.None? || reg.value.name !in offs { return None; }
        if offs[reg.value.name] > 0xffff || reg.value.size > 0xffff { return None; }
        return Some(RegisterNode(offs[reg.value.name], reg.value.size));
      case Ptr(Const(c)) =>
        if c.None? || c.value.bits > 64 || c.value.value >= TWO64 { return None; }
        return Some(ConstantNode(c.value.value % 0x1_0000_0000, c.value.value / 0x1_0000_0000, c.value.bits));
      case Ptr(Name(name)) =>
        if name == "" || name !in offs || offs[name] > 0xffff { return None; }
        return Some(RegisterNode(offs[name], NameSize(name)));
    }

    method AppendChild(e: MaybeExpr) returns (index: Option<nat>)
      modifies this`expressions
      ensures var a := FlattenChild(FlattenTree(e, offs, old(expressions)));
        && (index.Some? <==> a.Some?)
        && (a.Some? ==> expressions == a.value && index.value == |a.value| - 1)
      decreases e, 2
    {
      var child := ConvertExpression(e);
      if child.None? || |expressions| >= NO_CHILD { return None; }
      index := Some(|expressions|);
      expressions := expressions + [child.value];
    }

    method ConvertOperand(op: Operand) returns (r: Option<MetaOperand>)
      modifies this`expressions
      ensures var c := ConvertOne(op, offs, old(expressions));
        && (r.Some? <==> c.Some?)
        && (c.Some? ==> r.value == c.value.operand && expressions == c.value.nodes)
    {
      match op.payload
      case Expression(form, expr) =>
        var root := ConvertExpression(expr);
        if root.None? { return None; }
        return Some(MetaOperand(op.size % 0x10000, op.action, ExpressionValue(form, root.value)));
      case _ =>
        var v := ConvertPayload(op.payload);
        if v.None? { return None; }
        return Some(MetaOperand(op.size % 0x10000, op.action, v.value));
    }

    method ConvertOperands(ops: seq<Operand>) returns (ok: bool)
      modifies this
      ensures ok <==> ConvertAll(ops, offs).Some?
      ensures ok ==> ConvertAll(ops, offs) == Some(Tables(metadata, expressions))
    {
      metadata, expressions := [], [];
      for i := 0 to |ops|
        invariant ConvertAll(ops[..i], offs) == Some(Tables(metadata, expressions))
      {
        assert ops[..i + 1][..i] == ops[..i];
        var converted := ConvertOperand(ops[i]);
        if converted.None? {
          ConvertFails(ops, offs, i + 1);
          return false;
        }
        metadata := metadata + [converted.value];
      }
      assert ops[..|ops|] == ops;
      ok := true;
    }
  }

  // A failing prefix fails the whole list.
  lemma {:induction false} ConvertFails(ops: seq<Operand>, offs: Offsets, i: nat)
    requires i <= |ops| && ConvertAll(ops[..i], offs).None?
    ensures ConvertAll(ops, offs).None?
    decreases |ops|
  {
    if i == |ops| {
      assert ops[..i] == ops;
    } else {
      assert ops[..|ops| - 1][..i] == ops[..i];
      ConvertFails(ops[..|ops| - 1], offs, i);
    }
  }
}
