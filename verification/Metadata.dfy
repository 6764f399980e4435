/**
 The operand records of src/IMetaData.h: fixed-width operands and the flat array of expression
 nodes they share, with the evaluators of src/InterpMetaData.cpp that read them.
 */
module Metadata {
  import opened Words
  import opened Operands

  const NO_CHILD: nat := 0xffff_ffff

  datatype Node =
    | Operation(opcode: nat, lhs: nat, rhs: nat, width: nat)
    | RegisterNode(offset: nat, size: nat)
    | ConstantNode(low: nat, high: nat, width: nat)

  // Every child of the node lies below k in the array.
  predicate ChildrenBelow(n: Node, k: nat) {
    n.Operation? ==> n.lhs < k && (n.rhs == NO_CHILD || n.rhs < k)
  }

  // Children come before their parents.
  ghost predicate Closed(nodes: seq<Node>) {
    forall i :: 0 <= i < |nodes| ==> ChildrenBelow(nodes[i], i)
  }

  // LiftExpressionOperandRecRaw over the array. The recursion ends because child indices decrease.
  ghost function EvalNode(nodes: seq<Node>, k: nat, n: Node, cpu: Cpu): Option<nat>
    requires Closed(nodes) && k <= |nodes| && ChildrenBelow(n, k)
    decreases k
  {
    match n
    case Operation(opcode, lhs, rhs, width) =>
      var l := EvalNode(nodes, lhs, nodes[lhs], cpu);
      var r := if rhs == NO_CHILD then Some(0) else EvalNode(nodes, rhs, nodes[rhs], cpu);
      if l.None? || r.None? then None else Apply(opcode, width, l.value, r.value)
    case RegisterNode(offset, size) => Some(LoadReg(cpu, offset, size))
    case ConstantNode(low, high, _) => Some(high * 0x1_0000_0000 + low)
  }

  datatype MetaReg = MetaReg(offset: nat, size: nat)

  datatype Value =
    | NoValue
    | RegisterValue(reg: MetaReg)
    | ShiftRegisterValue(reg: MetaReg, shiftSize: nat, extractSize: nat, shiftFirst: bool, canShiftOpSize: bool,
                         shift: Shift, extend: Extend)
    | ImmediateWord(val: nat, isSigned: bool)
    | AddressWord(segment: MetaReg, base: MetaReg, index: MetaReg, scale: int, displacement: int, addressSize: nat,
                  kind: nat)
    | ExpressionValue(form: ExprKind, root: Node)

  datatype MetaOperand = MetaOperand(size: nat, action: nat, value: Value)

  // A register of size zero reads as zero.
  function MetaWordOrZero(reg: MetaReg, cpu: Cpu): nat {
    if reg.size == 0 then 0 else MaskToBits(LoadReg(cpu, reg.offset, reg.size), 64)
  }

  ghost predicate RootBelow(op: MetaOperand, nodes: seq<Node>) {
    op.value.ExpressionValue? ==> ChildrenBelow(op.value.root, |nodes|)
  }

  // LiftOperandRaw.
  ghost function EvalMeta(op: MetaOperand, pointer: bool, nodes: seq<Node>, cpu: Cpu): Option<nat>
    requires Closed(nodes) && RootBelow(op, nodes)
  {
    match op.value
    case NoValue => None
    case RegisterValue(reg) =>
      Some(if pointer then (cpu.base + reg.offset) % TWO64 else LoadReg(cpu, reg.offset, reg.size))
    case ShiftRegisterValue(reg, shiftSize, extractSize, _, _, shift, extend) =>
      ShiftValue(LoadReg(cpu, reg.offset, reg.size), reg.size, op.size, shift, extend, shiftSize, extractSize)
    case ImmediateWord(val, isSigned) => Some(ImmediateValue(val, isSigned, op.size))
    case AddressWord(segment, base, index, scale, displacement, addressSize, _) =>
      AddressValue(MetaWordOrZero(segment, cpu), MetaWordOrZero(base, cpu), MetaWordOrZero(index, cpu), scale,
                   displacement, addressSize)
    case ExpressionValue(_, root) => EvalNode(nodes, |nodes|, root, cpu)
  }

  // The value of a node depends neither on the bound nor on nodes appended later.
  lemma {:induction false} EvalStable(nodes: seq<Node>, nodes': seq<Node>, k: nat, k': nat, n: Node, cpu: Cpu)
    requires Closed(nodes) && Closed(nodes') && nodes <= nodes'
    requires k <= |nodes| && k' <= |nodes'| && ChildrenBelow(n, k) && ChildrenBelow(n, k')
    ensures EvalNode(nodes, k, n, cpu) == EvalNode(nodes', k', n, cpu)
    decreases k
  {
    match n {
      case Operation(_, lhs, rhs, _) =>
        EvalStable(nodes, nodes', lhs, lhs, nodes[lhs], cpu);
        if rhs != NO_CHILD {
          EvalStable(nodes, nodes', rhs, rhs, nodes[rhs], cpu);
        }
      case _ =>
    }
  }
}
