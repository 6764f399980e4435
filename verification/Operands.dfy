/**
 Remill operands as the opcode engine holds them: expression trees with nullable children, named
 registers, shift registers, immediates and addresses, and the evaluators that read their value
 from the CPU state. None stands for abort(), a null dereference or an undefined shift.
 */
module Operands {
  import opened Words

  // The CPU state: its address, and the byte at each offset.
  datatype Cpu = Cpu(base: nat, byteAt: nat -> nat)

  function LittleEndian(cpu: Cpu, offset: nat, n: nat): nat
    decreases n
  {
    if n == 0 then 0 else cpu.byteAt(offset) % 256 + 256 * LittleEndian(cpu, offset + 1, n - 1)
  }

  // A register wider than a word is passed by address.
  function LoadReg(cpu: Cpu, offset: nat, size: nat): nat {
    if (size + 7) / 8 > 8 then (cpu.base + offset) % TWO64 else LittleEndian(cpu, offset, (size + 7) / 8)
  }

  // ---- expression trees ----

  datatype RegInfo = RegInfo(name: string, size: nat)
  datatype ConstInt = ConstInt(bits: nat, value: nat)

  datatype Expr =
    | LLVMOp(opcode: nat, op1: MaybeExpr, op2: MaybeExpr, width: Option<nat>)
    | Reg(reg: Option<RegInfo>)
    | Const(literal: Option<ConstInt>)
    | Name(name: string)
  datatype MaybeExpr = Null | Ptr(e: Expr)

  type Offsets = map<string, nat>

  // llvm::Instruction opcode numbers.
  const ADD := 13
  const SUB := 15
  const MUL := 17
  const UREM := 22
  const SHL := 25
  const LSHR := 26
  const ASHR := 27
  const AND := 28
  const OR := 29
  const XOR := 30
  const TRUNC := 38
  const ZEXT := 39
  const SEXT := 40

  predicate IsCast(opcode: nat) { opcode == TRUNC || opcode == ZEXT || opcode == SEXT }

  function Apply(opcode: nat, width: nat, l: nat, r: nat): Option<nat> {
    if opcode == ADD then Some((l + r) % TWO64)
    else if opcode == SUB then Some((l - r) % TWO64)
    else if opcode == MUL then Some((l * r) % TWO64)
    else if opcode == SHL then (if r >= 64 then None else Some(Shl(l, r)))
    else if opcode == LSHR then (if r >= 64 then None else Some(Shr(l, r)))
    else if opcode == ASHR then (if r >= 64 then None else Some(Sar(Signed(l), r) % TWO64))
    else if opcode == ZEXT || opcode == TRUNC then Some(MaskToBits(l, width))
    else if opcode == SEXT then Some(SignExtend(l, width))
    else if opcode == AND then Some(BitAnd(l, r))
    else if opcode == OR then Some(BitOr(l, r))
    else if opcode == UREM then Some(if r != 0 then l % r else 0)
    else if opcode == XOR then Some(BitXor(l, r))
    else None
  }

  function NameSize(name: string): nat
    requires name != ""
  { if name[0] == 'w' then 32 else 64 }

  // LiftExpressionOperandRecRaw over the tree. A cast reads the width of the node's type.
  function EvalTree(e: MaybeExpr, offs: Offsets, cpu: Cpu): Option<nat> {
    match e
    case Null => None
    case Ptr(LLVMOp(opcode, op1, op2, width)) =>
      var l := EvalTree(op1, offs, cpu);
      var r := if op2.Null? then Some(0) else EvalTree(op2, offs, cpu);
      if l.None? || r.None? || (IsCast(opcode) && width.None?) then None
      else Apply(opcode, if width.Some? then width.value else 0, l.value, r.value)
    case Ptr(Reg(reg)) =>
      if reg.None? || reg.value.name !in offs then None else Some(LoadReg(cpu, offs[reg.value.name], reg.value.size))
    case Ptr(Const(c)) => if c.None? || c.value.value >= TWO64 then None else Some(c.value.value)
    case Ptr(Name(name)) =>
      if name == "" || name !in offs then None else Some(LoadReg(cpu, offs[name], NameSize(name)))
  }

  // ---- operands ----

  datatype Shift = NoShift | LeftWithZeroes | LeftWithOnes | UnsignedRight | SignedRight | LeftAround | RightAround
  datatype Extend = NoExtend | ExtendSigned | ExtendUnsigned

  datatype RegRef = RegRef(name: string, size: nat, offset: nat)

  datatype ExprKind = PlainExpr | RegisterExpr | ImmediateExpr | AddressExpr

  datatype Payload =
    | Invalid
    | Register(reg: RegRef)
    | ShiftRegister(reg: RegRef, shiftSize: nat, extractSize: nat, shiftFirst: bool, canShiftOpSize: bool,
                    shift: Shift, extend: Extend)
    | Immediate(val: nat, isSigned: bool)
    | Address(segment: RegRef, base: RegRef, index: RegRef, scale: int, displacement: int, addressSize: nat, kind: nat)
    | Expression(form: ExprKind, expr: MaybeExpr)
    | Unknown(number: nat)

  datatype Operand = Operand(action: nat, size: nat, payload: Payload)

  // The shift-register computation both evaluators spell out; regVal is the loaded register.
  function ShiftValue(regVal: nat, regSize: nat, opSize: nat, shift: Shift, extend: Extend, shiftSize: nat,
                      extractSize: nat): Option<nat> {
    var narrowed := extend != NoExtend && regSize > extractSize;
    var r0 := if narrowed then MaskToBits(regVal, extractSize) else regVal;
    var widened := extend != NoExtend && opSize > extractSize;
    var r1 := if widened && extend == ExtendSigned then SignExtend(r0, extractSize) else r0;
    var size1 := if widened then opSize else if narrowed then extractSize else regSize;
    var r2 := if size1 < opSize then MaskToBits(r1, size1) else r1;
    var shifted := DoShift(r2, opSize, shift, shiftSize);
    if shifted.None? then None
    else Some(if 64 > opSize then MaskToBits(shifted.value, opSize) else shifted.value)
  }

  // ~n + 1 on 64 bits.
  function Negate(n: nat): nat { (TWO64 - n % TWO64) % TWO64 }

  function RotateLeftCode(r: nat, bits: nat, n: nat): Option<nat> {
    var m := BitAnd(Negate(n), (bits - 1) % TWO64);
    if m >= 64 then None else Some(MaskToBits(BitOr(Shr(r, m), Shl(r, n)), bits))
  }

  function RotateRightCode(r: nat, bits: nat, n: nat): Option<nat> {
    var m := BitAnd(Negate(n), (bits - 1) % TWO64);
    if m >= 64 then None else Some(MaskToBits(BitOr(Shr(r, n), Shl(r, m)), bits))
  }

  // C++ shifts by 64 or more are undefined.
  function DoShift(r: nat, bits: nat, shift: Shift, n: nat): Option<nat> {
    if shift == NoShift then Some(r)
    else if n >= 64 then None
    else match shift
      case LeftWithZeroes => Some(MaskToBits(Shl(r, n), bits))
      case LeftWithOnes => Some(MaskToBits(BitOr(Shl(r, n), Pow2(n) - 1), bits))
      case UnsignedRight => Some(MaskToBits(Shr(r, n), bits))
      case SignedRight => Some(MaskToBits(Sar(Signed(SignExtend(r, bits)), n) % TWO64, bits))
      case LeftAround => RotateLeftCode(r, bits, n)
      case RightAround => RotateRightCode(r, bits, n)
      case NoShift => Some(r)
  }

  // The address computation, branch by branch; -displacement overflows for INT64_MIN.
  function AddressValue(segment: nat, base: nat, index: nat, scale: int, displacement: int,
                        addressSize: nat): Option<nat> {
    if displacement <= -TWO63 then None else
    var a1 := if index != 0 then MaskToBits((base + index * (scale % TWO64)) % TWO64, 64) else base;
    var a2 := if displacement == 0 then a1
              else if 0 < displacement then MaskToBits((a1 + displacement) % TWO64, 64)
              else MaskToBits((a1 - (-displacement)) % TWO64, 64);
    var a3 := if segment != 0 then MaskToBits((a2 + segment) % TWO64, 64) else a2;
    Some(if addressSize < 64 then MaskToBits(a3, addressSize) else a3)
  }

  function ImmediateValue(val: nat, isSigned: bool, bits: nat): nat {
    if isSigned then SignExtend(val, bits) else MaskToBits(val, bits)
  }

  // An unnamed register reads as zero.
  function WordOrZero(reg: RegRef, cpu: Cpu): nat {
    if reg.name == "" then 0 else MaskToBits(LoadReg(cpu, reg.offset, reg.size), 64)
  }

  function EvalOperand(op: Operand, pointer: bool, offs: Offsets, cpu: Cpu): Option<nat> {
    match op.payload
    case Invalid => None
    case Unknown(_) => None
    case Register(reg) =>
      Some(if pointer then (cpu.base + reg.offset) % TWO64 else LoadReg(cpu, reg.offset, reg.size))
    case ShiftRegister(reg, shiftSize, extractSize, _, _, shift, extend) =>
      ShiftValue(LoadReg(cpu, reg.offset, reg.size), reg.size, op.size, shift, extend, shiftSize, extractSize)
    case Immediate(val, isSigned) => Some(ImmediateValue(val, isSigned, op.size))
    case Address(segment, base, index, scale, displacement, addressSize, _) =>
      AddressValue(WordOrZero(segment, cpu), WordOrZero(base, cpu), WordOrZero(index, cpu), scale, displacement,
                   addressSize)
    case Expression(_, expr) => EvalTree(expr, offs, cpu)
  }
}
