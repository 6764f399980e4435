/**
 What shift-register and address operands denote on a CPU state, both as the opcode engine holds them
 (src/OpcodeEngine.cpp) and after conversion to metadata (src/InterpMetaData.cpp).
 */
module OperandMeaning {
  import opened Words
  import opened Operands
  import opened Metadata
  import opened Flatten
  import opened OperandArithmetic

  // Neither evaluator looks at the two flags.
  function ShiftOperand(action: nat, n: nat, reg: RegRef, s: nat, e: nat, flags: (bool, bool), shift: Shift,
                        extend: Extend): Operand {
    Operand(action, n, ShiftRegister(reg, s, e, flags.0, flags.1, shift, extend))
  }

  // The register's own bits.
  function RegBits(reg: RegRef, cpu: Cpu): nat { LoadReg(cpu, reg.offset, reg.size) % Pow2(reg.size) }

  // Without an extension the operand is the register, shifted or rotated on n bits.
  lemma ShiftOperandExact(action: nat, n: nat, reg: RegRef, s: nat, e: nat, flags: (bool, bool), shift: Shift,
                          pointer: bool, offs: Offsets, cpu: Cpu)
    requires (n == 32 || n == 64) && reg.size <= n && s < n
    ensures EvalOperand(ShiftOperand(action, n, reg, s, e, flags, shift, NoExtend), pointer, offs, cpu)
         == Some(Shifted(shift, RegBits(reg, cpu), s, n))
  {
    OperandValue(action, n, reg, s, e, flags, shift, NoExtend, pointer, offs, cpu);
    LoadRegBound(cpu, reg.offset, reg.size);
    LoadRegFits(cpu, reg.offset, reg.size, n);
    ShiftRegisterExact(LoadReg(cpu, reg.offset, reg.size), reg.size, n, shift, s, e);
  }

  // With one, it is extend-then-shift modulo 2^n; for registers of whole bytes that needs no cases.
  lemma ExtendOperandExact(action: nat, n: nat, reg: RegRef, s: nat, e: nat, flags: (bool, bool), shift: Shift,
                           extend: Extend, pointer: bool, offs: Offsets, cpu: Cpu)
    requires (n == 32 || n == 64) && reg.size <= n && s < n
    requires extend != NoExtend && (shift == LeftWithZeroes || (shift == NoShift && s == 0))
    ensures EvalOperand(ShiftOperand(action, n, reg, s, e, flags, shift, extend), pointer, offs, cpu)
         == Some(ExtendedThenShifted(extend, reg, n, s, e, cpu))
    ensures reg.size % 8 == 0 ==>
      ExtendedThenShifted(extend, reg, n, s, e, cpu)
        == (Extended(extend, LoadReg(cpu, reg.offset, reg.size) % Pow2(e), e) * Pow2(s)) % Pow2(n)
  {
    OperandValue(action, n, reg, s, e, flags, shift, extend, pointer, offs, cpu);
    LoadRegFits(cpu, reg.offset, reg.size, n);
    ExtendAnyRegister(LoadReg(cpu, reg.offset, reg.size), reg.size, n, extend, shift, s, e);
    if reg.size % 8 == 0 {
      LoadRegFits(cpu, reg.offset, reg.size, reg.size);
      ExtendThenShift(LoadReg(cpu, reg.offset, reg.size), reg.size, n, extend, shift, s, e);
    }
  }

  lemma OperandValue(action: nat, n: nat, reg: RegRef, s: nat, e: nat, flags: (bool, bool), shift: Shift,
                     extend: Extend, pointer: bool, offs: Offsets, cpu: Cpu)
    ensures EvalOperand(ShiftOperand(action, n, reg, s, e, flags, shift, extend), pointer, offs, cpu)
         == ShiftValue(LoadReg(cpu, reg.offset, reg.size), reg.size, n, shift, extend, s, e)
  {
  }

  function ExtendedThenShifted(extend: Extend, reg: RegRef, n: nat, s: nat, e: nat, cpu: Cpu): int {
    (Extracted(extend, LoadReg(cpu, reg.offset, reg.size), reg.size, n, e) * Pow2(s)) % Pow2(n)
  }

  // The converted operand in any later node array.
  ghost predicate Denotes(op: Operand, offs: Offsets, nodes: seq<Node>, later: seq<Node>, pointer: bool, cpu: Cpu,
                          v: int)
    requires Closed(later) && !op.payload.Expression? && ConvertOne(op, offs, nodes).Some?
  {
    var c := ConvertOne(op, offs, nodes).value.operand;
    RootBelow(c, later) && EvalMeta(c, pointer, later, cpu) == Some(v)
  }

  // The same values after conversion.
  lemma ConvertedShiftExact(action: nat, n: nat, reg: RegRef, s: nat, e: nat, flags: (bool, bool), shift: Shift,
                            extend: Extend, pointer: bool, offs: Offsets, nodes: seq<Node>, later: seq<Node>,
                            cpu: Cpu)
    requires (n == 32 || n == 64) && reg.size <= n && s < n && Closed(later)
    requires ConvertOne(ShiftOperand(action, n, reg, s, e, flags, shift, extend), offs, nodes).Some?
    ensures extend == NoExtend ==>
      Denotes(ShiftOperand(action, n, reg, s, e, flags, shift, extend), offs, nodes, later, pointer, cpu,
              Shifted(shift, RegBits(reg, cpu), s, n))
    ensures extend != NoExtend && (shift == LeftWithZeroes || (shift == NoShift && s == 0)) ==>
      Denotes(ShiftOperand(action, n, reg, s, e, flags, shift, extend), offs, nodes, later, pointer, cpu,
              ExtendedThenShifted(extend, reg, n, s, e, cpu))
  {
    ConvertPlainMeaning(ShiftOperand(action, n, reg, s, e, flags, shift, extend), offs, nodes, later, pointer, cpu);
    if extend == NoExtend {
      ShiftOperandExact(action, n, reg, s, e, flags, shift, pointer, offs, cpu);
    } else if shift == LeftWithZeroes || (shift == NoShift && s == 0) {
      ExtendOperandExact(action, n, reg, s, e, flags, shift, extend, pointer, offs, cpu);
    }
  }

  // An address operand after conversion: segment + base + index * scale + displacement.
  lemma ConvertedAddressExact(action: nat, size: nat, segment: RegRef, base: RegRef, index: RegRef, scale: int,
                              displacement: int,
                              addressSize: nat, kind: nat, pointer: bool, offs: Offsets, nodes: seq<Node>,
                              later: seq<Node>, cpu: Cpu)
    requires size < 0x10000 && -TWO63 < displacement < TWO63 && Closed(later)
    requires ConvertOne(Operand(action, size, Address(segment, base, index, scale, displacement, addressSize, kind)),
                        offs, nodes).Some?
    ensures Denotes(Operand(action, size, Address(segment, base, index, scale, displacement, addressSize, kind)), offs,
                    nodes, later, pointer, cpu,
      (WordOrZero(segment, cpu) + WordOrZero(base, cpu) + WordOrZero(index, cpu) * scale + displacement)
      % Pow2(if addressSize < 64 then addressSize else 64))
  {
    var op := Operand(action, size, Address(segment, base, index, scale, displacement, addressSize, kind));
    ConvertPlainMeaning(op, offs, nodes, later, pointer, cpu);
    AddressOperandExact(action, size, segment, base, index, scale, displacement, addressSize, kind, pointer, offs, cpu);
  }
}
