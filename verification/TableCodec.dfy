/**
 The fixed-size records of src/IMetaData.h as bytes: 12-byte expression nodes and 48-byte operands,
 unions laid over one another and told apart by their kind byte.
 */
module TableCodec {
  import opened Words
  import opened Bytes
  import opened Operands
  import opened Metadata

  // ---- expression nodes: an 8-byte payload, then kind, opcode, width and a reserved byte ----

  function NodeLayout(): seq<nat> { [8, 1, 1, 1, 1] }

  function NodeFields(n: Node): (v: seq<nat>)
    ensures |v| == 5
  {
    match n
    case Operation(opcode, lhs, rhs, width) => [lhs + 0x1_0000_0000 * rhs, 1, opcode, width, 0]
    case RegisterNode(offset, size) => [offset + 0x1_0000 * size, 2, 0, 0, 0]
    case ConstantNode(low, high, width) => [low + 0x1_0000_0000 * high, 3, 0, width, 0]
  }

  function NodeFrom(v: seq<nat>): Option<Node>
    requires |v| == 5
  {
    if v[1] == 1 then Some(Operation(v[2], v[0] % 0x1_0000_0000, v[0] / 0x1_0000_0000, v[3]))
    else if v[1] == 2 then Some(RegisterNode(v[0] % 0x1_0000, v[0] / 0x1_0000 % 0x1_0000))
    else if v[1] == 3 then Some(ConstantNode(v[0] % 0x1_0000_0000, v[0] / 0x1_0000_0000, v[3]))
    else None
  }

  predicate NodeFits(n: Node) {
    match n
    case Operation(opcode, lhs, rhs, width) => opcode <= 255 && lhs <= NO_CHILD && rhs <= NO_CHILD && width <= 255
    case RegisterNode(offset, size) => offset <= 0xffff && size <= 0xffff
    case ConstantNode(low, high, width) => low <= 0xffff_ffff && high <= 0xffff_ffff && width <= 255
  }

  function NodeBytes(n: Node): (s: seq<Byte>) { Pack(NodeLayout(), NodeFields(n)) }

  function ReadNode(s: seq<Byte>): Option<Node>
    requires |s| >= 12
  { NodeFrom(Unpack(NodeLayout(), s)) }

  lemma Halves32(lo: nat, hi: nat)
    requires lo < 0x1_0000_0000 && hi < 0x1_0000_0000
    ensures var x := lo + 0x1_0000_0000 * hi; x % 0x1_0000_0000 == lo && x / 0x1_0000_0000 == hi && x < TWO64
  {
  }

  lemma Halves16(lo: nat, hi: nat)
    requires lo < 0x1_0000 && hi < 0x1_0000
    ensures var x := lo + 0x1_0000 * hi; x % 0x1_0000 == lo && x / 0x1_0000 == hi && x < TWO64
  {
  }

  lemma NodePayload(n: Node)
    requires NodeFits(n)
    ensures NodeFrom(NodeFields(n)) == Some(n) && NodeFields(n)[0] < TWO64
  {
    match n
    case Operation(_, _, _, _) => OperationPayload(n);
    case RegisterNode(_, _) => RegisterPayload(n);
    case ConstantNode(_, _, _) => ConstantPayload(n);
  }

  lemma OperationPayload(n: Node)
    requires NodeFits(n) && n.Operation?
    ensures NodeFrom(NodeFields(n)) == Some(n) && NodeFields(n)[0] < TWO64
  {
    Halves32(n.lhs, n.rhs);
  }

  lemma RegisterPayload(n: Node)
    requires NodeFits(n) && n.RegisterNode?
    ensures NodeFrom(NodeFields(n)) == Some(n) && NodeFields(n)[0] < TWO64
  {
    Halves16(n.offset, n.size);
  }

  lemma ConstantPayload(n: Node)
    requires NodeFits(n) && n.ConstantNode?
    ensures NodeFrom(NodeFields(n)) == Some(n) && NodeFields(n)[0] < TWO64
  {
    Halves32(n.low, n.high);
  }

  lemma NodeFieldsFit(n: Node)
    requires NodeFits(n)
    ensures Fit(NodeLayout(), NodeFields(n)) && NodeFrom(NodeFields(n)) == Some(n)
  {
    NodePayload(n);
    FitAll(NodeLayout(), NodeFields(n));
  }

  lemma NodeRoundTrip(n: Node, rest: seq<Byte>)
    requires NodeFits(n)
    ensures |NodeBytes(n)| == 12 && ReadNode(NodeBytes(n) + rest) == Some(n)
  {
    NodeFieldsFit(n);
    PackRoundTrip(NodeLayout(), NodeFields(n), rest);
  }

  // ---- operands: size, type, action and padding, then the 40-byte value of that type ----

  function ShiftCode(s: Shift): nat {
    match s
    case NoShift => 0
    case LeftWithZeroes => 1
    case LeftWithOnes => 2
    case UnsignedRight => 3
    case SignedRight => 4
    case LeftAround => 5
    case RightAround => 6
  }

  function ShiftFrom(c: nat): Shift
  {
    if c == 1 then LeftWithZeroes else if c == 2 then LeftWithOnes else if c == 3 then UnsignedRight
    else if c == 4 then SignedRight else if c == 5 then LeftAround else if c == 6 then RightAround else NoShift
  }

  function ExtendCode(e: Extend): nat {
    match e case NoExtend => 0 case ExtendSigned => 1 case ExtendUnsigned => 2
  }

  function ExtendFrom(c: nat): Extend
  { if c == 1 then ExtendSigned else if c == 2 then ExtendUnsigned else NoExtend }

  function Flag(b: bool): nat { if b then 1 else 0 }

  // remill::Operand::Type
  function TypeByte(v: Value): nat {
    match v
    case NoValue => 0
    case RegisterValue(_) => 1
    case ShiftRegisterValue(_, _, _, _, _, _, _) => 2
    case ImmediateWord(_, _) => 3
    case AddressWord(_, _, _, _, _, _, _) => 4
    case ExpressionValue(form, _) =>
      match form case PlainExpr => 5 case RegisterExpr => 6 case ImmediateExpr => 7 case AddressExpr => 8
  }

  function FormFrom(typ: nat): ExprKind {
    if typ == 5 then PlainExpr else if typ == 6 then RegisterExpr else if typ == 7 then ImmediateExpr else AddressExpr
  }

  function ValueLayout(typ: nat): (l: seq<nat>)
    ensures Sum(l) <= 40
  {
    var l: seq<nat> :=
      if typ == 1 then [2, 2]
      else if typ == 2 then [2, 2, 1, 1, 1, 1, 1, 1]
      else if typ == 3 then [8, 1]
      else if typ == 4 then [2, 2, 2, 2, 2, 2, 4, 8, 8, 1, 1]
      else if 5 <= typ <= 8 then NodeLayout()
      else [];
    l
  }

  function ValueFields(v: Value): (f: seq<nat>)
    ensures |f| == |ValueLayout(TypeByte(v))|
  {
    match v
    case NoValue => []
    case RegisterValue(reg) => [reg.offset, reg.size]
    case ShiftRegisterValue(reg, shiftSize, extractSize, first, can, shift, extend) =>
      [reg.offset, reg.size, shiftSize, extractSize, Flag(first), Flag(can), ShiftCode(shift), ExtendCode(extend)]
    case ImmediateWord(val, isSigned) => [val, Flag(isSigned)]
    case AddressWord(s, b, i, scale, displacement, addressSize, kind) =>
      [s.offset, s.size, b.offset, b.size, i.offset, i.size, 0, scale % TWO64, displacement % TWO64, addressSize, kind]
    case ExpressionValue(_, root) => NodeFields(root)
  }

  function ValueFrom(typ: nat, f: seq<nat>): Option<Value>
    requires |f| == |ValueLayout(typ)|
  {
    if typ == 0 then Some(NoValue)
    else if typ == 1 then Some(RegisterValue(MetaReg(f[0], f[1])))
    else if typ == 2 then Some(ShiftFromFields(f))
    else if typ == 3 then Some(ImmediateWord(f[0], f[1] != 0))
    else if typ == 4 then Some(AddressFromFields(f))
    else if typ <= 8 then (match NodeFrom(f) case None => None case Some(n) => Some(ExpressionValue(FormFrom(typ), n)))
    else None
  }

  function ShiftFromFields(f: seq<nat>): Value
    requires |f| == 8
  { ShiftRegisterValue(MetaReg(f[0], f[1]), f[2], f[3], f[4] != 0, f[5] != 0, ShiftFrom(f[6]), ExtendFrom(f[7])) }

  function AddressFromFields(f: seq<nat>): Value
    requires |f| == 11
  {
    AddressWord(MetaReg(f[0], f[1]), MetaReg(f[2], f[3]), MetaReg(f[4], f[5]), Signed(f[7]), Signed(f[8]), f[9], f[10])
  }

  predicate RegFits(r: MetaReg) { r.offset <= 0xffff && r.size <= 0xffff }

  predicate IsInt64(x: int) { -TWO63 <= x < TWO63 }

  predicate ValueFits(v: Value) {
    match v
    case NoValue => true
    case RegisterValue(reg) => RegFits(reg)
    case ShiftRegisterValue(reg, shiftSize, extractSize, _, _, _,
                            _) => RegFits(reg) && shiftSize <= 255 && extractSize <= 255
    case ImmediateWord(val, _) => val < TWO64
    case AddressWord(s, b, i, scale, displacement, addressSize, kind) =>
      && RegFits(s) && RegFits(b) && RegFits(i) && IsInt64(scale) && IsInt64(displacement)
      && addressSize <= 255 && kind <= 255
    case ExpressionValue(_, root) => NodeFits(root)
  }

  lemma CodesRoundTrip(s: Shift, e: Extend)
    ensures ShiftFrom(ShiftCode(s)) == s && ShiftCode(s) <= 6
    ensures ExtendFrom(ExtendCode(e)) == e && ExtendCode(e) <= 2
  {
  }

  lemma ShiftFieldsFit(v: Value)
    requires ValueFits(v) && v.ShiftRegisterValue?
    ensures Fit(ValueLayout(2), ValueFields(v)) && ShiftFromFields(ValueFields(v)) == v
  {
    CodesRoundTrip(v.shift, v.extend);
    EightFit(v.reg, v.shiftSize, v.extractSize, Flag(v.shiftFirst), Flag(v.canShiftOpSize), ShiftCode(v.shift),
             ExtendCode(v.extend));
  }

  lemma EightFit(reg: MetaReg, a: nat, b: nat, c: nat, d: nat, e: nat, f: nat)
    requires RegFits(reg) && a <= 255 && b <= 255 && c <= 255 && d <= 255 && e <= 255 && f <= 255
    ensures Fit([2, 2, 1, 1, 1, 1, 1, 1], [reg.offset, reg.size, a, b, c, d, e, f])
  {
    FitAll([2, 2, 1, 1, 1, 1, 1, 1], [reg.offset, reg.size, a, b, c, d, e, f]);
  }

  lemma SignedField(x: int)
    requires IsInt64(x)
    ensures 0 <= x % TWO64 < TWO64 && Signed(x % TWO64) == x
  {
    if x < 0 { assert (x + TWO64) % TWO64 == x + TWO64; }
  }

  lemma AddressFieldsFit(v: Value)
    requires ValueFits(v) && v.AddressWord?
    ensures Fit(ValueLayout(4), ValueFields(v)) && AddressFromFields(ValueFields(v)) == v
  {
    SignedField(v.scale);
    SignedField(v.displacement);
    AddressWordsFit(v, v.scale % TWO64, v.displacement % TWO64);
  }

  lemma AddressWordsFit(v: Value, scale: nat, displacement: nat)
    requires ValueFits(v) && v.AddressWord? && scale < TWO64 && displacement < TWO64
    ensures Fit([2, 2, 2, 2, 2, 2, 4, 8, 8, 1, 1],
      [v.segment.offset, v.segment.size, v.base.offset, v.base.size, v.index.offset, v.index.size, 0, scale,
       displacement, v.addressSize, v.kind])
  {
    FitAll([2, 2, 2, 2, 2, 2, 4, 8, 8, 1, 1],
      [v.segment.offset, v.segment.size, v.base.offset, v.base.size, v.index.offset, v.index.size, 0, scale,
       displacement, v.addressSize, v.kind]);
  }

  lemma ValueFieldsFit(v: Value)
    requires ValueFits(v)
    ensures Fit(ValueLayout(TypeByte(v)), ValueFields(v)) && ValueFrom(TypeByte(v), ValueFields(v)) == Some(v)
  {
    match v
    case ShiftRegisterValue(_, _, _, _, _, _, _) => ShiftFieldsFit(v);
    case AddressWord(_, _, _, _, _, _, _) => AddressFieldsFit(v);
    case ExpressionValue(_, root) => NodeFieldsFit(root);
    case _ =>
        FitAll(ValueLayout(TypeByte(v)), ValueFields(v));
  }

  function ValueBytes(v: Value): (s: seq<Byte>)
    ensures |s| == 40
  { Pack(ValueLayout(TypeByte(v)), ValueFields(v)) + Zeros(40 - Sum(ValueLayout(TypeByte(v)))) }

  function OperandLayout(): seq<nat> { [2, 1, 1, 4] }

  function OperandBytes(op: MetaOperand): (s: seq<Byte>) {
    Pack(OperandLayout(), [op.size, TypeByte(op.value), op.action, 0]) + ValueBytes(op.value)
  }

  predicate OperandFits(op: MetaOperand) { op.size <= 0xffff && op.action <= 255 && ValueFits(op.value) }

  function ReadOperand(s: seq<Byte>): Option<MetaOperand>
    requires |s| >= 48
  {
    var h := Unpack(OperandLayout(), s);
    match ValueFrom(h[1], Unpack(ValueLayout(h[1]), s[8..]))
    case None => None
    case Some(v) => Some(MetaOperand(h[0], h[2], v))
  }

  lemma SplitOperand(head: seq<Byte>, body: seq<Byte>, pad: seq<Byte>, rest: seq<Byte>)
    requires |head| == 8
    ensures (head + (body + pad)) + rest == head + (body + (pad + rest))
    ensures ((head + (body + pad)) + rest)[8..] == body + (pad + rest)
  {
    AppendAssoc(head, body + pad, rest);
    AppendAssoc(body, pad, rest);
  }

  // The fixed fields in front of the value.
  lemma OperandHead(op: MetaOperand, rest: seq<Byte>)
    requires OperandFits(op)
    ensures Unpack(OperandLayout(), Pack(OperandLayout(), [op.size, TypeByte(op.value), op.action, 0]) + rest)
         == [op.size, TypeByte(op.value), op.action, 0]
  {
    FitAll(OperandLayout(), [op.size, TypeByte(op.value), op.action, 0]);
    PackRoundTrip(OperandLayout(), [op.size, TypeByte(op.value), op.action, 0], rest);
  }

  // Reading an operand whose fixed fields and value fields are known.
  lemma OperandRead(s: seq<Byte>, op: MetaOperand, t: nat, rest: seq<Byte>)
    requires |s| >= 48 && s[8..] == rest && Unpack(OperandLayout(), s) == [op.size, t, op.action, 0]
    requires ValueFrom(t, Unpack(ValueLayout(t), rest)) == Some(op.value)
    ensures ReadOperand(s) == Some(op)
  {
  }

  // The value fields behind them.
  lemma OperandBody(v: Value, t: nat, rest: seq<Byte>)
    requires ValueFits(v) && t == TypeByte(v)
    ensures |Pack(ValueLayout(t), ValueFields(v)) + rest| >= Sum(ValueLayout(t))
    ensures ValueFrom(t, Unpack(ValueLayout(t), Pack(ValueLayout(t), ValueFields(v)) + rest)) == Some(v)
  {
    ValueFieldsFit(v);
    PackRoundTrip(ValueLayout(t), ValueFields(v), rest);
  }

  // The bytes of an operand: the fixed fields, the value fields, padding.
  lemma OperandSplit(op: MetaOperand, t: nat, rest: seq<Byte>, s: seq<Byte>) returns (pad: seq<Byte>, tail: seq<Byte>)
    requires t == TypeByte(op.value) && s == OperandBytes(op) + rest
    ensures tail == Pack(ValueLayout(t), ValueFields(op.value)) + pad
    ensures |OperandBytes(op)| == 48 && |s| >= 48 && s[8..] == tail
    ensures s == Pack(OperandLayout(), [op.size, t, op.action, 0]) + tail
  {
    pad := Zeros(40 - Sum(ValueLayout(t))) + rest;
    tail := Pack(ValueLayout(t), ValueFields(op.value)) + pad;
    SplitOperand(Pack(OperandLayout(), [op.size, t, op.action, 0]), Pack(ValueLayout(t), ValueFields(op.value)),
                 Zeros(40 - Sum(ValueLayout(t))), rest);
  }

  lemma OperandRoundTrip(op: MetaOperand, rest: seq<Byte>)
    requires OperandFits(op)
    ensures |OperandBytes(op)| == 48 && ReadOperand(OperandBytes(op) + rest) == Some(op)
  {
    var t := TypeByte(op.value);
    var pad, tail := OperandSplit(op, t, rest, OperandBytes(op) + rest);
    OperandHead(op, tail);
    OperandBody(op.value, t, pad);
    OperandRead(OperandBytes(op) + rest, op, t, tail);
  }
}
