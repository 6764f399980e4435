/**
 One handler record: PreEncoder::serializeHandler of src/PreEncoder.cpp writes it, the accessors of
 src/IMetaData.h read it back, and the walk in PreEncoder::dump recomputes its size.
 */
module HandlerRecord {
  import opened Words
  import opened Bytes

  datatype HandlerType = Remill | MCInst | Dynamic | Prebuilt | PrebuiltMapped

  function TypeCode(t: HandlerType): nat {
    match t case Remill => 0 case MCInst => 1 case Dynamic => 2 case Prebuilt => 3 case PrebuiltMapped => 4
  }

  datatype Arg = Arg(index: nat, pointer: bool)

  // An opcode handler as the engine made it: opcode is the zero-padded key of `width` bytes, impl
  // the address of its implementation and code the implsize bytes found there.
  datatype Handler = Handler(width: nat, opcode: seq<Byte>, oplen: nat, typ: HandlerType,
                             args: seq<Arg>, impl: int, code: seq<Byte>)

  predicate WellFormed(h: Handler) {
    && |h.opcode| == h.width && (h.width == 1 || h.width == 2 || h.width == 4 || h.width == 8 || h.width == 16)
    && |h.code| < 0x10000
  }

  const NO_IMPL: nat := 0xffff

  // ---- the writer ----

  function Align4(n: nat): nat { (n + 3) / 4 * 4 }

  // The first implementation with the handler's address.
  function FindImpl(impls: seq<int>, impl: int): (i: nat)
    ensures i <= |impls|
    ensures forall k :: 0 <= k < i ==> impls[k] != impl
    ensures i < |impls| ==> impls[i] == impl
  {
    if impls == [] then 0 else if impls[0] == impl then 0 else
    var i := FindImpl(impls[1..], impl);
    assert forall k :: 0 < k < i + 1 ==> impls[k] == impls[1..][k - 1];
    1 + i
  }

  // The implementation field; dyn counts the dynamic handlers before this one.
  function ImplField(h: Handler, aot: bool, impls: seq<int>, dyn: nat): Option<nat> {
    match h.typ
    case Remill =>
      var i := FindImpl(impls, h.impl);
      if i == |impls| || i >= NO_IMPL then None else Some(i)
    case MCInst => if |h.args| != 1 || h.args[0].index >= NO_IMPL then None else Some(h.args[0].index)
    case Dynamic =>
      if aot then (if |h.code| != 0 && h.impl == 0 then None else Some(|h.code|))
      else if dyn >= NO_IMPL then None else Some(dyn)
    case _ => None
  }

  // Only Remill handlers carry operands.
  function Operands(h: Handler): seq<Arg> { if h.typ.Remill? then h.args else [] }

  function NextDyn(h: Handler, aot: bool, dyn: nat): nat { if h.typ.Dynamic? && !aot then dyn + 1 else dyn }

  function ArgWord(a: Arg): nat { a.index + (if a.pointer then 0x8000 else 0) }

  function WriteArgs(args: seq<Arg>): (s: seq<Byte>)
    ensures |s| == 2 * |args|
  { if args == [] then [] else LE(ArgWord(args[0]), 2) + WriteArgs(args[1..]) }

  function Head(h: Handler, impl: nat): (s: seq<Byte>)
    ensures |s| == 4
  { LE(impl, 2) + [TypeCode(h.typ) + 16 * h.oplen] + [|Operands(h)|] }

  function PlainSize(h: Handler): nat { 4 + h.oplen + 2 * |Operands(h)| }

  function Padding(h: Handler): nat { Align4(PlainSize(h)) - PlainSize(h) }

  // Code is embedded only for dynamic handlers on targets with writable-executable pages.
  function CodeBytes(h: Handler, aot: bool): seq<Byte> { if aot && h.typ.Dynamic? then h.code else [] }

  function Tail(h: Handler, aot: bool): seq<Byte> {
    if aot then
      var code := CodeBytes(h, aot);
      Zeros(Padding(h)) + code + Zeros(Align4(Align4(PlainSize(h)) + |code|) - (Align4(PlainSize(h)) + |code|))
    else []
  }

  function Record(h: Handler, aot: bool, impl: nat): seq<Byte>
    requires h.oplen <= |h.opcode|
  { Head(h, impl) + h.opcode[..h.oplen] + WriteArgs(Operands(h)) + Tail(h, aot) }

  predicate Encodable(h: Handler) {
    h.oplen <= 15 && h.oplen <= h.width && |h.args| <= 255 && forall a :: a in Operands(h) ==> a.index <= 0x7fff
  }

  function Serialize(h: Handler, aot: bool, impls: seq<int>, dyn: nat): Option<seq<Byte>>
    requires WellFormed(h)
  {
    if !Encodable(h) || ImplField(h, aot, impls, dyn).None? then None
    else Some(Record(h, aot, ImplField(h, aot, impls, dyn).value))
  }

  // ---- the reader ----

  datatype View = View(impl: nat, typ: nat, oplen: nat, oprnum: nat)

  // The fixed fields at a handler pointer; s is memory from there on.
  function ReadHead(s: seq<Byte>): View
    requires |s| >= 4
  { View(FromLE(s[..2]), s[2] % 16, s[2] / 16, s[3]) }

  function ReadOpcode(s: seq<Byte>): Option<seq<Byte>>
    requires |s| >= 4
  {
    var v := ReadHead(s);
    if 4 + v.oplen <= |s| then Some(s[4..4 + v.oplen]) else None
  }

  // operand()
  function OperandAt(s: seq<Byte>): nat
    requires |s| >= 4
  { 4 + ReadHead(s).oplen }

  // handler(): the code pointer, straight after the operands.
  function CodeAt(s: seq<Byte>): nat
    requires |s| >= 4
  { OperandAt(s) + 2 * ReadHead(s).oprnum }

  function ReadArg(w: nat): Arg
  { Arg(w % 0x8000, w / 0x8000 == 1) }

  function ReadArgs(s: seq<Byte>, n: nat): Option<seq<Arg>>
    decreases n
  {
    if n == 0 then Some([])
    else if |s| < 2 then None
    else match ReadArgs(s[2..], n - 1)
      case None => None
      case Some(rest) => Some([ReadArg(FromLE(s[..2]))] + rest)
  }

  // ---- the round trip ----

  // One operand word read back.
  lemma ArgRoundTrip(a: Arg, s: seq<Byte>, rest: seq<Byte>)
    requires a.index <= 0x7fff && s == LE(ArgWord(a), 2) + rest
    ensures s[2..] == rest && ReadArg(FromLE(s[..2])) == a
  {
    Pow256Values();
    LERoundTrip(ArgWord(a), 2);
    assert s[..2] == LE(ArgWord(a), 2);
  }

  lemma {:induction false} ArgsRoundTrip(args: seq<Arg>, rest: seq<Byte>)
    requires forall a :: a in args ==> a.index <= 0x7fff
    ensures ReadArgs(WriteArgs(args) + rest, |args|) == Some(args)
  {
    if args != [] {
      var s, r := WriteArgs(args) + rest, WriteArgs(args[1..]) + rest;
      AppendAssoc(LE(ArgWord(args[0]), 2), WriteArgs(args[1..]), rest);
      assert args[0] in args;
      ArgRoundTrip(args[0], s, r);
      ArgsRoundTrip(args[1..], rest);
      ReadFirst(s, r, args);
    }
  }

  lemma ReadFirst(s: seq<Byte>, r: seq<Byte>, args: seq<Arg>)
    requires args != [] && |s| >= 2 && s[2..] == r && ReadArg(FromLE(s[..2])) == args[0]
    requires ReadArgs(r, |args| - 1) == Some(args[1..])
    ensures ReadArgs(s, |args|) == Some(args)
  {
    assert args == [args[0]] + args[1..];
  }

  lemma HeadRoundTrip(h: Handler, impl: nat, rest: seq<Byte>)
    requires Encodable(h) && impl < 0x10000
    ensures ReadHead(Head(h, impl) + rest) == View(impl, TypeCode(h.typ), h.oplen, |Operands(h)|)
  {
    var s := Head(h, impl) + rest;
    Pow256Values();
    LERoundTrip(impl, 2);
    assert s[..2] == LE(impl, 2);
    assert s[2] == TypeCode(h.typ) + 16 * h.oplen && s[3] == |Operands(h)|;
  }

  // What a reader finds at a pointer to the record of handler h.
  ghost predicate Reads(s: seq<Byte>, h: Handler, impl: nat) {
    && |s| >= 4 && h.oplen <= |h.opcode|
    && ReadHead(s) == View(impl, TypeCode(h.typ), h.oplen, |Operands(h)|)
    && ReadOpcode(s) == Some(h.opcode[..h.oplen])
    && OperandAt(s) <= |s| && ReadArgs(s[OperandAt(s)..], |Operands(h)|) == Some(Operands(h))
  }

  lemma RecordSlices(s: seq<Byte>, head: seq<Byte>, p: seq<Byte>, q: seq<Byte>, rest: seq<Byte>)
    requires s == head + p + q + rest && |head| == 4
    ensures s == head + (p + q + rest) && s[4..4 + |p|] == p && s[4 + |p|..] == q + rest
  {
  }

  // The parts of a record at the start of s.
  lemma RecordParts(h: Handler, aot: bool, impl: nat, s: seq<Byte>) returns (rest: seq<Byte>)
    requires h.oplen <= |h.opcode| && Record(h, aot, impl) <= s
    ensures s == Head(h, impl) + h.opcode[..h.oplen] + WriteArgs(Operands(h)) + rest
  {
    var rec, tail := Record(h, aot, impl), Tail(h, aot);
    rest := tail + s[|rec|..];
    var front := Head(h, impl) + h.opcode[..h.oplen] + WriteArgs(Operands(h));
    assert s == rec + s[|rec|..] && rec == front + tail;
  }

  // Reading a record back gives the type, opcode bytes, implementation field and operands written.
  lemma RecordRoundTrip(h: Handler, aot: bool, impl: nat, s: seq<Byte>)
    requires WellFormed(h) && Encodable(h) && impl < 0x10000
    requires Record(h, aot, impl) <= s
    ensures Reads(s, h, impl)
  {
    var rest := RecordParts(h, aot, impl, s);
    PartsRoundTrip(h, impl, s, rest);
  }

  lemma PartsRoundTrip(h: Handler, impl: nat, s: seq<Byte>, rest: seq<Byte>)
    requires h.oplen <= |h.opcode| && Encodable(h) && impl < 0x10000
    requires s == Head(h, impl) + h.opcode[..h.oplen] + WriteArgs(Operands(h)) + rest
    ensures Reads(s, h, impl)
  {
    var (p, q) := (h.opcode[..h.oplen], WriteArgs(Operands(h)));
    RecordSlices(s, Head(h, impl), p, q, rest);
    HeadRoundTrip(h, impl, p + q + rest);
    ArgsRoundTrip(Operands(h), rest);
  }

  // ---- sizes, alignment and embedded code ----

  lemma RecordSize(h: Handler, aot: bool, impl: nat)
    requires WellFormed(h) && Encodable(h)
    ensures |Record(h, aot, impl)| == if aot then Align4(Align4(PlainSize(h)) + |CodeBytes(h, aot)|) else PlainSize(h)
    ensures aot ==> |Record(h, aot, impl)| % 4 == 0
    ensures |Record(h, aot, impl)| >= 4
  {
  }

  // The size dump recomputes from the fixed fields of a record.
  function DumpSize(v: View, aot: bool): nat {
    var plain := 4 + v.oplen + (if v.typ == TypeCode(Remill) then 2 * v.oprnum else 0);
    if !aot then plain
    else
      var withCode := if v.typ == TypeCode(Dynamic) then (plain + 3) / 4 * 4 + v.impl else plain;
      (withCode + 3) / 4 * 4
  }

  lemma DumpSizeOfView(h: Handler, aot: bool, impl: nat)
    requires aot && h.typ.Dynamic? ==> impl == |h.code|
    ensures DumpSize(View(impl, TypeCode(h.typ), h.oplen, |Operands(h)|), aot)
         == if aot then Align4(Align4(PlainSize(h)) + |CodeBytes(h, aot)|) else PlainSize(h)
  {
    var (t, a) := (TypeCode(h.typ), Operands(h));
    assert t == TypeCode(Dynamic) <==> h.typ.Dynamic?;
    assert t == TypeCode(Remill) <==> h.typ.Remill?;
  }

  // dump steps over exactly the bytes the writer wrote, when both agree about embedded code.
  lemma DumpSizeExact(h: Handler, aot: bool, impls: seq<int>, dyn: nat, s: seq<Byte>)
    requires WellFormed(h) && Serialize(h, aot, impls, dyn).Some?
    requires Serialize(h, aot, impls, dyn).value <= s
    ensures |s| >= 4 && DumpSize(ReadHead(s), aot) == |Serialize(h, aot, impls, dyn).value|
  {
    var impl := ImplField(h, aot, impls, dyn).value;
    assert Serialize(h, aot, impls, dyn).value == Record(h, aot, impl);
    DumpSizeOfRecord(h, aot, impl, s);
  }

  lemma DumpSizeOfRecord(h: Handler, aot: bool, impl: nat, s: seq<Byte>)
    requires WellFormed(h) && Encodable(h) && impl < 0x10000 && Record(h, aot, impl) <= s
    requires aot && h.typ.Dynamic? ==> impl == |h.code|
    ensures |s| >= 4 && DumpSize(ReadHead(s), aot) == |Record(h, aot, impl)|
  {
    RecordRoundTrip(h, aot, impl, s);
    RecordSize(h, aot, impl);
    DumpSizeOfView(h, aot, impl);
  }

  /**
   Embedded code. The blob starts 4-aligned within its record; handler() points exactly at it if
   and only if the opcode length is a multiple of four, as it is for every ARM64 instruction.
   */
  lemma CodePlacement(h: Handler, impl: nat, s: seq<Byte>)
    requires WellFormed(h) && Encodable(h) && impl < 0x10000 && h.typ.Dynamic? && h.code != []
    requires Record(h, true, impl) <= s
    ensures Align4(PlainSize(h)) % 4 == 0 && Align4(PlainSize(h)) + |h.code| <= |s|
    ensures s[Align4(PlainSize(h))..Align4(PlainSize(h)) + |h.code|] == h.code
    ensures |s| >= 4 && (CodeAt(s) == Align4(PlainSize(h)) <==> h.oplen % 4 == 0)
  {
    RecordRoundTrip(h, true, impl, s);
    PointerExact(h.oplen);
    CodeSlice(h, impl, s);
  }

  lemma PointerExact(oplen: nat)
    ensures Align4(4 + oplen) % 4 == 0 && (4 + oplen == Align4(4 + oplen) <==> oplen % 4 == 0)
  {
  }

  lemma CodeSlice(h: Handler, impl: nat, s: seq<Byte>)
    requires WellFormed(h) && Encodable(h) && h.typ.Dynamic? && Record(h, true, impl) <= s
    ensures var a := Align4(PlainSize(h)); a + |h.code| <= |s| && s[a..a + |h.code|] == h.code
  {
    var (p, q) := (h.opcode[..h.oplen], WriteArgs(Operands(h)));
    var (a, n) := (Align4(PlainSize(h)), |h.code|);
    var after := Zeros(Align4(a + n) - (a + n));
    Middle(Head(h, impl) + p + q, Zeros(Padding(h)), h.code, after, s);
  }

  lemma Middle(front: seq<Byte>, pad: seq<Byte>, code: seq<Byte>, after: seq<Byte>, s: seq<Byte>)
    requires front + (pad + code + after) <= s
    ensures var a := |front| + |pad|; a + |code| <= |s| && s[a..a + |code|] == code
  {
    var w := front + (pad + code + after);
    assert w[|front| + |pad|..|front| + |pad| + |code|] == code;
  }
}
