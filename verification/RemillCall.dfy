/**
 Interpreting a Remill handler: OpcodeHandler::interpRemill of src/OpcodeEngine.cpp on the engine's own
 operands, InterpMetaData::interpRemill of src/InterpMetaData.cpp on the metadata file. For every
 instruction both call the same implementation with the same parameters and the same next PC.
 */
module RemillCall {
  import opened Words
  import opened Bytes
  import opened Operands
  import opened Metadata
  import opened Flatten
  import opened HandlerRecord
  import opened HandlerSection
  import opened MetadataFile

  // The call an interpreter makes, once the next PC is in its register.
  datatype Call = Call(impl: int, next: nat, params: seq<nat>)

  // memory, CPU state, operands; the switch over the number of parameters ends at 15.
  function Params(values: Option<seq<nat>>, cpu: Cpu): Option<seq<nat>> {
    if values.None? || |values.value| > 13 then None else Some([0, cpu.base] + values.value)
  }

  function MakeCall(impl: int, next: nat, params: Option<seq<nat>>): Option<Call> {
    if params.None? then None else Some(Call(impl, next, params.value))
  }

  function Append(v: Option<nat>, rest: Option<seq<nat>>): Option<seq<nat>> {
    if v.None? || rest.None? then None else Some([v.value] + rest.value)
  }

  // ---- from the engine's operands ----

  function EngineArg(ops: seq<Operand>, a: Arg, offs: Offsets, cpu: Cpu): Option<nat> {
    if a.index < |ops| then EvalOperand(ops[a.index], a.pointer, offs, cpu) else None
  }

  function EngineArgs(ops: seq<Operand>, args: seq<Arg>, offs: Offsets, cpu: Cpu): Option<seq<nat>> {
    if args == [] then Some([]) else Append(EngineArg(ops, args[0], offs, cpu), EngineArgs(ops, args[1..], offs, cpu))
  }

  // SetNextPC comes first: state is the CPU state for each value of that register.
  function EngineCall(h: Handler, ops: seq<Operand>, offs: Offsets, pc: nat, state: nat -> Cpu): Option<Call> {
    var next := (pc + h.oplen) % TWO64;
    MakeCall(h.impl, next, Params(EngineArgs(ops, h.args, offs, state(next)), state(next)))
  }

  // The loop that fills the parameter array.
  method InterpRemill(h: Handler, ops: seq<Operand>, offs: Offsets, pc: nat, state: nat -> Cpu)
    returns (call: Option<Call>)
    ensures call == EngineCall(h, ops, offs, pc, state)
  {
    var next := (pc + h.oplen) % TWO64;
    var cpu := state(next);
    var values: seq<nat> := [];
    BehindNothing(EngineArgs(ops, h.args, offs, cpu));
    assert h.args[0..] == h.args;
    for i := 0 to |h.args|
      invariant |values| == i
      invariant EngineArgs(ops, h.args, offs, cpu) == Behind(values, EngineArgs(ops, h.args[i..], offs, cpu))
    {
      var v := EngineArg(ops, h.args[i], offs, cpu);
      assert h.args[i..][1..] == h.args[i + 1..];
      if v.None? { return None; }
      BehindOne(values, v.value, EngineArgs(ops, h.args[i + 1..], offs, cpu));
      values := values + [v.value];
    }
    assert values + [] == values;
    call := MakeCall(h.impl, next, Params(Some(values), cpu));
  }

  function Behind(front: seq<nat>, rest: Option<seq<nat>>): Option<seq<nat>> {
    if rest.None? then None else Some(front + rest.value)
  }

  lemma BehindNothing(rest: Option<seq<nat>>)
    ensures Behind([], rest) == rest
  {
    if rest.Some? { assert [] + rest.value == rest.value; }
  }

  lemma BehindOne(front: seq<nat>, v: nat, rest: Option<seq<nat>>)
    ensures Behind(front, Append(Some(v), rest)) == Behind(front + [v], rest)
  {
    if rest.Some? { assert front + ([v] + rest.value) == (front + [v]) + rest.value; }
  }

  // ---- from the file ----

  ghost function FileArg(data: seq<Byte>, nodes: seq<Node>, a: Arg, cpu: Cpu): Option<nat>
    requires Closed(nodes)
  {
    var op := OperandIn(data, a.index);
    if op.None? || !RootBelow(op.value, nodes) then None else EvalMeta(op.value, a.pointer, nodes, cpu)
  }

  ghost function FileArgs(data: seq<Byte>, nodes: seq<Node>, args: seq<Arg>, cpu: Cpu): Option<seq<nat>>
    requires Closed(nodes)
  {
    if args == [] then Some([]) else Append(FileArg(data, nodes, args[0], cpu), FileArgs(data, nodes, args[1..], cpu))
  }

  // s is the file from the handler pointer on, impls the table of implementations.
  ghost function FileCall(data: seq<Byte>, s: seq<Byte>, impls: seq<int>, nodes: seq<Node>, pc: nat,
                          state: nat -> Cpu): Option<Call>
    requires Closed(nodes) && |s| >= 4
  {
    var v := ReadHead(s);
    var next := (pc + v.oplen) % TWO64;
    if v.typ != TypeCode(Remill) || v.impl >= |impls| || OperandAt(s) > |s| then None else
    var args := ReadArgs(s[OperandAt(s)..], v.oprnum);
    if args.None? then None
    else MakeCall(impls[v.impl], next, Params(FileArgs(data, nodes, args.value, state(next)), state(next)))
  }

  // ---- the arguments agree ----

  function FilledAll(ops: seq<Operand>): (r: seq<Operand>)
    ensures |r| == |ops|
  { seq(|ops|, i requires 0 <= i < |ops| => FilledOperand(ops[i])) }

  // The engine numbers operands as it stores them.
  ghost predicate InTable(args: seq<Arg>, n: nat) { forall a :: a in args ==> a.index < n }

  ghost predicate AllTyped(args: seq<Arg>, ops: seq<Operand>)
    requires InTable(args, |ops|)
  { forall a :: a in args ==> OperandTyped(ops[a.index]) }

  // Operand j of the file owes to operand j of the engine what conversion promises.
  ghost predicate EntryAgrees(data: seq<Byte>, ops: seq<Operand>, offs: Offsets, nodes: seq<Node>, j: nat,
                              pointer: bool, cpu: Cpu) {
    j < |ops| && OperandIn(data, j).Some? && Agrees(ops[j], offs, OperandIn(data, j).value, nodes, pointer, cpu)
  }

  ghost predicate TableAgrees(data: seq<Byte>, ops: seq<Operand>, offs: Offsets, nodes: seq<Node>, cpu: Cpu) {
    Closed(nodes) && forall j: nat, pointer :: j < |ops| ==> EntryAgrees(data, ops, offs, nodes, j, pointer, cpu)
  }

  /**
   What the file yields is what the engine yields once missing types are filled in; it is what the
   engine yields if and only if all types are there or the file yields a fault.
   */
  ghost predicate SameYield<T>(engine: Option<T>, filled: Option<T>, file: Option<T>, typed: bool) {
    file == filled && (file == engine <==> typed || filled.None?) && (engine.Some? ==> typed)
  }

  lemma ArgAgrees(data: seq<Byte>, ops: seq<Operand>, offs: Offsets, nodes: seq<Node>, a: Arg, cpu: Cpu)
    requires TableAgrees(data, ops, offs, nodes, cpu) && a.index < |ops|
    ensures SameYield(EngineArg(ops, a, offs, cpu), EngineArg(FilledAll(ops), a, offs, cpu),
                      FileArg(data, nodes, a, cpu), OperandTyped(ops[a.index]))
  {
    assert EntryAgrees(data, ops, offs, nodes, a.index, a.pointer, cpu);
  }

  lemma AppendYields(v: Option<nat>, v': Option<nat>, u: Option<nat>, t: bool, rest: Option<seq<nat>>,
                     rest': Option<seq<nat>>, r: Option<seq<nat>>, ts: bool)
    requires SameYield(v, v', u, t) && SameYield(rest, rest', r, ts)
    ensures SameYield(Append(v, rest), Append(v', rest'), Append(u, r), t && ts)
  {
  }

  lemma {:induction false} ArgsAgree(data: seq<Byte>, ops: seq<Operand>, offs: Offsets, nodes: seq<Node>,
                                     args: seq<Arg>, cpu: Cpu)
    requires TableAgrees(data, ops, offs, nodes, cpu) && InTable(args, |ops|)
    ensures SameYield(EngineArgs(ops, args, offs, cpu), EngineArgs(FilledAll(ops), args, offs, cpu),
                      FileArgs(data, nodes, args, cpu), AllTyped(args, ops))
  {
    if args != [] {
      var (a, rest) := (args[0], args[1..]);
      assert forall x :: x in args <==> x == a || x in rest;
      ArgAgrees(data, ops, offs, nodes, a, cpu);
      ArgsAgree(data, ops, offs, nodes, rest, cpu);
      AppendYields(EngineArg(ops, a, offs, cpu), EngineArg(FilledAll(ops), a, offs, cpu), FileArg(data, nodes, a, cpu),
                   OperandTyped(ops[a.index]), EngineArgs(ops, rest, offs, cpu),
                   EngineArgs(FilledAll(ops), rest, offs, cpu), FileArgs(data, nodes, rest, cpu), AllTyped(rest, ops));
    }
  }

  // ---- the calls agree ----

  lemma CallYields(values: Option<seq<nat>>, filled: Option<seq<nat>>, file: Option<seq<nat>>, typed: bool, impl: int,
                   next: nat, cpu: Cpu)
    requires SameYield(values, filled, file, typed)
    ensures SameYield(MakeCall(impl, next, Params(values, cpu)), MakeCall(impl, next, Params(filled, cpu)),
                      MakeCall(impl, next, Params(file, cpu)), typed)
  {
  }

  // Every operand and node the file yields is right, on every CPU state.
  lemma FileTableAgrees(img: Image, p: Parts, cpu: Cpu)
    requires InTypes(img) && PartsOf(img, p)
    ensures TableAgrees(FileFrom(img, p), img.ops, img.offs, p.tables.nodes, cpu)
  {
    PartsFit(img, p);
    forall j: nat, pointer | j < |img.ops|
      ensures EntryAgrees(FileFrom(img, p), img.ops, img.offs, p.tables.nodes, j, pointer, cpu)
    {
      ImageMeaning(img, p, j, pointer, cpu);
      TablesRead(img, p, j);
    }
  }

  // The calls made for handler h: from the file at s, from the engine, and the types that must be there.
  ghost predicate CallsAlike(h: Handler, ops: seq<Operand>, offs: Offsets, data: seq<Byte>, s: seq<Byte>,
                             impls: seq<int>, nodes: seq<Node>, pc: nat, state: nat -> Cpu) {
    && |s| >= 4 && Closed(nodes) && InTable(h.args, |ops|)
    && SameYield(EngineCall(h, ops, offs, pc, state), EngineCall(h, FilledAll(ops), offs, pc, state),
                 FileCall(data, s, impls, nodes, pc, state), AllTyped(h.args, ops))
  }

  // The file's call is the engine's once it is made from the handler's arguments.
  lemma CallAgrees(data: seq<Byte>, s: seq<Byte>, h: Handler, impls: seq<int>, ops: seq<Operand>, offs: Offsets,
                   nodes: seq<Node>, pc: nat, next: nat, cpu: Cpu, state: nat -> Cpu)
    requires next == (pc + h.oplen) % TWO64 && cpu == state(next) && |s| >= 4
    requires InTable(h.args, |ops|) && TableAgrees(data, ops, offs, nodes, cpu)
    requires FileCall(data, s, impls, nodes, pc, state)
          == MakeCall(h.impl, next, Params(FileArgs(data, nodes, h.args, cpu), cpu))
    ensures CallsAlike(h, ops, offs, data, s, impls, nodes, pc, state)
  {
    ArgsAgree(data, ops, offs, nodes, h.args, cpu);
    CallYields(EngineArgs(ops, h.args, offs, cpu), EngineArgs(FilledAll(ops), h.args, offs, cpu),
               FileArgs(data, nodes, h.args, cpu), AllTyped(h.args, ops), h.impl, next, cpu);
  }

  // At a record of handler h the file makes its call from h's arguments.
  lemma RecordCall(data: seq<Byte>, s: seq<Byte>, h: Handler, field: nat, impls: seq<int>, nodes: seq<Node>, pc: nat,
                   next: nat, cpu: Cpu, state: nat -> Cpu)
    requires Reads(s, h, field) && h.typ.Remill? && field < |impls| && impls[field] == h.impl && Closed(nodes)
    requires next == (pc + h.oplen) % TWO64 && cpu == state(next)
    ensures FileCall(data, s, impls, nodes, pc, state)
         == MakeCall(h.impl, next, Params(FileArgs(data, nodes, h.args, cpu), cpu))
  {
  }

  // Instruction k has a Remill handler, whose operands are in the engine's table.
  ghost predicate HasRemill(img: Image, k: nat) {
    && k < |img.insns| && img.insns[k].handler < |img.handlers|
    && img.handlers[img.insns[k].handler].typ.Remill? && InTable(img.handlers[img.insns[k].handler].args, |img.ops|)
  }

  // Following such an instruction leads to its handler's record, whose field is its implementation's index.
  lemma FollowRemill(img: Image, p: Parts, k: nat, h: Handler) returns (insn: InsnMeta, s: seq<Byte>)
    requires InTypes(img) && PartsOf(img, p) && HasRemill(img, k) && h == img.handlers[img.insns[k].handler]
    ensures InsnIn(FileFrom(img, p), k) == Some(insn) && HandlerIn(FileFrom(img, p), insn) == Some(s)
    ensures var field := FindImpl(img.impls, h.impl);
      Reads(s, h, field) && field < |img.impls| && img.impls[field] == h.impl
  {
    FollowInstruction(img, p, k);
    insn := p.insns[k];
    s := HandlerIn(FileFrom(img, p), insn).value;
  }

  /**
   For every instruction with a Remill handler, every PC and every CPU state: following it through the
   file, a reader makes the call the engine makes (implementation, next PC and all parameters), if and
   only if the casts of its operands have their types or the file yields a fault.
   */
  lemma InterpretsAlike(img: Image, p: Parts, k: nat, pc: nat, state: nat -> Cpu)
    returns (insn: InsnMeta, s: seq<Byte>, nodes: seq<Node>)
    requires InTypes(img) && PartsOf(img, p) && HasRemill(img, k)
    ensures InsnIn(FileFrom(img, p), k) == Some(insn) && HandlerIn(FileFrom(img, p), insn) == Some(s)
    ensures NodesRead(FileFrom(img, p), nodes)
    ensures CallsAlike(img.handlers[img.insns[k].handler], img.ops, img.offs, FileFrom(img, p), s, img.impls, nodes, pc,
                       state)
  {
    var h := img.handlers[img.insns[k].handler];
    var next := (pc + h.oplen) % TWO64;
    insn, s := FollowRemill(img, p, k, h);
    nodes := p.tables.nodes;
    NodesReadBack(img, p);
    FileTableAgrees(img, p, state(next));
    RecordCall(FileFrom(img, p), s, h, FindImpl(img.impls, h.impl), img.impls, nodes, pc, next, state(next), state);
    CallAgrees(FileFrom(img, p), s, h, img.impls, img.ops, img.offs, nodes, pc, next, state(next), state);
  }
}
