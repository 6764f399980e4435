/**
 The two generator methods of src/Lifter.cpp. Each appends lines in loops over the used-register
 set, in set order, and is proved to build the program whose simulation NativeHandler establishes;
 the register searches are proved to find a stand-in exactly when one exists.
 */
module NativeGenerator {
  import opened Words
  import opened HostMachine
  import opened NativeAbi
  import opened NativeHandler

  // ---- appending to the program ----

  lemma {:induction false} SavesAppend(abi: Abi, a: seq<Register>, b: seq<Register>)
    ensures Saves(abi, a + b) == Saves(abi, a) + Saves(abi, b)
  {
    if a == [] { assert a + b == b; } else {
      assert (a + b)[1..] == a[1..] + b;
      SavesAppend(abi, a[1..], b);
    }
  }

  lemma {:induction false} LoadsAppend(abi: Abi, layout: Layout, c: Register, a: seq<Register>, b: seq<Register>)
    ensures Loads(abi, layout, c, a + b) == Loads(abi, layout, c, a) + Loads(abi, layout, c, b)
    decreases |a|
  {
    if a == [] { assert a + b == b; } else {
      assert (a + b)[1..] == a[1..] + b;
      LoadsAppend(abi, layout, c, a[1..], b);
    }
  }

  lemma {:induction false} StoresAppend(abi: Abi, layout: Layout, c: Register, a: seq<Register>, b: seq<Register>)
    ensures Stores(abi, layout, c, a + b) == Stores(abi, layout, c, a) + Stores(abi, layout, c, b)
    decreases |a|
  {
    if a == [] { assert a + b == b; } else {
      assert (a + b)[1..] == a[1..] + b;
      StoresAppend(abi, layout, c, a[1..], b);
    }
  }

  lemma {:induction false} KeepAppend(a: seq<Register>, b: seq<Register>, p: Register -> bool)
    ensures Keep(a + b, p) == Keep(a, p) + Keep(b, p)
  {
    if a == [] { assert a + b == b; } else {
      assert (a + b)[1..] == a[1..] + b;
      KeepAppend(a[1..], b, p);
    }
  }

  lemma KeepOne(r: Register, p: Register -> bool)
    ensures Keep([r], p) == if p(r) then [r] else []
  {
    assert [r][1..] == [];
  }

  lemma {:induction false} RestoresAppend(abi: Abi, a: seq<Register>, b: seq<Register>)
    ensures Restores(abi, a + b) == Restores(abi, b) + Restores(abi, a)
  {
    if a == [] { assert a + b == b; } else {
      assert (a + b)[1..] == a[1..] + b;
      RestoresAppend(abi, a[1..], b);
    }
  }

  // ---- the loops shared by both generators ----

  method EmitSaves(abi: Abi, used: seq<Register>, p: Register -> bool) returns (asm: seq<Insn>)
    ensures asm == Saves(abi, Keep(used, p))
  {
    asm := [];
    for i := 0 to |used|
      invariant asm == Saves(abi, Keep(used[..i], p))
    {
      if p(used[i]) { asm := asm + SaveLines(abi, used[i]); }
      assert used[..i + 1] == used[..i] + [used[i]];
      KeepAppend(used[..i], [used[i]], p);
      SavesAppend(abi, Keep(used[..i], p), Keep([used[i]], p));
      KeepOne(used[i], p);
      assert Saves(abi, [used[i]]) == SaveLines(abi, used[i]);
    }
    assert used[..|used|] == used;
  }

  method EmitRestores(abi: Abi, used: seq<Register>, p: Register -> bool) returns (asm: seq<Insn>)
    ensures asm == Restores(abi, Keep(used, p))
  {
    asm := [];
    for i := |used| downto 0
      invariant asm == Restores(abi, Keep(used[i..], p))
    {
      if p(used[i]) { asm := asm + RestoreLines(abi, used[i]); }
      assert used[i..] == [used[i]] + used[i + 1..];
      KeepAppend([used[i]], used[i + 1..], p);
      RestoresAppend(abi, Keep([used[i]], p), Keep(used[i + 1..], p));
      KeepOne(used[i], p);
      assert Restores(abi, [used[i]]) == RestoreLines(abi, used[i]);
    }
    assert used[0..] == used;
  }

  method EmitLoads(abi: Abi, layout: Layout, c: Register, used: seq<Register>) returns (asm: seq<Insn>)
    ensures asm == Loads(abi, layout, c, used)
  {
    asm := [];
    for i := 0 to |used|
      invariant asm == Loads(abi, layout, c, used[..i])
    {
      var r := used[i];
      if IsGpr(abi, r) {
        asm := asm + [Load(r, c, Off(layout, r))];
      } else if IsVec(abi, r) {
        asm := asm + [LoadVec(r, c, Off(layout, r))];
      }
      assert used[..i + 1] == used[..i] + [r];
      LoadsAppend(abi, layout, c, used[..i], [r]);
      assert Loads(abi, layout, c, [r]) == LoadLines(abi, layout, c, r);
    }
    assert used[..|used|] == used;
  }

  method EmitStores(abi: Abi, layout: Layout, c: Register, used: seq<Register>) returns (asm: seq<Insn>)
    ensures asm == Stores(abi, layout, c, used)
  {
    asm := [];
    for i := 0 to |used|
      invariant asm == Stores(abi, layout, c, used[..i])
    {
      var r := used[i];
      if IsGpr(abi, r) {
        asm := asm + [Store(r, c, Off(layout, r))];
      } else if IsVec(abi, r) {
        asm := asm + [StoreVec(r, c, Off(layout, r))];
      }
      assert used[..i + 1] == used[..i] + [r];
      StoresAppend(abi, layout, c, used[..i], [r]);
      assert Stores(abi, layout, c, [r]) == StoreLines(abi, layout, c, r);
    }
    assert used[..|used|] == used;
  }

  // ---- AArch64 ----

  ghost function Beyond(used: seq<Register>, from: Register): set<Register> {
    set r | r in used && from <= r
  }

  // The least register number from `from` on that is not used.
  function FirstFree(used: seq<Register>, from: Register): (r: Register)
    ensures from <= r && r !in used && forall q :: from <= q < r ==> q in used
    decreases Beyond(used, from)
  {
    if from !in used then from
    else
      assert from in Beyond(used, from) && from !in Beyond(used, from + 1);
      FirstFree(used, from + 1)
  }

  function CpuStandIn(used: seq<Register>): Register {
    if X26 !in used then X26 else FirstFree(used, X0)
  }

  method FindCpuRegister(used: seq<Register>) returns (regcpu: Register)
    ensures regcpu == CpuStandIn(used)
  {
    regcpu := if X26 !in used then X26 else X0;
    while regcpu in used
      invariant FirstFree(used, regcpu) == CpuStandIn(used)
      decreases Beyond(used, regcpu)
    {
      assert regcpu in Beyond(used, regcpu) && regcpu !in Beyond(used, regcpu + 1);
      regcpu := regcpu + 1;
    }
  }

  method NativeHandlerAArch64(layout: Layout, used: seq<Register>, code: seq<int>) returns (asm: seq<Insn>)
    ensures asm == Handler(AArch64, layout, used, CpuStandIn(used), SP, code)
  {
    var saves := EmitSaves(AArch64, used, r => Saved(AArch64, r));
    var regcpu := FindCpuRegister(used);
    var head: seq<Insn> := [];
    if regcpu != X26 { head := head + [Mov(regcpu, X26)]; }
    var loads := EmitLoads(AArch64, layout, regcpu, used);
    var stores := EmitStores(AArch64, layout, regcpu, used);
    var tail := [Raw(code)] + stores;
    if regcpu != X26 { tail := tail + [Mov(X26, regcpu)]; }
    var restores := EmitRestores(AArch64, used, r => Saved(AArch64, r));
    asm := saves + ((head + loads) + tail) + restores;
    asm := asm + (([Mov(X0, X26), Load(X1, X0, -16), Load(X2, X1, 0)] + [AddImm(X2, 4),
        Store(X2, X1, 0)] + [Mov(X1, X2)])
                  + ([AddImm(X27, 8), Mov(X2, X27), Load(X16, X27, 0)] + [Ubfx59(X16), Jump(X16)]));
    assert head == ToStandIns(AArch64, regcpu, SP);
    assert tail == [Raw(code)] + stores + FromStandIns(AArch64, regcpu, SP);
  }

  predicate InRange(q: Register) { X0 <= q <= X18 }

  // x26 itself is free, or some register below the callee-saved ones is.
  ghost predicate VolatileFree(used: seq<Register>) {
    X26 !in used || exists q :: InRange(q) && q !in used
  }

  lemma StandInExactly(used: seq<Register>)
    requires SP !in used
    ensures StandInsOk(AArch64, used, CpuStandIn(used), SP) <==> VolatileFree(used)
  {
    var c := CpuStandIn(used);
    assert InRange(c) ==> c !in used;
    if X26 in used && VolatileFree(used) {
      var q :| InRange(q) && q !in used;
      assert c <= q;
    }
  }

  // The AArch64 handler simulates the opcode and gives every callee-saved register back.
  lemma AArch64HandlerCorrect(layout: Layout, used: seq<Register>, code: seq<int>, m: Machine, op: Effect)
    requires SP !in used && VolatileFree(used)
    requires m.jump.None? && Footprint(AArch64, op, used) && WellPlaced(AArch64, layout, used, m)
    ensures
      var res := Run(Handler(AArch64, layout, used, CpuStandIn(used), SP, code), m, op);
      && res.Some? && Simulates(AArch64, layout, used, CpuStandIn(used), SP, code, op, m, res.value)
      && (forall r :: Saved(AArch64, r) && r != X27 ==> Preserved(AArch64, r, res.value.file, m.file))
  {
    StandInExactly(used);
    HandlerRuns(AArch64, layout, used, CpuStandIn(used), SP, code, m, op);
  }

  // Without a free volatile register the search lands on a callee-saved one, which the handler
  // leaves holding the CPU pointer.
  lemma AArch64HandlerClobbers(layout: Layout, used: seq<Register>, code: seq<int>, m: Machine, op: Effect)
    requires SP !in used && !VolatileFree(used)
    requires CpuStandIn(used) <= X30 && CpuStandIn(used) != X27
    requires m.jump.None? && Footprint(AArch64, op, used) && WellPlaced(AArch64, layout, used, m)
    ensures
      var res := Run(Handler(AArch64, layout, used, CpuStandIn(used), SP, code), m, op);
      && res.Some? && GuestDone(AArch64, layout, op, m, res.value)
      && SavedGpr(AArch64, CpuStandIn(used))
      && (Preserved(AArch64, CpuStandIn(used), res.value.file, m.file)
          <==> m.file.G(CpuStandIn(used)) == m.file.G(X26))
  {
    HandlerRuns(AArch64, layout, used, CpuStandIn(used), SP, code, m, op);
  }

  // With the stand-in x27 the chain is lost: x27 advances from the CPU pointer, not from its own value.
  lemma AArch64ChainLost(layout: Layout, used: seq<Register>, code: seq<int>, m: Machine, op: Effect)
    requires SP !in used && CpuStandIn(used) == X27
    requires m.jump.None? && Footprint(AArch64, op, used) && WellPlaced(AArch64, layout, used, m)
    requires 0 <= m.file.G(X26) < TWO64 - 8
    ensures
      var p := UpToAdvance(AArch64, layout, used, X27, SP, code);
      var res := Run(p, m, op);
      && p <= Handler(AArch64, layout, used, X27, SP, code)
      && res.Some? && (res.value.file.G(X27) == m.file.G(X27) + 8 <==> m.file.G(X27) == m.file.G(X26))
  {
    AdvancePrefix(AArch64, layout, used, X27, SP, code);
    ChainLost(AArch64, layout, used, SP, code, m, op);
  }

  // Where the search ends when no volatile register is free: callee-saved, x27 among them, or past the last register.
  lemma StandInCases(used: seq<Register>)
    requires !VolatileFree(used)
    ensures X19 <= CpuStandIn(used) && CpuStandIn(used) != X26
    ensures CpuStandIn(used) == X27 <==> (forall q :: X0 <= q <= X26 ==> q in used) && X27 !in used
    ensures CpuStandIn(used) > X30 <==> forall q :: X0 <= q <= X30 ==> q in used
  {
    var c := CpuStandIn(used);
    assert forall q :: InRange(q) ==> q in used;
    assert X26 in used && c == FirstFree(used, X0);
    assert InRange(c) ==> c in used;
  }

  // The least offending sets: x0 to x18 and x26, and x0 to x26.
  lemma OffendingSets()
    ensures var used := seq(X18 - X0 + 1, i => X0 + i) + [X26];
      GuestRegisters(AArch64, used) && !VolatileFree(used) && CpuStandIn(used) == X19
    ensures var used := seq(X26 - X0 + 1, i => X0 + i);
      GuestRegisters(AArch64, used) && !VolatileFree(used) && CpuStandIn(used) == X27
  {
    var a, b := seq(X18 - X0 + 1, i => X0 + i) + [X26], seq(X26 - X0 + 1, i => X0 + i);
    forall q | X0 <= q <= X18 ensures q in a { assert a[q - X0] == q; }
    forall q | X0 <= q <= X26 ensures q in b { assert b[q - X0] == q; }
    assert a[19] == X26 && forall i :: 0 <= i < |a| ==> a[i] <= X18 || a[i] == X26;
    assert forall i :: 0 <= i < |b| ==> b[i] == X0 + i;
    assert X19 !in a && X27 !in b;
  }

  function Range(lo: int, hi: int): (s: set<int>)
    ensures forall r :: r in s <==> lo <= r < hi
    ensures |s| == if lo <= hi then hi - lo else 0
    decreases hi - lo
  {
    if hi <= lo then {} else Range(lo, hi - 1) + {hi - 1}
  }

  // No instruction names more than a handful of registers; up to 18 general ones are safe and the
  // stand-in is then below the platform register x18.
  lemma FewRegistersSuffice(used: seq<Register>)
    requires |set r | r in used && X0 <= r <= X30| <= 18
    ensures VolatileFree(used) && (CpuStandIn(used) == X26 || CpuStandIn(used) < X18)
  {
    if X26 in used {
      var c := FirstFree(used, X0);
      if X18 <= c {
        SubsetSize(Range(X0, X18) + {X26}, set r | r in used && X0 <= r <= X30);
        assert false;
      }
      assert InRange(c) && c !in used;
    }
  }

  lemma SubsetSize(a: set<int>, b: set<int>)
    requires a <= b
    ensures |a| <= |b|
  {
    assert b == a + (b - a);
  }

  // ---- x86-64 ----

  // Volatile registers that may stand in for r12 and rsp; rsi and rdi are callee-saved on Windows.
  function Candidates(abi: Abi): seq<Register> {
    if abi.Windows? then [RAX, RCX, RDX, R8, R9, R10, R11]
    else [RAX, RCX, RDX, RSI, RDI, R8, R9, R10, R11]
  }

  function Unused(cands: seq<Register>, used: seq<Register>): seq<Register> { Keep(cands, r => r !in used) }

  function Free(abi: Abi, used: seq<Register>): seq<Register> { Unused(Candidates(abi), used) }

  function Needed(used: seq<Register>): nat {
    (if R12 in used then 1 else 0) + (if SP in used then 1 else 0)
  }

  function CpuPick(abi: Abi, used: seq<Register>): Register
    requires |Free(abi, used)| >= Needed(used)
  { if R12 in used then Free(abi, used)[0] else R12 }

  function SpPick(abi: Abi, used: seq<Register>): Register
    requires |Free(abi, used)| >= Needed(used)
  { if SP in used then Free(abi, used)[Needed(used) - 1] else SP }

  // One search: the next unused candidate from position k on, or None past the end of the table.
  method NextCandidate(cands: seq<Register>, used: seq<Register>, k: nat) returns (r: Option<Register>, k': nat)
    requires k <= |cands|
    ensures k <= k' <= |cands|
    ensures var rest := Unused(cands[k..], used);
      if rest == [] then r.None? else r == Some(rest[0]) && Unused(cands[k'..], used) == rest[1..]
  {
    k' := k;
    while k' < |cands|
      invariant k <= k' <= |cands|
      invariant Unused(cands[k'..], used) == Unused(cands[k..], used)
    {
      var cand := cands[k'];
      UnusedStep(cands[k'..], used);
      assert cands[k'..][1..] == cands[k' + 1..];
      k' := k' + 1;
      if cand !in used { return Some(cand), k'; }
    }
    r := None;
  }

  lemma UnusedStep(cands: seq<Register>, used: seq<Register>)
    requires cands != []
    ensures Unused(cands, used) == (if cands[0] !in used then [cands[0]] else []) + Unused(cands[1..], used)
  {
  }

  method PickStandIns(abi: Abi, used: seq<Register>) returns (c: Option<Register>, s: Option<Register>)
    ensures (c.Some? && s.Some?) <==> |Free(abi, used)| >= Needed(used)
    ensures c.Some? && s.Some? ==> c.value == CpuPick(abi, used) && s.value == SpPick(abi, used)
  {
    c, s := PickFrom(Candidates(abi), used);
  }

  method PickFrom(cands: seq<Register>, used: seq<Register>) returns (c: Option<Register>, s: Option<Register>)
    ensures (c.Some? && s.Some?) <==> |Unused(cands, used)| >= Needed(used)
    ensures c.Some? && s.Some? ==>
      && c.value == (if R12 in used then Unused(cands, used)[0] else R12)
      && s.value == (if SP in used then Unused(cands, used)[Needed(used) - 1] else SP)
  {
    var k := 0;
    assert cands[0..] == cands;
    c, s := Some(R12), Some(SP);
    if R12 in used {
      c, k := NextCandidate(cands, used, k);
      if c.None? { return; }
    }
    if SP in used {
      s, k := NextCandidate(cands, used, k);
    }
  }

  method EmitMoves(abi: Abi, regcpu: Register, regrsp: Register) returns (to: seq<Insn>, from: seq<Insn>)
    requires !abi.AArch64?
    ensures to == ToStandIns(abi, regcpu, regrsp) && from == FromStandIns(abi, regcpu, regrsp)
  {
    to, from := [], [];
    if regcpu != R12 { to, from := to + [Mov(regcpu, R12)], from + [Mov(R12, regcpu)]; }
    if regrsp != SP { to, from := to + [Mov(regrsp, SP)], from + [Mov(SP, regrsp)]; }
  }

  method EmitTailX64(abi: Abi, code: seq<int>) returns (asm: seq<Insn>)
    requires !abi.AArch64?
    ensures asm == UpdatePc(abi, |code|) + Advance(abi)
  {
    asm := ([Mov(RAX, R12), Load(RCX, RAX, -16), Load(RDX, RCX, 0)] + [AddImm(RDX, |code|), Store(RDX, RCX, 0)]
            + [Mov(ArgState(abi), RAX), Mov(ArgVmAddr(abi), RDX)])
         + ([AddImm(R13, 8), Mov(ArgInsn(abi), R13), Load(R10, R13, 0)] + [Shl5(R10), Shr5(R10), Jump(R10)]);
  }

  // Save all general registers, then all vectors; restore in the opposite order.
  method EmitFrame(abi: Abi, used: seq<Register>) returns (save: seq<Insn>, restore: seq<Insn>)
    requires !abi.AArch64?
    ensures save == Saves(abi, SavedOrder(abi, used)) && restore == Restores(abi, SavedOrder(abi, used))
  {
    var gprs := EmitSaves(abi, used, r => SavedGpr(abi, r));
    var xmms := EmitSaves(abi, used, r => SavedVec(abi, r));
    SavesAppend(abi, Keep(used, r => SavedGpr(abi, r)), Keep(used, r => SavedVec(abi, r)));
    save := gprs + xmms;
    var xmmback := EmitRestores(abi, used, r => SavedVec(abi, r));
    var gprback := EmitRestores(abi, used, r => SavedGpr(abi, r));
    RestoresAppend(abi, Keep(used, r => SavedGpr(abi, r)), Keep(used, r => SavedVec(abi, r)));
    restore := xmmback + gprback;
  }

  // None when the candidate table is exhausted, where the source reads past its end.
  method NativeHandlerX64(abi: Abi, layout: Layout, used: seq<Register>,
                          code: seq<int>) returns (asm: Option<seq<Insn>>)
    requires !abi.AArch64?
    ensures asm.Some? <==> |Free(abi, used)| >= Needed(used)
    ensures asm.Some? ==> asm.value == Handler(abi, layout, used, CpuPick(abi, used), SpPick(abi, used), code)
  {
    var save, restore := EmitFrame(abi, used);
    var cpu, rsp := PickStandIns(abi, used);
    if cpu.None? || rsp.None? { return None; }
    var to, from := EmitMoves(abi, cpu.value, rsp.value);
    var loads := EmitLoads(abi, layout, cpu.value, used);
    var stores := EmitStores(abi, layout, cpu.value, used);
    var tail := EmitTailX64(abi, code);
    asm := Some(save + ((to + loads) + ([Raw(code)] + stores + from)) + restore + tail);
  }

  lemma CandidateVolatile(abi: Abi, r: Register)
    requires !abi.AArch64? && r in Candidates(abi)
    ensures IsGpr(abi, r) && !Saved(abi, r) && r != SP && r != R12 && r != R13
  {
  }

  // The picks are distinct, volatile and outside the used set.
  lemma X64StandIns(abi: Abi, used: seq<Register>)
    requires !abi.AArch64? && |Free(abi, used)| >= Needed(used)
    ensures StandInsOk(abi, used, CpuPick(abi, used), SpPick(abi, used))
  {
    var (c, s) := (CpuPick(abi, used), SpPick(abi, used));
    if R12 in used {
      assert c in Free(abi, used) && c in Candidates(abi);
      CandidateVolatile(abi, c);
    }
    if SP in used {
      assert s in Free(abi, used) && s in Candidates(abi);
      CandidateVolatile(abi, s);
    }
    if R12 in used && SP in used {
      FreeDistinct(abi, used);
    }
  }

  // ---- when the x86-64 table runs out ----

  ghost function Taken(cands: seq<Register>, used: seq<Register>): set<Register> { set r | r in cands && r in used }

  ghost function General(abi: Abi, used: seq<Register>): set<Register> { set r | r in used && IsGpr(abi, r) }

  // r12 and rsp, as far as they are used.
  ghost function Special(used: seq<Register>): set<Register> { set r | r in used && (r == R12 || r == SP) }

  lemma SpecialCount(used: seq<Register>)
    ensures |Special(used)| == Needed(used)
  {
    assert Special(used) == (if R12 in used then {R12} else {}) + (if SP in used then {SP} else {});
  }

  // The general registers in use hold the taken candidates and, apart from them, r12 and rsp.
  lemma GeneralCount(abi: Abi, used: seq<Register>, taken: set<Register>)
    requires !abi.AArch64? && taken == Taken(Candidates(abi), used)
    ensures |taken| + Needed(used) <= |General(abi, used)|
  {
    var special := Special(used);
    forall r | r in taken ensures r in General(abi, used) && r !in special { CandidateVolatile(abi, r); }
    SpecialCount(used);
    SubsetSize(taken + special, General(abi, used));
  }

  // With no more general registers in use than the table has entries, it never runs out.
  lemma FewRegistersSufficeX64(abi: Abi, used: seq<Register>)
    requires !abi.AArch64? && |General(abi, used)| <= |Candidates(abi)|
    ensures |Free(abi, used)| >= Needed(used)
  {
    CandidateCount(abi, used);
    GeneralCount(abi, used, Taken(Candidates(abi), used));
  }

  // With one more it can: all candidates and r12.
  lemma CandidatesRunOut(abi: Abi, used: seq<Register>)
    requires !abi.AArch64? && used == Candidates(abi) + [R12]
    ensures GuestRegisters(abi, used) && |General(abi, used)| == |Candidates(abi)| + 1
    ensures |Free(abi, used)| < Needed(used)
  {
    forall r | r in Candidates(abi) ensures IsGpr(abi, r) && r != R12 { CandidateVolatile(abi, r); }
    CandidateCount(abi, used);
    RunOut(abi, Candidates(abi), used);
  }

  lemma RunOut(abi: Abi, cands: seq<Register>, used: seq<Register>)
    requires !abi.AArch64? && used == cands + [R12] && forall r :: r in cands ==> IsGpr(abi, r) && r != R12
    ensures GuestRegisters(abi, used) && |General(abi, used)| == |Taken(cands, used)| + 1
    ensures Unused(cands, used) == [] && Needed(used) >= 1
  {
    assert R12 in used && General(abi, used) == Taken(cands, used) + {R12};
    NoneUnused(cands, used);
  }

  lemma {:induction false} NoneUnused(cands: seq<Register>, used: seq<Register>)
    requires forall r :: r in cands ==> r in used
    ensures Unused(cands, used) == []
  {
    if cands != [] {
      var c := cands[0];
      assert c in cands && c in used;
      NoneUnused(cands[1..], used);
      UnusedStep(cands, used);
    }
  }

  // Free candidates and taken ones together are all candidates.
  lemma CandidateCount(abi: Abi, used: seq<Register>)
    ensures |Free(abi, used)| + |Taken(Candidates(abi), used)| == |Candidates(abi)|
  {
    forall i, j | 0 <= i < j < |Candidates(abi)| ensures Candidates(abi)[i] != Candidates(abi)[j] {
      CandidatesDistinct(abi, i, j);
    }
    SplitCount(Candidates(abi), used);
  }

  lemma {:induction false} SplitCount(rs: seq<Register>, used: seq<Register>)
    requires forall i, j :: 0 <= i < j < |rs| ==> rs[i] != rs[j]
    ensures |Unused(rs, used)| + |Taken(rs, used)| == |rs|
  {
    if rs != [] {
      SplitCount(rs[1..], used);
      TakenStep(rs, used);
      UnusedStep(rs, used);
    }
  }

  lemma TakenStep(rs: seq<Register>, used: seq<Register>)
    requires rs != [] && rs[0] !in rs[1..]
    ensures |Taken(rs, used)| == |Taken(rs[1..], used)| + if rs[0] in used then 1 else 0
  {
    assert Taken(rs, used) == Taken(rs[1..], used) + if rs[0] in used then {rs[0]} else {};
  }

  lemma CandidatesDistinct(abi: Abi, i: nat, j: nat)
    requires i < j < |Candidates(abi)|
    ensures Candidates(abi)[i] != Candidates(abi)[j]
  {
  }

  lemma FreeDistinct(abi: Abi, used: seq<Register>)
    ensures forall i, j :: 0 <= i < j < |Free(abi, used)| ==> Free(abi, used)[i] != Free(abi, used)[j]
  {
    forall i, j | 0 <= i < j < |Candidates(abi)| ensures Candidates(abi)[i] != Candidates(abi)[j] {
      CandidatesDistinct(abi, i, j);
    }
    KeepDistinct(Candidates(abi), r => r !in used);
  }

  lemma {:induction false} KeepDistinct(rs: seq<Register>, p: Register -> bool)
    requires forall i, j :: 0 <= i < j < |rs| ==> rs[i] != rs[j]
    ensures forall i, j :: 0 <= i < j < |Keep(rs, p)| ==> Keep(rs, p)[i] != Keep(rs, p)[j]
  {
    if rs != [] {
      KeepDistinct(rs[1..], p);
      assert rs[0] !in rs[1..];
      var ks := Keep(rs[1..], p);
      assert forall k :: 0 <= k < |ks| ==> ks[k] in ks;
    }
  }

  // The x86-64 handler, on both conventions and for instructions that use guest RSP and R12.
  lemma X64HandlerCorrect(abi: Abi, layout: Layout, used: seq<Register>, code: seq<int>, m: Machine, op: Effect)
    requires !abi.AArch64? && |Free(abi, used)| >= Needed(used)
    requires m.jump.None? && Footprint(abi, op, used) && WellPlaced(abi, layout, used, m)
    ensures
      var (c, s) := (CpuPick(abi, used), SpPick(abi, used));
      var res := Run(Handler(abi, layout, used, c, s, code), m, op);
      && res.Some? && Simulates(abi, layout, used, c, s, code, op, m, res.value)
      && (forall r :: Saved(abi, r) && r != R13 ==> Preserved(abi, r, res.value.file, m.file))
  {
    X64StandIns(abi, used);
    HandlerRuns(abi, layout, used, CpuPick(abi, used), SpPick(abi, used), code, m, op);
  }
}
