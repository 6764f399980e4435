/**
 OpcodeHandlers of src/OpcodeEngine.h: a set of opcode handlers with a direct-mapped cache of 256
 pointers into it, indexed by the Fibonacci hashes of include/Utils.h.
 */
module OpcodeCache {
  import opened Words

  // fib_hash8 for each opcode width in bits.
  function FibHash8(width: nat, x: nat): (h: nat)
    ensures h < 256
  {
    if width == 8 then x % 256
    else if width == 16 then (x * 40503) / 0x100 % 256
    else if width == 32 then (x * 2654435769) % 0x1_0000_0000 / 0x100_0000 % 256
    else if width == 64 then (x * 11400714819323198485) % TWO64 / 0x100_0000_0000_0000 % 256
    else (BitXor(x % TWO64, x / TWO64) * 11400714819323198485) % TWO64 / 0x100_0000_0000_0000 % 256
  }

  class OpcodeHandler {
    const opcode: nat
    constructor (opcode: nat)
      ensures this.opcode == opcode
    { this.opcode := opcode; }
  }

  // No two members share an opcode.
  ghost predicate Unique(handlers: set<OpcodeHandler>) {
    forall g, h :: g in handlers && h in handlers && g.opcode == h.opcode ==> g == h
  }

  // A slot is empty or points to a member whose opcode hashes to the slot.
  ghost predicate SlotOk(width: nat, handlers: set<OpcodeHandler>, slot: nat, p: OpcodeHandler?) {
    p != null ==> p in handlers && FibHash8(width, p.opcode) == slot
  }

  function Opcodes(handlers: set<OpcodeHandler>): set<nat> { set h | h in handlers :: h.opcode }

  class OpcodeHandlers {
    const width: nat
    var handlers: set<OpcodeHandler>
    const caches: array<OpcodeHandler?>

    ghost predicate Valid()
      reads this, caches
    {
      && caches.Length == 256 && Unique(handlers)
      && forall i :: 0 <= i < 256 ==> SlotOk(width, handlers, i, caches[i])
    }

    constructor (width: nat)
      ensures Valid() && handlers == {} && fresh(caches)
    {
      this.width := width;
      handlers := {};
      caches := new OpcodeHandler?[256](_ => null);
    }

    // handlers.find
    method FindHandler(opcode: nat) returns (found: OpcodeHandler?)
      requires Valid()
      ensures found == null <==> opcode !in Opcodes(handlers)
      ensures found != null ==> found in handlers && found.opcode == opcode
    {
      found := null;
      if opcode in Opcodes(handlers) {
        found :| found in handlers && found.opcode == opcode;
      }
    }

    method Insert(opcode: nat) returns (h: OpcodeHandler)
      requires Valid() && opcode !in Opcodes(handlers)
      modifies this`handlers
      ensures Valid() && fresh(h) && h.opcode == opcode && handlers == old(handlers) + {h}
    {
      h := new OpcodeHandler(opcode);
      handlers := handlers + {h};
    }

    method Prefetch(opcode: nat)
      requires Valid()
      modifies this`handlers, caches
      ensures Valid() && old(handlers) <= handlers
      ensures Opcodes(handlers) == Opcodes(old(handlers)) + {opcode}
      ensures opcode in Opcodes(old(handlers)) ==> handlers == old(handlers)
    {
      var found := FindHandler(opcode);
      if found == null {
        var h := Insert(opcode);
        caches[FibHash8(width, opcode)] := h;
      }
    }

    /**
     The handler that interprets the opcode, null for failure. initOk stands for what init() returns
     on a new handler; one whose init() fails stays in the set. Whether the answer comes from the
     cache or from the set, it is the only member with that opcode.
     */
    method Emulate(opcode: nat, readonly: bool, initOk: bool) returns (h: OpcodeHandler?)
      requires Valid()
      modifies this`handlers, caches
      ensures Valid() && old(handlers) <= handlers
      ensures h == null <==> opcode !in Opcodes(old(handlers)) && (readonly || !initOk)
      ensures h != null ==> h in handlers && h.opcode == opcode && forall g :: g in handlers && g.opcode == opcode ==>
        g == h
      ensures readonly || opcode in Opcodes(old(handlers)) ==> handlers == old(handlers)
      ensures Opcodes(handlers) == Opcodes(old(handlers)) + (if readonly then {} else {opcode})
    {
      var id := FibHash8(width, opcode);
      var ptr := caches[id];
      if ptr != null && ptr.opcode == opcode {
        return ptr;
      }
      var found := FindHandler(opcode);
      if found == null {
        if readonly { return null; }
        found := Insert(opcode);
        if !initOk { return null; }
      }
      caches[id] := found;
      return found;
    }
  }

  // ---- whole runs ----

  datatype Command = PrefetchCmd(opcode: nat) | EmulateCmd(opcode: nat, readonly: bool, initOk: bool)

  // Which opcode's handler interprets, when there is no cache and `known` are the opcodes that have one.
  function Picked(cmd: Command, known: set<nat>): Option<nat> {
    match cmd
    case PrefetchCmd(_) => None
    case EmulateCmd(op, readonly, initOk) => if op in known || (!readonly && initOk) then Some(op) else None
  }

  function Known(cmd: Command, known: set<nat>): set<nat> {
    match cmd
    case PrefetchCmd(op) => known + {op}
    case EmulateCmd(op, readonly, _) => if readonly then known else known + {op}
  }

  function Uncached(cmds: seq<Command>, known: set<nat>): seq<Option<nat>> {
    if cmds == [] then [] else [Picked(cmds[0], known)] + Uncached(cmds[1..], Known(cmds[0], known))
  }

  // One command: the opcode of the handler that interprets, which is the only member with that opcode.
  method Execute(hs: OpcodeHandlers, cmd: Command) returns (picked: Option<nat>)
    requires hs.Valid()
    modifies hs`handlers, hs.caches
    ensures hs.Valid() && picked == Picked(cmd, old(Opcodes(hs.handlers)))
    ensures Opcodes(hs.handlers) == Known(cmd, old(Opcodes(hs.handlers)))
    ensures picked.Some? ==> picked.value in Opcodes(hs.handlers)
  {
    picked := None;
    match cmd
    case PrefetchCmd(op) => hs.Prefetch(op);
    case EmulateCmd(op, readonly, initOk) =>
      var h := hs.Emulate(op, readonly, initOk);
      if h != null { picked := Some(h.opcode); }
  }

  // Any sequence of commands picks the handlers it would pick without a cache.
  method Drive(cmds: seq<Command>, width: nat) returns (picked: seq<Option<nat>>)
    ensures picked == Uncached(cmds, {})
  {
    var hs := new OpcodeHandlers(width);
    picked := [];
    assert cmds[0..] == cmds && Opcodes(hs.handlers) == {};
    for i := 0 to |cmds|
      invariant hs.Valid() && fresh(hs) && fresh(hs.caches)
      invariant Uncached(cmds, {}) == picked + Uncached(cmds[i..], Opcodes(hs.handlers))
    {
      UncachedStep(cmds, i, Opcodes(hs.handlers), picked);
      var one := Execute(hs, cmds[i]);
      picked := picked + [one];
    }
  }

  lemma UncachedStep(cmds: seq<Command>, i: nat, known: set<nat>, before: seq<Option<nat>>)
    requires i < |cmds|
    ensures before + Uncached(cmds[i..], known)
         == (before + [Picked(cmds[i], known)]) + Uncached(cmds[i + 1..], Known(cmds[i], known))
  {
    assert cmds[i..][1..] == cmds[i + 1..];
  }
}
