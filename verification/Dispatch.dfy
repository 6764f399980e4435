/**
 The in-module dispatch step of InterpMetaData::vmEntry (src/InterpMetaData.cpp): from the current
 table entry to the entry of the new PC, by the next entry, the cached index or a search.
 */
module Dispatch {
  import opened Search

  // Entry i of the instruction table is the one of address pc.
  ghost predicate IsEntry(rvas: seq<nat>, base: nat, i: nat, pc: nat) { i < |rvas| && base + rvas[i] == pc }

  // An address has at most one entry.
  lemma EntryUnique(rvas: seq<nat>, base: nat, i: nat, j: nat, pc: nat)
    requires StrictlySorted(rvas) && IsEntry(rvas, base, i, pc) && IsEntry(rvas, base, j, pc)
    ensures i == j
  {
  }

  // Every cached index is the entry itself or its successor.
  ghost predicate CacheOk(next: seq<nat>) { forall i :: 0 <= i < |next| ==> next[i] == i || next[i] == i + 1 }

  class Module {
    const base: nat
    const rvas: seq<nat>
    const nexticache: array<nat>

    ghost predicate Valid()
      reads this, nexticache
    {
      && rvas != [] && StrictlySorted(rvas) && (forall i :: 0 <= i < |rvas| ==> rvas[i] < 0x1_0000_0000)
      && nexticache.Length == |rvas| && CacheOk(nexticache[..])
    }

    constructor (base: nat, rvas: seq<nat>)
      requires rvas != [] && StrictlySorted(rvas) && (forall i :: 0 <= i < |rvas| ==> rvas[i] < 0x1_0000_0000)
      ensures Valid() && this.base == base && this.rvas == rvas && fresh(nexticache)
    {
      this.base, this.rvas := base, rvas;
      var cache := new nat[|rvas|];
      for i := 0 to |rvas|
        invariant forall k :: 0 <= k < i ==> cache[k] == k + 1
      {
        cache[i] := i + 1;
      }
      nexticache := cache;
    }

    // RuntimeMetaData::find: the entry whose rva is the low word of the distance from the base.
    method Find(pc: nat) returns (i: nat)
      requires Valid() && exists k: nat :: IsEntry(rvas, base, k, pc)
      ensures IsEntry(rvas, base, i, pc)
    {
      ghost var k: nat :| IsEntry(rvas, base, k, pc);
      var key := (pc - base) % 0x1_0000_0000;
      assert key == rvas[k];
      i := BinarySearch(rvas, key);
      ExactIffMember(rvas, key);
    }

    /**
     One dispatch step. It ends at the entry of pc whatever the cache holds; the cache spares the
     search exactly when an instruction that was searched for before branches to itself.
     */
    method Step(cur: nat, pc: nat) returns (next: nat, cached: bool)
      requires Valid() && cur < |rvas| - 1 && exists k: nat :: IsEntry(rvas, base, k, pc)
      modifies nexticache
      ensures Valid() && IsEntry(rvas, base, next, pc)
      ensures cached <==> base + rvas[cur] == pc && old(nexticache[cur]) == cur
      ensures next == cur + 1 || cached ==> nexticache[..] == old(nexticache[..])
      ensures !(next == cur + 1 || cached) ==> nexticache[..] == old(nexticache[..])[next := next]
    {
      cached := false;
      if base + rvas[cur + 1] == pc {
        next := cur + 1;
      } else {
        next := nexticache[cur];
        assert nexticache[..][cur] == next;
        if base + rvas[next] != pc {
          next := Find(pc);
          nexticache[next] := next;
          assert nexticache[..] == old(nexticache[..])[next := next];
        } else {
          cached := true;
        }
      }
    }

    // A run: the program counters after each instruction, none of which was reached at the last entry.
    method Run(start: nat, pcs: seq<nat>) returns (trace: seq<nat>)
      requires Valid() && start < |rvas| - 1
      requires forall i :: 0 <= i < |pcs| ==> exists k: nat :: k < |rvas| - 1 && IsEntry(rvas, base, k, pcs[i])
      modifies nexticache
      ensures Valid() && |trace| == |pcs|
      ensures forall i :: 0 <= i < |pcs| ==> IsEntry(rvas, base, trace[i], pcs[i])
    {
      trace := [];
      var cur: nat := start;
      for i := 0 to |pcs|
        invariant Valid() && |trace| == i && cur < |rvas| - 1
        invariant forall k :: 0 <= k < i ==> IsEntry(rvas, base, trace[k], pcs[k])
      {
        ghost var k: nat :| k < |rvas| - 1 && IsEntry(rvas, base, k, pcs[i]);
        var cached;
        cur, cached := Step(cur, pcs[i]);
        EntryUnique(rvas, base, cur, k, pcs[i]);
        trace := trace + [cur];
      }
    }
  }
}
