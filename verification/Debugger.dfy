/**
 The debugger's stop and step protocol: AetherThread of lldb/src/Thread.cpp and the breakpoint table
 of AetherProcess in lldb/src/Process.cpp. A watchdog call up to its wait is one atomic step; what
 the emulated threads and the debugger do interleaves freely.
 */
module Debugger {
  datatype RunState = Running | Stepping | Stopped

  // What WatchDog does to the thread state, and whether the thread then waits.
  datatype Verdict = Verdict(state: RunState, parks: bool)

  function Watch(state: RunState, breakpoint: bool): Verdict {
    if breakpoint || state != Running then Verdict(Stopped, true) else Verdict(Running, false)
  }

  // ---- the classes ----

  class AetherThread {
    var state: RunState
    var description: string

    constructor ()
      ensures state == Stopped
    { state, description := Stopped, "Finished attaching"; }

    // True when the thread reaches the wait.
    method WatchDog(pc: nat) returns (parks: bool)
      modifies this
      ensures Verdict(state, parks) == Watch(old(state), false)
      decreases if state == Stepping then 1 else 0
    {
      match state
      case Stopped => parks := true;
      case Stepping =>
        state := Stopped;
        description := "Single Stepped";
        parks := WatchDog(pc);
      case Running => parks := false;
    }

    method HitBreakpoint(pc: nat) returns (parks: bool)
      modifies this
      ensures Verdict(state, parks) == Watch(old(state), true) && description == "Breakpoint Hit"
    {
      state := Stopped;
      description := "Breakpoint Hit";
      parks := true;
    }

    method Resume()
      modifies this
      ensures state == Running && description == old(description)
    { state := Running; }

    method SingleStep()
      modifies this
      ensures state == Stepping && description == old(description)
    { state := Stepping; }

    method Interrupt()
      modifies this
      ensures state == Stopped && description == "Interrupted"
    {
      state := Stopped;
      description := "Interrupted";
    }
  }

  // Reference counts of breakpoints; a breakpoint exists while its count is positive.
  type Counts = map<nat, nat>

  ghost predicate Positive(c: Counts) { forall a :: a in c ==> c[a] > 0 }

  function Inc(c: Counts, a: nat): Counts { c[a := if a in c then c[a] + 1 else 1] }

  function Dec(c: Counts, a: nat): Counts {
    if a !in c then c else if c[a] > 1 then c[a := c[a] - 1] else map x | x in c && x != a :: c[x]
  }

  class AetherProcess {
    var breakpoints: Counts
    const translate: nat -> nat

    constructor (translate: nat -> nat)
      ensures breakpoints == map[] && this.translate == translate
    { breakpoints, this.translate := map[], translate; }

    method SetBreakpoint(addr: nat)
      modifies this
      ensures breakpoints == Inc(old(breakpoints), translate(addr))
    {
      var a := translate(addr);
      if a !in breakpoints { breakpoints := breakpoints[a := 0]; }
      breakpoints := breakpoints[a := breakpoints[a] + 1];
    }

    method RemoveBreakpoint(addr: nat) returns (ok: bool)
      requires Positive(breakpoints)
      modifies this
      ensures ok <==> translate(addr) in old(breakpoints)
      ensures breakpoints == Dec(old(breakpoints), translate(addr)) && Positive(breakpoints)
    {
      var a := translate(addr);
      if a !in breakpoints { return false; }
      breakpoints := breakpoints[a := breakpoints[a] - 1];
      if breakpoints[a] > 0 { return true; }
      breakpoints := map x | x in breakpoints && x != a :: breakpoints[x];
      ok := true;
    }

    method WatchDog(thread: AetherThread, pc: nat) returns (parks: bool)
      modifies thread
      ensures Verdict(thread.state, parks) == Watch(old(thread.state), pc in breakpoints)
    {
      if |breakpoints| != 0 && pc in breakpoints {
        parks := thread.HitBreakpoint(pc);
      } else {
        parks := thread.WatchDog(pc);
      }
    }
  }
}
