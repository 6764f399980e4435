/**
 Every interleaving of emulated threads and debugger commands over the protocol of lldb/src/Thread.cpp
 and lldb/src/Process.cpp. A thread that waits may be woken at any time, so the results hold with
 spurious wake-ups too.
 */
module DebugProtocol {
  import opened Debugger

  // Where a thread is: about to call the watchdog for pc, waiting in it, or about to run the instruction.
  datatype Phase = Fetching(pc: nat) | Parked(pc: nat) | Cleared(pc: nat)
  datatype Thread = Thread(state: RunState, phase: Phase)
  datatype System = System(threads: map<nat, Thread>, counts: Counts)

  datatype Action =
    | WatchDog(t: nat) | Wake(t: nat) | Execute(t: nat, next: nat)
    | Resume(t: nat) | SingleStep(t: nat) | Interrupt(t: nat)
    | SetBreakpoint(addr: nat) | RemoveBreakpoint(addr: nat)

  predicate OnThread(a: Action) { !a.SetBreakpoint? && !a.RemoveBreakpoint? }

  predicate IsCommand(a: Action) { a.Resume? || a.SingleStep? || a.Interrupt? }

  // What an action does to its thread.
  function Act(th: Thread, a: Action, breakpoint: bool): Thread {
    match a
    case WatchDog(_) =>
      if !th.phase.Fetching? then th else
      var v := Watch(th.state, breakpoint);
      Thread(v.state, if v.parks then Parked(th.phase.pc) else Cleared(th.phase.pc))
    case Wake(_) => if th.phase.Parked? then Thread(th.state, Cleared(th.phase.pc)) else th
    case Execute(_, next) => if th.phase.Cleared? then Thread(th.state, Fetching(next)) else th
    case Resume(_) => Thread(Running, th.phase)
    case SingleStep(_) => Thread(Stepping, th.phase)
    case Interrupt(_) => Thread(Stopped, th.phase)
    case _ => th
  }

  predicate Enabled(s: System, a: Action) {
    OnThread(a) ==>
      && a.t in s.threads
      && (a.WatchDog? ==> s.threads[a.t].phase.Fetching?)
      && (a.Wake? ==> s.threads[a.t].phase.Parked?)
      && (a.Execute? ==> s.threads[a.t].phase.Cleared?)
  }

  function Next(s: System, a: Action, tr: nat -> nat): System {
    match a
    case SetBreakpoint(addr) => System(s.threads, Inc(s.counts, tr(addr)))
    case RemoveBreakpoint(addr) => System(s.threads, Dec(s.counts, tr(addr)))
    case _ =>
      if a.t !in s.threads then s else
      System(s.threads[a.t := Act(s.threads[a.t], a, s.threads[a.t].phase.pc in s.counts)], s.counts)
  }

  // The system after the first n actions.
  function After(s: System, acts: seq<Action>, n: nat, tr: nat -> nat): System
    requires n <= |acts|
    decreases n
  { if n == 0 then s else Next(After(s, acts, n - 1, tr), acts[n - 1], tr) }

  // A run: every thread starts before an instruction, and each action is possible when it happens.
  ghost predicate IsRun(s: System, acts: seq<Action>, tr: nat -> nat) {
    && (forall t :: t in s.threads ==> s.threads[t].phase.Fetching?)
    && forall i: nat :: i < |acts| ==> EnabledAt(s, acts, i, tr)
  }

  predicate EnabledAt(s: System, acts: seq<Action>, i: nat, tr: nat -> nat)
    requires i < |acts|
  { Enabled(After(s, acts, i, tr), acts[i]) }

  lemma {:induction false} SameThreads(s: System, acts: seq<Action>, n: nat, tr: nat -> nat)
    requires n <= |acts|
    ensures After(s, acts, n, tr).threads.Keys == s.threads.Keys
    decreases n
  {
    if n > 0 { SameThreads(s, acts, n - 1, tr); }
  }

  // Thread t before action n.
  function ThreadAt(s: System, acts: seq<Action>, n: nat, tr: nat -> nat, t: nat): Thread
    requires n <= |acts| && t in s.threads
  {
    SameThreads(s, acts, n, tr);
    After(s, acts, n, tr).threads[t]
  }

  function BreakpointAt(s: System, acts: seq<Action>, n: nat, tr: nat -> nat, pc: nat): bool
    requires n <= |acts|
  { pc in After(s, acts, n, tr).counts }

  // How one action changes a given thread.
  lemma ThreadStep(s: System, acts: seq<Action>, n: nat, tr: nat -> nat, t: nat)
    requires n < |acts| && t in s.threads
    ensures var th := ThreadAt(s, acts, n, tr, t);
      ThreadAt(s, acts, n + 1, tr, t)
      == if OnThread(acts[n]) && acts[n].t == t then Act(th, acts[n], BreakpointAt(s, acts, n, tr, th.phase.pc)) else th
  {
    SameThreads(s, acts, n, tr);
    SameThreads(s, acts, n + 1, tr);
  }

  // ---- one thread's view of a run ----

  // A thread, and whether there is a breakpoint at its pc.
  datatype Sight = Sight(th: Thread, breakpoint: bool)

  // Thread t before each action, and after the last one.
  function View(s: System, acts: seq<Action>, tr: nat -> nat, t: nat): (v: seq<Sight>)
    requires t in s.threads
    ensures |v| == |acts| + 1
  { seq(|acts| + 1, n requires 0 <= n <= |acts| => SightAt(s, acts, n, tr, t)) }

  function SightAt(s: System, acts: seq<Action>, n: nat, tr: nat -> nat, t: nat): Sight
    requires n <= |acts| && t in s.threads
  {
    var th := ThreadAt(s, acts, n, tr, t);
    Sight(th, BreakpointAt(s, acts, n, tr, th.phase.pc))
  }

  predicate Concerns(a: Action, t: nat) { OnThread(a) && a.t == t }

  predicate Possible(th: Thread, a: Action) {
    (a.WatchDog? ==> th.phase.Fetching?) && (a.Wake? ==> th.phase.Parked?) && (a.Execute? ==> th.phase.Cleared?)
  }

  // Each action that concerns the thread is possible and does what it does; the others leave the thread alone.
  predicate Follows(x: Sight, a: Action, t: nat, y: Sight) {
    if Concerns(a, t) then Possible(x.th, a) && y.th == Act(x.th, a, x.breakpoint) else y.th == x.th
  }

  ghost predicate IsView(v: seq<Sight>, acts: seq<Action>, t: nat) {
    && |v| == |acts| + 1 && v[0].th.phase.Fetching?
    && forall n :: 0 <= n < |acts| ==> Follows(v[n], acts[n], t, v[n + 1])
  }

  lemma ViewOfRun(s: System, acts: seq<Action>, tr: nat -> nat, t: nat)
    requires IsRun(s, acts, tr) && t in s.threads
    ensures IsView(View(s, acts, tr, t), acts, t)
  {
    var v := View(s, acts, tr, t);
    forall n | 0 <= n < |acts| ensures Follows(v[n], acts[n], t, v[n + 1]) {
      ViewStep(s, acts, tr, t, n);
    }
  }

  lemma ViewStep(s: System, acts: seq<Action>, tr: nat -> nat, t: nat, n: nat)
    requires IsRun(s, acts, tr) && t in s.threads && n < |acts|
    ensures Follows(SightAt(s, acts, n, tr, t), acts[n], t, SightAt(s, acts, n + 1, tr, t))
  {
    ThreadStep(s, acts, n, tr, t);
    assert EnabledAt(s, acts, n, tr);
  }

  // ---- breakpoints are hit ----

  // m is the last watchdog call of thread t before n, made for address pc.
  ghost predicate LastWatch(v: seq<Sight>, acts: seq<Action>, t: nat, m: nat, n: nat, pc: nat)
    requires |v| == |acts| + 1 && n <= |acts|
  {
    && m < n && acts[m] == WatchDog(t) && v[m].th.phase == Fetching(pc)
    && forall i :: m < i < n ==> !(acts[i].Execute? && acts[i].t == t) && acts[i] != WatchDog(t)
  }

  // The thread was woken between m and n.
  ghost predicate Woken(acts: seq<Action>, t: nat, m: nat, n: nat)
    requires n <= |acts|
  { exists k :: m < k < n && acts[k] == Wake(t) }

  // A thread past its fetch called the watchdog for its pc; if that parked it, it waits or was woken.
  lemma {:induction false} WatchedBefore(v: seq<Sight>, acts: seq<Action>, t: nat, n: nat) returns (m: nat)
    requires IsView(v, acts, t) && n <= |acts| && !v[n].th.phase.Fetching?
    ensures LastWatch(v, acts, t, m, n, v[n].th.phase.pc)
    ensures v[m + 1].th.phase.Parked? && v[n].th.phase.Cleared? ==> Woken(acts, t, m, n)
    decreases n
  {
    var a := acts[n - 1];
    assert Follows(v[n - 1], a, t, v[n]);
    if a == WatchDog(t) {
      m := n - 1;
    } else {
      m := WatchedBefore(v, acts, t, n - 1);
      if a == Wake(t) {
        assert Woken(acts, t, m, n);
      } else if Woken(acts, t, m, n - 1) {
        var k :| m < k < n - 1 && acts[k] == Wake(t);
        assert m < k < n;
      }
    }
  }

  /**
   A breakpointed instruction runs only after its thread parked there: if the breakpoint existed when
   the thread last asked the watchdog, the thread waited at that address and was woken before it ran.
   */
  lemma BreakpointParks(s: System, acts: seq<Action>, tr: nat -> nat, t: nat, n: nat) returns (m: nat)
    requires IsRun(s, acts, tr) && n < |acts| && acts[n].Execute? && acts[n].t == t && t in s.threads
    ensures var v := View(s, acts, tr, t);
      && v[n].th.phase.Cleared?
      && LastWatch(v, acts, t, m, n, v[n].th.phase.pc)
      && (v[m].breakpoint ==> v[m + 1].th == Thread(Stopped, Parked(v[n].th.phase.pc)) && Woken(acts, t, m, n))
  {
    var v := View(s, acts, tr, t);
    ViewOfRun(s, acts, tr, t);
    m := ParksInView(v, acts, t, n);
  }

  lemma ParksInView(v: seq<Sight>, acts: seq<Action>, t: nat, n: nat) returns (m: nat)
    requires IsView(v, acts, t) && n < |acts| && acts[n].Execute? && acts[n].t == t
    ensures v[n].th.phase.Cleared? && LastWatch(v, acts, t, m, n, v[n].th.phase.pc)
    ensures v[m].breakpoint ==> v[m + 1].th == Thread(Stopped, Parked(v[n].th.phase.pc)) && Woken(acts, t, m, n)
  {
    assert Follows(v[n], acts[n], t, v[n + 1]);
    m := WatchedBefore(v, acts, t, n);
    assert Follows(v[m], acts[m], t, v[m + 1]);
  }

  // ---- single stepping ----

  // The instructions thread t runs in actions a..b.
  function Executed(acts: seq<Action>, t: nat, a: nat, b: nat): nat
    requires b <= |acts|
    decreases b
  { if b <= a then 0 else Executed(acts, t, a, b - 1) + (if acts[b - 1].Execute? && acts[b - 1].t == t then 1 else 0) }

  // Nothing else is asked of thread t between a and b, and it does not park.
  ghost predicate Undisturbed(v: seq<Sight>, acts: seq<Action>, t: nat, a: nat, b: nat)
    requires |v| == |acts| + 1 && b <= |acts|
  {
    forall i :: a < i < b ==>
      !(IsCommand(acts[i]) && acts[i].t == t) && !(acts[i] == WatchDog(t) && v[i + 1].th.phase.Parked?)
  }

  // An instruction is still to come without another fetch.
  function Pending(p: Phase): nat { if p.Fetching? then 0 else 1 }

  lemma {:induction false} StepsOnceInView(v: seq<Sight>, acts: seq<Action>, t: nat, a: nat, b: nat)
    requires IsView(v, acts, t) && a < b <= |acts| && acts[a] == SingleStep(t) && Undisturbed(v, acts, t, a, b)
    ensures v[b].th.state == Stepping && Executed(acts, t, a + 1, b) + Pending(v[b].th.phase) <= 1
    decreases b
  {
    assert Follows(v[b - 1], acts[b - 1], t, v[b]);
    if b > a + 1 { StepsOnceInView(v, acts, t, a, b - 1); }
  }

  // Between a single step and the next park at most one instruction of the thread runs.
  lemma StepsOnce(s: System, acts: seq<Action>, tr: nat -> nat, t: nat, a: nat, b: nat)
    requires IsRun(s, acts, tr) && a < b <= |acts| && t in s.threads && acts[a] == SingleStep(t)
    requires Undisturbed(View(s, acts, tr, t), acts, t, a, b)
    ensures Executed(acts, t, a + 1, b) <= 1
  {
    ViewOfRun(s, acts, tr, t);
    StepsOnceInView(View(s, acts, tr, t), acts, t, a, b);
  }

  // ---- breakpoint counts ----

  function SetsOf(acts: seq<Action>, n: nat, tr: nat -> nat, x: nat): nat
    requires n <= |acts|
    decreases n
  {
    if n == 0 then 0 else
    SetsOf(acts, n - 1, tr, x) + (if acts[n - 1].SetBreakpoint? && tr(acts[n - 1].addr) == x then 1 else 0)
  }

  // The removals of x that succeeded.
  function RemovedOf(s: System, acts: seq<Action>, n: nat, tr: nat -> nat, x: nat): nat
    requires n <= |acts|
    decreases n
  {
    if n == 0 then 0 else
    RemovedOf(s, acts, n - 1, tr, x)
    + (if acts[n - 1].RemoveBreakpoint? && tr(acts[n - 1].addr) == x && BreakpointAt(s, acts, n - 1, tr,
        x) then 1 else 0)
  }

  // A breakpoint exists exactly when it was set more often than successfully removed.
  lemma {:induction false} BreakpointExists(s: System, acts: seq<Action>, n: nat, tr: nat -> nat, x: nat)
    requires n <= |acts| && s.counts == map[]
    ensures var c := After(s, acts, n, tr).counts;
      && (x in c ==> c[x] == SetsOf(acts, n, tr, x) - RemovedOf(s, acts, n, tr, x))
      && (x in c <==> SetsOf(acts, n, tr, x) > RemovedOf(s, acts, n, tr, x))
      && SetsOf(acts, n, tr, x) >= RemovedOf(s, acts, n, tr, x)
    decreases n
  {
    if n > 0 { BreakpointExists(s, acts, n - 1, tr, x); }
  }
}
