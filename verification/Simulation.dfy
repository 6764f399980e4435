/**
 Stuttering simulation between deterministic transition systems, both ways.
 */
module Simulation {
  // A system: its steps, and what each state emits when it is left.
  datatype System<!S, !E> = System(step: S -> S, emits: S -> seq<E>)

  function Reach<S, E>(sys: System<S, E>, s: S, n: nat): S
    decreases n
  { if n == 0 then s else sys.step(Reach(sys, s, n - 1)) }

  // What is emitted in n steps.
  function Trace<S, E>(sys: System<S, E>, s: S, n: nat): seq<E>
    decreases n
  { if n == 0 then [] else Trace(sys, s, n - 1) + sys.emits(Reach(sys, s, n - 1)) }

  // p moves alone, emitting nothing and coming closer to moving with q.
  ghost predicate Stutters<S(!new), E>(p: System<S, E>, rel: (S, S) -> bool, measure: S -> nat, s: S, t: S) {
    rel(p.step(s), t) && p.emits(s) == [] && measure(p.step(s)) < measure(s)
  }

  // Both move and emit the same.
  ghost predicate Together<S(!new), E>(p: System<S, E>, q: System<S, E>, rel: (S, S) -> bool, s: S, t: S) {
    rel(p.step(s), q.step(t)) && p.emits(s) == q.emits(t)
  }

  ghost predicate Simulates<S(!new), E>(p: System<S, E>, q: System<S, E>, rel: (S, S) -> bool, measure: S -> nat) {
    forall s, t {:trigger Together(p, q, rel, s, t)} :: rel(s, t) ==>
      Stutters(p, rel, measure, s, t) || Together(p, q, rel, s, t)
  }

  ghost predicate Matched<S(!new), E>(p: System<S, E>, q: System<S, E>, rel: (S, S) -> bool, s: S, n: nat, t: S,
                            m: nat) {
    rel(Reach(p, s, n), Reach(q, t, m)) && Trace(p, s, n) == Trace(q, t, m)
  }

  // Every run of p is matched by a run of q that is no longer.
  lemma {:induction false} RunMatched<S(!new), E>(p: System<S, E>, q: System<S, E>, rel: (S, S) -> bool,
      measure: S -> nat, s: S, t: S, n: nat)
    returns (m: nat)
    requires Simulates(p, q, rel, measure) && rel(s, t)
    ensures m <= n && Matched(p, q, rel, s, n, t, m)
    decreases n
  {
    if n == 0 { return 0; }
    m := RunMatched(p, q, rel, measure, s, t, n - 1);
    if Together(p, q, rel, Reach(p, s, n - 1), Reach(q, t, m)) {
      m := m + 1;
    } else {
      NoEmit(p, s, n - 1);
    }
  }

  lemma NoEmit<S(!new), E>(p: System<S, E>, s: S, n: nat)
    requires p.emits(Reach(p, s, n)) == []
    ensures Trace(p, s, n + 1) == Trace(p, s, n)
  {
  }

  // Stuttering ends: after some silent steps p moves together with q.
  lemma {:induction false} StutteringEnds<S(!new), E>(p: System<S, E>, q: System<S, E>, rel: (S, S) -> bool,
      measure: S -> nat, s: S, n: nat, t: S)
    returns (k: nat)
    requires Simulates(p, q, rel, measure) && rel(Reach(p, s, n), t)
    ensures k >= n && rel(Reach(p, s, k), t) && Trace(p, s, k) == Trace(p, s, n)
    ensures Together(p, q, rel, Reach(p, s, k), t)
    decreases measure(Reach(p, s, n))
  {
    if Together(p, q, rel, Reach(p, s, n), t) { return n; }
    assert Stutters(p, rel, measure, Reach(p, s, n), t);
    NoEmit(p, s, n);
    assert Reach(p, s, n + 1) == p.step(Reach(p, s, n));
    k := StutteringEnds(p, q, rel, measure, s, n + 1, t);
  }

  // Every run of q is matched by a run of p.
  lemma {:induction false} RunReached<S(!new), E>(p: System<S, E>, q: System<S, E>, rel: (S, S) -> bool,
      measure: S -> nat, s: S, t: S, m: nat)
    returns (n: nat)
    requires Simulates(p, q, rel, measure) && rel(s, t)
    ensures Matched(p, q, rel, s, n, t, m)
    decreases m
  {
    if m == 0 { return 0; }
    var a := RunReached(p, q, rel, measure, s, t, m - 1);
    var k := StutteringEnds(p, q, rel, measure, s, a, Reach(q, t, m - 1));
    n := k + 1;
  }
}
