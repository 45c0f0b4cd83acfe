// Running a deterministic machine: repeated steps and the trace they leave.
module Iteration {

  function Iterate<S>(step: S -> S, s: S, n: nat): S
    decreases n
  {
    if n == 0 then s else Iterate(step, step(s), n - 1)
  }

  /** What `observe` reports of each state that a step is taken from. */
  function Trace<S, E>(step: S -> S, observe: S -> seq<E>, s: S, n: nat): seq<E>
    decreases n
  {
    if n == 0 then [] else observe(s) + Trace(step, observe, step(s), n - 1)
  }

  /** `safe` holds of every state that one of the `n` steps is taken from. */
  predicate Throughout<S>(step: S -> S, safe: S -> bool, s: S, n: nat)
    decreases n
  {
    n == 0 || (safe(s) && Throughout(step, safe, step(s), n - 1))
  }

  lemma {:induction false} IterateAdd<S>(step: S -> S, s: S, m: nat, n: nat)
    ensures Iterate(step, s, m + n) == Iterate(step, Iterate(step, s, m), n)
    decreases m
  {
    if m > 0 { IterateAdd(step, step(s), m - 1, n); }
  }

  lemma {:induction false} TraceAdd<S, E>(step: S -> S, observe: S -> seq<E>, s: S, m: nat, n: nat)
    ensures Trace(step, observe, s, m + n)
            == Trace(step, observe, s, m) + Trace(step, observe, Iterate(step, s, m), n)
    decreases m
  {
    if m > 0 { TraceAdd(step, observe, step(s), m - 1, n); }
  }

  lemma {:induction false} ThroughoutAdd<S>(step: S -> S, safe: S -> bool, s: S, m: nat, n: nat)
    requires Throughout(step, safe, s, m) && Throughout(step, safe, Iterate(step, s, m), n)
    ensures Throughout(step, safe, s, m + n)
    decreases m
  {
    if m > 0 { ThroughoutAdd(step, safe, step(s), m - 1, n); }
  }

  lemma {:induction false} ThroughoutAt<S>(step: S -> S, safe: S -> bool, s: S, n: nat, k: nat)
    requires Throughout(step, safe, s, n) && k < n
    ensures safe(Iterate(step, s, k))
    decreases k
  {
    if k > 0 { ThroughoutAt(step, safe, step(s), n - 1, k - 1); }
  }

  /** One step more at the end. */
  lemma IterateSucc<S>(step: S -> S, s: S, n: nat)
    ensures Iterate(step, s, n + 1) == step(Iterate(step, s, n))
  {
    IterateAdd(step, s, n, 1);
    assert Iterate(step, Iterate(step, s, n), 1) == Iterate(step, step(Iterate(step, s, n)), 0);
  }
}
