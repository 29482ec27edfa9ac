/** Runs of a state machine that is given by its step relation. */
module Runs {

  /** `t` is the state after some run of `k` steps from `s`. */
  ghost predicate LeadsIn<S(!new)>(step: (S, S) -> bool, s: S, t: S, k: nat)
    decreases k
  {
    if k == 0 then s == t else exists p :: LeadsIn(step, s, p, k - 1) && step(p, t)
  }

  ghost predicate LeadsTo<S(!new)>(step: (S, S) -> bool, s: S, t: S) {
    exists k: nat :: LeadsIn(step, s, t, k)
  }

  lemma Stay<S(!new)>(step: (S, S) -> bool, s: S)
    ensures LeadsTo(step, s, s)
  {
    assert LeadsIn(step, s, s, 0);
  }

  lemma OneMore<S(!new)>(step: (S, S) -> bool, s: S, t: S, u: S)
    requires LeadsTo(step, s, t) && step(t, u)
    ensures LeadsTo(step, s, u)
  {
    var k: nat :| LeadsIn(step, s, t, k);
    assert LeadsIn(step, s, u, k + 1);
  }

  lemma {:induction false} ThroughIn<S(!new)>(step: (S, S) -> bool, s: S, t: S, u: S, k: nat)
    requires LeadsTo(step, s, t) && LeadsIn(step, t, u, k)
    ensures LeadsTo(step, s, u)
    decreases k
  {
    if k > 0 {
      var p :| LeadsIn(step, t, p, k - 1) && step(p, u);
      ThroughIn(step, s, t, p, k - 1);
      OneMore(step, s, p, u);
    }
  }

  lemma Through<S(!new)>(step: (S, S) -> bool, s: S, t: S, u: S)
    requires LeadsTo(step, s, t) && LeadsTo(step, t, u)
    ensures LeadsTo(step, s, u)
  {
    var k: nat :| LeadsIn(step, t, u, k);
    ThroughIn(step, s, t, u, k);
  }

  lemma {:induction false} KeepsIn<S(!new)>(step: (S, S) -> bool, inv: S -> bool, s: S, t: S, k: nat)
    requires inv(s) && LeadsIn(step, s, t, k)
    requires forall p, q :: inv(p) && step(p, q) ==> inv(q)
    ensures inv(t)
    decreases k
  {
    if k > 0 {
      var p :| LeadsIn(step, s, p, k - 1) && step(p, t);
      KeepsIn(step, inv, s, p, k - 1);
    }
  }

  /** What every step keeps holds in every state of every run. */
  lemma Keeps<S(!new)>(step: (S, S) -> bool, inv: S -> bool, s: S, t: S)
    requires inv(s) && LeadsTo(step, s, t)
    requires forall p, q :: inv(p) && step(p, q) ==> inv(q)
    ensures inv(t)
  {
    var k: nat :| LeadsIn(step, s, t, k);
    KeepsIn(step, inv, s, t, k);
  }
}
