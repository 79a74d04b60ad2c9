/** When steps fail: a schedule says which do, counted in the order they are taken. */
module Schedules {

  /** None of the steps from `from` up to `to` fails. */
  ghost predicate NoFault(fails: set<nat>, from: nat, to: nat) {
    to <= from || (to - 1 !in fails && NoFault(fails, from, to - 1))
  }

  /** The last step before `to` is the first from `from` on that fails. */
  ghost predicate FirstFault(fails: set<nat>, from: nat, to: nat) {
    from < to && to - 1 in fails && NoFault(fails, from, to - 1)
  }

  lemma {:induction false} NoFaultMeans(fails: set<nat>, from: nat, to: nat)
    ensures NoFault(fails, from, to) <==> forall t: nat :: from <= t < to ==> t !in fails
  {
    if from < to { NoFaultMeans(fails, from, to - 1); }
  }

  lemma NoFaultAdds(fails: set<nat>, a: nat, b: nat, c: nat)
    requires a <= b <= c
    ensures NoFault(fails, a, c) <==> NoFault(fails, a, b) && NoFault(fails, b, c)
  {
    NoFaultMeans(fails, a, b);
    NoFaultMeans(fails, b, c);
    NoFaultMeans(fails, a, c);
  }

  /** Steps that go through, and then others. */
  lemma NoFaultThen(fails: set<nat>, a: nat, b: nat, c: nat)
    requires a <= b <= c && NoFault(fails, a, b)
    ensures NoFault(fails, b, c) ==> NoFault(fails, a, c)
    ensures FirstFault(fails, b, c) ==> FirstFault(fails, a, c)
  {
    NoFaultAdds(fails, a, b, c);
    if b < c { NoFaultAdds(fails, a, b, c - 1); }
  }

  lemma FirstFaultIsFault(fails: set<nat>, from: nat, to: nat, later: nat)
    requires FirstFault(fails, from, to) && to <= later
    ensures !NoFault(fails, from, later)
  {
    NoFaultAdds(fails, from, to, later);
  }

  /** A call that took the steps from `from` to `to`, `limit` of them when it went through: it went through
      only without a failed step, and where nothing but a failed step could stop it, the first one did. */
  ghost predicate Took(fails: set<nat>, from: nat, to: nat, limit: nat, ok: bool, onlyFaults: bool) {
    && from <= to <= from + limit
    && (ok ==> to == from + limit && NoFault(fails, from, to))
    && (onlyFaults && !ok ==> FirstFault(fails, from, to))
  }

  lemma OneStep(fails: set<nat>, t: nat)
    ensures if t in fails then FirstFault(fails, t, t + 1) else NoFault(fails, t, t + 1)
  {
    assert NoFault(fails, t, t);
  }

  /** One call after another: the second is made only if the first went through. */
  lemma TookBoth(fails: set<nat>, a: nat, b: nat, c: nat, first: nat, second: nat, ok: bool, onlyFaults: bool)
    requires Took(fails, a, b, first, true, true) && Took(fails, b, c, second, ok, onlyFaults)
    ensures Took(fails, a, c, first + second, ok, onlyFaults)
  {
    NoFaultThen(fails, a, b, c);
  }

  /** By the schedule alone: such a call went through exactly if none of its steps fails, and it stopped
      after `to` exactly if the step before is the first to fail. */
  lemma TookMeans(fails: set<nat>, from: nat, to: nat, limit: nat, ok: bool, at: nat)
    requires Took(fails, from, to, limit, ok, true) && from < at <= from + limit
    ensures ok <==> NoFault(fails, from, from + limit)
    ensures !ok && to == at <==> FirstFault(fails, from, at)
  {
    if !ok { FirstFaultIsFault(fails, from, to, from + limit); }
    if FirstFault(fails, from, at) {
      FirstFaultIsFault(fails, from, at, from + limit);
      if to < at { FirstFaultIsFault(fails, from, to, at - 1); }
      if at < to { FirstFaultIsFault(fails, from, at, to - 1); }
    }
  }

  lemma SingleFault(step: nat, later: nat)
    ensures FirstFault({step}, 0, step + 1) && NoFault({step}, step + 1, later)
  {
    NoFaultMeans({step}, 0, step);
    NoFaultMeans({step}, step + 1, later);
  }

  /** How many steps of a call went through. */
  function Through(from: nat, to: nat, ok: bool): int {
    to - from - if ok then 0 else 1
  }
}
