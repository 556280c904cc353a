/** Runs of a step relation. */
module Runs {
  /** states[i] is the state before steps[i]. */
  ghost predicate Path<S(!new), A(!new)>(next: (S, A, S) -> bool, states: seq<S>, steps: seq<A>) {
    && |states| == |steps| + 1
    && forall i :: 0 <= i < |steps| ==> next(states[i], steps[i], states[i + 1])
  }

  lemma Extend<S(!new), A(!new)>(next: (S, A, S) -> bool, states: seq<S>, steps: seq<A>, a: A, s: S)
    requires Path(next, states, steps) && next(states[|steps|], a, s)
    ensures Path(next, states + [s], steps + [a])
  {
    var ss, aa := states + [s], steps + [a];
    forall i | 0 <= i < |aa| ensures next(ss[i], aa[i], ss[i + 1]) {
      if i < |steps| {
        assert ss[i] == states[i] && aa[i] == steps[i] && ss[i + 1] == states[i + 1];
      }
    }
  }

  lemma Suffix<S(!new), A(!new)>(next: (S, A, S) -> bool, states: seq<S>, steps: seq<A>, k: nat)
    requires Path(next, states, steps) && k <= |steps|
    ensures Path(next, states[k..], steps[k..])
  {
    forall i | 0 <= i < |steps| - k ensures next(states[k..][i], steps[k..][i], states[k..][i + 1]) {
      assert next(states[k + i], steps[k + i], states[k + i + 1]);
    }
  }

  lemma TwoSteps<S(!new), A(!new)>(next: (S, A, S) -> bool, s0: S, a0: A, s1: S, a1: A, s2: S)
    requires next(s0, a0, s1) && next(s1, a1, s2)
    ensures Path(next, [s0, s1, s2], [a0, a1])
  {
    Extend(next, [s0], [], a0, s1);
    Extend(next, [s0, s1], [a0], a1, s2);
  }

  lemma FourSteps<S(!new), A(!new)>(
    next: (S, A, S) -> bool, s0: S, a0: A, s1: S, a1: A, s2: S, a2: A, s3: S, a3: A, s4: S)
    requires next(s0, a0, s1) && next(s1, a1, s2) && next(s2, a2, s3) && next(s3, a3, s4)
    ensures Path(next, [s0, s1, s2, s3, s4], [a0, a1, a2, a3])
  {
    Extend(next, [s0], [], a0, s1);
    Extend(next, [s0, s1], [a0], a1, s2);
    Extend(next, [s0, s1, s2], [a0, a1], a2, s3);
    Extend(next, [s0, s1, s2, s3], [a0, a1, a2], a3, s4);
  }

  lemma FiveSteps<S(!new), A(!new)>(
    next: (S, A, S) -> bool, s0: S, a0: A, s1: S, a1: A, s2: S, a2: A, s3: S, a3: A, s4: S, a4: A, s5: S)
    requires next(s0, a0, s1) && next(s1, a1, s2) && next(s2, a2, s3) && next(s3, a3, s4) && next(s4, a4, s5)
    ensures Path(next, [s0, s1, s2, s3, s4, s5], [a0, a1, a2, a3, a4])
  {
    FourSteps(next, s0, a0, s1, a1, s2, a2, s3, a3, s4);
    Extend(next, [s0, s1, s2, s3, s4], [a0, a1, a2, a3], a4, s5);
  }

  /** A measure that every step from a good state lowers, to a good state, bounds the steps. */
  lemma {:induction false} Descends<S(!new)>(states: seq<S>, good: S -> bool, work: S -> int, k: nat, n: nat)
    requires k <= n < |states| && good(states[k])
    requires forall i :: k <= i < n && good(states[i]) ==> good(states[i + 1]) && work(states[i + 1]) < work(states[i])
    ensures good(states[n]) && work(states[n]) + (n - k) <= work(states[k])
  {
    if k < n {
      Descends(states, good, work, k, n - 1);
      assert good(states[n - 1]);
    }
  }

  /** A reflexive and transitive relation that every step keeps. */
  lemma {:induction false} Chains<S(!new)>(states: seq<S>, rel: (S, S) -> bool, m: nat, n: nat)
    requires m <= n < |states|
    requires forall s :: rel(s, s)
    requires forall s, t, u :: rel(s, t) && rel(t, u) ==> rel(s, u)
    requires forall i :: m <= i < n ==> rel(states[i], states[i + 1])
    ensures rel(states[m], states[n])
  {
    if m < n {
      Chains(states, rel, m, n - 1);
      assert rel(states[n - 1], states[n - 1 + 1]);
    }
  }
}
