/** One induction for all statements of the form: it holds throughout exactly when no step breaks it. */
module Runs {

  /**
   * If from a good state the next one is good exactly when the step is allowed, then all states
   * are good exactly when all steps are allowed.
   */
  lemma {:induction false} ThroughoutIff(good: nat -> bool, allowed: nat -> bool, n: nat)
    requires good(0) && forall i: nat :: i < n && good(i) ==> (good(i + 1) <==> allowed(i))
    ensures (forall i: nat :: i <= n ==> good(i)) <==> (forall i: nat :: i < n ==> allowed(i))
  {
    if n > 0 {
      ThroughoutIff(good, allowed, n - 1);
      if good(n - 1) { assert good(n - 1 + 1) <==> allowed(n - 1); }
    }
  }
}
