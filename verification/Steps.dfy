/** Finite runs of a transition system given by its next-state relation. */
module Steps {

  /** n steps lead from one state to the other. */
  ghost predicate Reaches<S(!new)>(next: (S, S) -> bool, st: S, st': S, n: nat)
    decreases n
  {
    if n == 0 then st == st' else exists mid :: next(st, mid) && Reaches(next, mid, st', n - 1)
  }

  lemma {:induction false} Onward<S(!new)>(next: (S, S) -> bool, a: S, b: S, c: S, m: nat, n: nat)
    requires Reaches(next, a, b, m) && Reaches(next, b, c, n)
    ensures Reaches(next, a, c, m + n)
  {
    if m == 0 {
    } else {
      var mid :| next(a, mid) && Reaches(next, mid, b, m - 1);
      Onward(next, mid, b, c, m - 1, n);
    }
  }
}
