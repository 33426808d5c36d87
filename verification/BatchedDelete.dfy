/** Choosing a bounded batch of a selection. */
module BatchedDelete {
  /** Some `n` of the elements of `s`. */
  lemma {:induction false} SomeOf<T>(s: set<T>, n: nat) returns (batch: set<T>)
    requires n <= |s|
    ensures batch <= s && |batch| == n
  {
    if n == 0 {
      batch := {};
    } else {
      var x :| x in s;
      batch := SomeOf(s - {x}, n - 1);
      batch := batch + {x};
    }
  }

  lemma {:induction false} AllOfThem<T>(taken: set<T>, selected: set<T>)
    requires taken <= selected && |taken| == |selected|
    ensures taken == selected
  {
    assert selected == taken + (selected - taken);
  }
}
