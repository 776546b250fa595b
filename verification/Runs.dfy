/** Runs of a state machine, given by its step: a schedule of actions, the last one last. */
module Runs {

  function Exec<S, A>(step: (S, A) -> S, s: S, schedule: seq<A>): S {
    if schedule == [] then s else step(Exec(step, s, schedule[..|schedule| - 1]), schedule[|schedule| - 1])
  }

  /** One action more. */
  lemma {:induction false} Snoc<S, A>(step: (S, A) -> S, s: S, schedule: seq<A>, a: A)
    ensures Exec(step, s, schedule + [a]) == step(Exec(step, s, schedule), a)
  {
    assert (schedule + [a])[..|schedule|] == schedule;
  }

  /** One schedule after another. */
  lemma {:induction false} Joins<S, A>(step: (S, A) -> S, s: S, one: seq<A>, other: seq<A>)
    ensures Exec(step, s, one + other) == Exec(step, Exec(step, s, one), other)
  {
    if other == [] {
      assert one + other == one;
    } else {
      var n := |other| - 1;
      Joins(step, s, one, other[..n]);
      assert (one + other)[..|one + other| - 1] == one + other[..n];
    }
  }

  // ---------- short schedules, step by step ----------

  lemma {:induction false} Four<S, A>(step: (S, A) -> S, s: S, a: A, b: A, c: A, d: A)
    ensures Exec(step, s, []) == s && Exec(step, s, [a]) == step(s, a)
    ensures Exec(step, s, [a, b]) == step(step(s, a), b)
    ensures Exec(step, s, [a, b, c]) == step(step(step(s, a), b), c)
    ensures Exec(step, s, [a, b, c, d]) == step(step(step(step(s, a), b), c), d)
  {
    assert [] + [a] == [a] && [a] + [b] == [a, b] && [a, b] + [c] == [a, b, c] && [a, b, c] + [d] == [a, b, c, d];
    Snoc(step, s, [], a);
    Snoc(step, s, [a], b);
    Snoc(step, s, [a, b], c);
    Snoc(step, s, [a, b, c], d);
  }

  lemma {:induction false} Five<S, A>(step: (S, A) -> S, s: S, five: seq<A>)
    requires |five| == 5
    ensures Exec(step, s, five) == step(step(step(step(step(s, five[0]), five[1]), five[2]), five[3]), five[4])
  {
    var four := [five[0], five[1], five[2], five[3]];
    Four(step, s, five[0], five[1], five[2], five[3]);
    Snoc(step, s, four, five[4]);
    assert five == four + [five[4]];
  }

  lemma {:induction false} Six<S, A>(step: (S, A) -> S, s: S, six: seq<A>)
    requires |six| == 6
    ensures Exec(step, s, six) ==
            step(step(step(step(step(step(s, six[0]), six[1]), six[2]), six[3]), six[4]), six[5])
  {
    Five(step, s, six[..5]);
    Snoc(step, s, six[..5], six[5]);
    assert six == six[..5] + [six[5]];
  }
}
