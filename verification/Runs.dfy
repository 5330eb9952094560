/** Runs of a partial step function. */
module Runs {
  import opened Words

  ghost function Iterate<S>(step: S -> Option<S>, s: S, n: nat): Option<S>
    decreases n
  {
    if n == 0 then Some(s)
    else match step(s) case None => None case Some(s1) => Iterate(step, s1, n - 1)
  }

  lemma {:induction false} IterateSplit<S>(step: S -> Option<S>, s: S, a: nat, b: nat)
    ensures Iterate(step, s, a + b) == match Iterate(step, s, a) case None => None case Some(s1) => Iterate(step, s1, b)
    decreases a
  {
    if a > 0 {
      match step(s)
      case None =>
      case Some(s1) => IterateSplit(step, s1, a - 1, b);
    }
  }

  /** The state a steps into a run of n. */
  lemma {:induction false} IterateTo<S>(step: S -> Option<S>, s: S, a: nat, n: nat) returns (s1: S)
    requires a <= n && Iterate(step, s, n).Some?
    ensures Iterate(step, s, a) == Some(s1) && Iterate(step, s1, n - a) == Iterate(step, s, n)
  {
    IterateSplit(step, s, a, n - a);
    s1 := Iterate(step, s, a).value;
  }

  ghost predicate Extends<S>(step: S -> Option<S>, more: S -> Option<S>, s: S) { step(s).Some? ==> more(s) == step(s) }

  /** A run of a step function is one of every step function that goes on where it does. */
  lemma {:induction false} IterateExtends<S(!new)>(step: S -> Option<S>, more: S -> Option<S>, s: S, n: nat)
    requires (forall s :: Extends(step, more, s)) && Iterate(step, s, n).Some?
    ensures Iterate(more, s, n) == Iterate(step, s, n)
    decreases n
  {
    if n > 0 {
      assert Extends(step, more, s);
      IterateExtends(step, more, step(s).value, n - 1);
    }
  }

  /** Runs that stop for a moment: `rest(c)` says the specification may stop at c. */
  ghost predicate Stops<C>(spec: C -> Option<C>, rest: C -> bool, c: C, n: nat) {
    rest(c) && Iterate(spec, c, n).Some? && rest(Iterate(spec, c, n).value)
  }

  /** A run from c that stops is, for its first `len` steps, matched by one or two steps of
      the implementation, up to a stop on the way. */
  ghost predicate Matched<S, C>(impl: S -> Option<S>, spec: C -> Option<C>, rep: (S, C) -> bool, rest: C -> bool,
                                s: S, c: C, n: nat, s1: S, i: nat, c1: C, len: nat) {
    && 1 <= i <= 2 && 0 < len <= n && Iterate(impl, s, i) == Some(s1) && rep(s1, c1) && rest(c1)
    && Iterate(spec, c1, n - len) == Iterate(spec, c, n)
  }

  ghost predicate Matches<S(!new), C(!new)>(
    impl: S -> Option<S>, spec: C -> Option<C>, rep: (S, C) -> bool, rest: C -> bool, s: S, c: C, n: nat)
  {
    rep(s, c) && n > 0 && Stops(spec, rest, c, n) ==>
      exists s1, i, c1, len :: Matched(impl, spec, rep, rest, s, c, n, s1, i, c1, len)
  }

  ghost predicate Simulates<S(!new), C(!new)>(
    impl: S -> Option<S>, spec: C -> Option<C>, rep: (S, C) -> bool, rest: C -> bool)
  {
    forall s, c, n :: Matches(impl, spec, rep, rest, s, c, n)
  }

  ghost predicate Reaches<S(!new), C>(impl: S -> Option<S>, rep: (S, C) -> bool, s: S, c: C, most: int) {
    exists k :: 0 <= k <= most && Iterate(impl, s, k).Some? && rep(Iterate(impl, s, k).value, c)
  }

  lemma {:induction false} ReachesAfter<S(!new), C>(
    impl: S -> Option<S>, rep: (S, C) -> bool, s: S, s1: S, i: nat, c: C, most: int, total: int)
    requires Iterate(impl, s, i) == Some(s1) && Reaches(impl, rep, s1, c, most) && i + most <= total
    ensures Reaches(impl, rep, s, c, total)
  {
    var k :| 0 <= k <= most && Iterate(impl, s1, k).Some? && rep(Iterate(impl, s1, k).value, c);
    IterateSplit(impl, s, i, k);
    assert Iterate(impl, s, i + k).Some? && rep(Iterate(impl, s, i + k).value, c);
  }

  /** Wherever the specification stops after n steps, the implementation gets in at most 2n. */
  lemma {:induction false} SimulationRun<S(!new), C(!new)>(
    impl: S -> Option<S>, spec: C -> Option<C>, rep: (S, C) -> bool, rest: C -> bool, s: S, c: C, n: nat)
    requires Simulates(impl, spec, rep, rest) && rep(s, c) && Stops(spec, rest, c, n)
    ensures Reaches(impl, rep, s, Iterate(spec, c, n).value, 2 * n)
    decreases n
  {
    if n == 0 {
      assert Iterate(impl, s, 0) == Some(s);
    } else {
      assert Matches(impl, spec, rep, rest, s, c, n);
      var s1, i, c1, len :| Matched(impl, spec, rep, rest, s, c, n, s1, i, c1, len);
      SimulationRun(impl, spec, rep, rest, s1, c1, n - len);
      ReachesAfter(impl, rep, s, s1, i, Iterate(spec, c, n).value, 2 * (n - len), 2 * n);
    }
  }
}
