/** Reachability in a transition system given by its step relation. */
module Paths {

  ghost predicate IsPath<S(!new)>(step: (S, S) -> bool, run: seq<S>) {
    |run| >= 1 && forall i :: 0 <= i < |run| - 1 ==> step(run[i], run[i + 1])
  }

  /** Some sequence of steps leads from s to s'. */
  ghost predicate Reaches<S(!new)>(step: (S, S) -> bool, s: S, s': S) {
    exists run :: IsPath(step, run) && run[0] == s && run[|run| - 1] == s'
  }

  lemma ReachesSelf<S(!new)>(step: (S, S) -> bool, s: S)
    ensures Reaches(step, s, s)
  {
    assert IsPath(step, [s]);
  }

  lemma StepThenReach<S(!new)>(step: (S, S) -> bool, s: S, s1: S, s2: S)
    requires step(s, s1) && Reaches(step, s1, s2)
    ensures Reaches(step, s, s2)
  {
    var run :| IsPath(step, run) && run[0] == s1 && run[|run| - 1] == s2;
    var run' := [s] + run;
    forall i | 0 <= i < |run'| - 1
      ensures step(run'[i], run'[i + 1])
    {
      if i > 0 {
        assert step(run[i - 1], run[i]);
      }
    }
    assert IsPath(step, run');
  }

  lemma ReachThenStep<S(!new)>(step: (S, S) -> bool, s: S, s1: S, s2: S)
    requires Reaches(step, s, s1) && step(s1, s2)
    ensures Reaches(step, s, s2)
  {
    ReachesSelf(step, s2);
    StepThenReach(step, s1, s2, s2);
    ReachTrans(step, s, s1, s2);
  }

  lemma ReachTrans<S(!new)>(step: (S, S) -> bool, s: S, s1: S, s2: S)
    requires Reaches(step, s, s1) && Reaches(step, s1, s2)
    ensures Reaches(step, s, s2)
  {
    var run :| IsPath(step, run) && run[0] == s && run[|run| - 1] == s1;
    PathThenReach(step, run, s2);
  }

  lemma {:induction false} PathThenReach<S(!new)>(step: (S, S) -> bool, run: seq<S>, s2: S)
    requires IsPath(step, run) && Reaches(step, run[|run| - 1], s2)
    ensures Reaches(step, run[0], s2)
    decreases |run|
  {
    if |run| > 1 {
      var rest := run[1..];
      forall i | 0 <= i < |rest| - 1
        ensures step(rest[i], rest[i + 1])
      {
        assert step(run[i + 1], run[i + 2]);
      }
      PathThenReach(step, rest, s2);
      StepThenReach(step, run[0], run[1], s2);
    }
  }

  /** Along a path that ends where `ok` holds, steps are steps of another system too, if `ok` is passed back by them. */
  lemma {:induction false} SimulatedAlong<S(!new), T(!new)>(step: (S, S) -> bool, step': (T, T) -> bool, f: S -> T, ok: S -> bool,
                                                            run: seq<S>, n: nat)
    requires IsPath(step, run) && n < |run| && ok(run[n])
    requires forall a, b {:trigger step(a, b)} :: step(a, b) && ok(b) ==> ok(a) && step'(f(a), f(b))
    ensures Reaches(step', f(run[0]), f(run[n]))
  {
    if n == 0 {
      ReachesSelf(step', f(run[0]));
    } else {
      assert step(run[n - 1], run[n]);
      SimulatedAlong(step, step', f, ok, run, n - 1);
      ReachThenStep(step', f(run[0]), f(run[n - 1]), f(run[n]));
    }
  }

  /** The same for reachability. */
  lemma SimulatedReach<S(!new), T(!new)>(step: (S, S) -> bool, step': (T, T) -> bool, f: S -> T, ok: S -> bool, s: S, s': S)
    requires Reaches(step, s, s') && ok(s')
    requires forall a, b {:trigger step(a, b)} :: step(a, b) && ok(b) ==> ok(a) && step'(f(a), f(b))
    ensures Reaches(step', f(s), f(s'))
  {
    var run :| IsPath(step, run) && run[0] == s && run[|run| - 1] == s';
    SimulatedAlong(step, step', f, ok, run, |run| - 1);
  }

  /** What holds at the start and is kept by every step holds in every reachable state. */
  lemma {:induction false} KeptAlong<S(!new)>(step: (S, S) -> bool, inv: S -> bool, run: seq<S>, i: nat)
    requires IsPath(step, run) && i < |run|
    requires inv(run[0]) && forall a, b {:trigger step(a, b)} :: inv(a) && step(a, b) ==> inv(b)
    ensures inv(run[i])
  {
    if i > 0 {
      KeptAlong(step, inv, run, i - 1);
      assert step(run[i - 1], run[i]);
    }
  }

  /** The same for reachability. */
  lemma KeptByReach<S(!new)>(step: (S, S) -> bool, inv: S -> bool, s: S, s': S)
    requires Reaches(step, s, s') && inv(s)
    requires forall a, b {:trigger step(a, b)} :: inv(a) && step(a, b) ==> inv(b)
    ensures inv(s')
  {
    var run :| IsPath(step, run) && run[0] == s && run[|run| - 1] == s';
    KeptAlong(step, inv, run, |run| - 1);
  }
}
