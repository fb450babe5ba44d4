/** When reconnect attempts are spaced, exactly: the 32-bit counter of failures wraps, and threads that were all
    connecting before it did can then open a window that is too short. */
module PoolLimits {
  import opened PoolRuns

  /** A run in which no reconnect succeeds. */
  ghost predicate Unlucky(run: seq<State>, steps: seq<Step>) {
    IsRun(run, steps) && NoSuccess(steps, 0, |steps|)
  }

  lemma Go(run: seq<State>, steps: seq<Step>, step: Step) returns (run': seq<State>, steps': seq<Step>)
    requires Unlucky(run, steps) && Enabled(run[|steps|], step) && !step.Succeed?
    ensures run' == run + [Apply(run[|steps|], step)] && steps' == steps + [step] && Unlucky(run', steps')
  {
    run', steps' := run + [Apply(run[|steps|], step)], steps + [step];
    forall i | 0 <= i < |steps'| ensures Enabled(run'[i], steps'[i]) && run'[i + 1] == Apply(run'[i], steps'[i]) {
      if i < |steps| { assert steps'[i] == steps[i] && run'[i] == run[i] && run'[i + 1] == run[i + 1]; }
    }
  }

  // A pool with a connection for each of `size` threads, all of them broken. Thread 0 fails again and again while the
  // others are connecting all along.

  function Upto(n: nat): seq<Conn> {
    seq(n, i => i)
  }

  function Broken(k: nat): (r: set<Conn>)
    ensures forall c: Conn :: c in r <==> c < k
  {
    if k == 0 then {} else Broken(k - 1) + {k - 1}
  }

  function Starting(size: nat, k: nat): State
    requires k <= size
  {
    State(size, Upto(size)[k..], map t: Thread | t < k :: Trying(t), Broken(k), 0, 0, 0, 0, 0, 0, 0)
  }

  lemma {:induction false} Start(size: nat, k: nat) returns (run: seq<State>, steps: seq<Step>)
    requires k <= size
    ensures Unlucky(run, steps) && run[|steps|] == Starting(size, k)
  {
    if k == 0 {
      run, steps := [State(size, Upto(size), map[], {}, 0, 0, 0, 0, 0, 0, 0)], [];
      assert Upto(size)[0..] == Upto(size);
      assert run[0] == Starting(size, 0);
    } else {
      run, steps := Start(size, k - 1);
      var s := run[|steps|];
      assert s.idle[0] == k - 1 && s.idle[1..] == Upto(size)[k..];
      run, steps := Go(run, steps, Break(k - 1));
      run, steps := Go(run, steps, Pop(k - 1));
      run, steps := Go(run, steps, Check(k - 1));
      assert run[|steps|] == Starting(size, k);
    }
  }

  /** What the other threads do: those below f have failed. */
  function Others(size: nat, f: nat): map<Thread, Holder> {
    map t: Thread | 1 <= t < size :: if t < f then Failing(t) else Trying(t)
  }

  function Between(
    size: nat, idle: seq<Conn>, holders: map<Thread, Holder>, n: nat, notBefore: nat, clock: nat): State {
    State(size, idle, holders, Broken(size), n % TWO_TO_THE_32, notBefore, 0, n, 0, clock, n)
  }

  /** Thread 0 is connecting too, after n failures. */
  function All(size: nat, n: nat): State {
    var notBefore := if n == 0 then 0 else 5000 * (n - 1) + Backoff(n % TWO_TO_THE_32);
    Between(size, [], Others(size, 1)[0 := Trying(0)], n, notBefore, 5000 * n)
  }

  /** A thread that failed gives its connection back, takes it again and tries again, once the window is over. */
  lemma Retry(
    run: seq<State>, steps: seq<Step>, size: nat, holders: map<Thread, Holder>, n: nat, notBefore: nat, clock: nat,
    time: nat)
    returns (run': seq<State>, steps': seq<Step>)
    requires Unlucky(run, steps) && run[|steps|] == Between(size, [], holders[0 := Failing(0)], n, notBefore, clock)
    requires size > 0 && 0 !in holders && notBefore <= clock + time
    ensures Unlucky(run', steps') && run <= run' && steps' == steps + [Pass(time), Drop(0), Pop(0), Check(0)]
    ensures run'[|steps'|] == Between(size, [], holders[0 := Trying(0)], n, notBefore, clock + time)
    ensures run'[|steps'| - 1].clock == clock + time && run'[|steps'| - 1].streak == n
  {
    run', steps' := Go(run, steps, Pass(time));
    run', steps' := Go(run', steps', Drop(0));
    assert holders[0 := Failing(0)] - {0} == holders;
    assert run'[|steps'|] == Between(size, [0], holders, n, notBefore, clock + time);
    run', steps' := Go(run', steps', Pop(0));
    assert run'[|steps'|] == Between(size, [], holders[0 := Popped(0)], n, notBefore, clock + time);
    run', steps' := Go(run', steps', Check(0));
    assert holders[0 := Popped(0)][0 := Trying(0)] == holders[0 := Trying(0)];
  }

  /** A connecting thread fails. */
  lemma FailOne(
    run: seq<State>, steps: seq<Step>, size: nat, holders: map<Thread, Holder>, n: nat, notBefore: nat, clock: nat,
    t: Thread)
    returns (run': seq<State>, steps': seq<Step>)
    requires Unlucky(run, steps) && run[|steps|] == Between(size, [], holders, n, notBefore, clock)
    requires t < size && t in holders && holders[t] == Trying(t)
    ensures Unlucky(run', steps') && run <= run' && steps' == steps + [Fail(t)]
    ensures var window := clock + Backoff((n + 1) % TWO_TO_THE_32);
      run'[|steps'|] == Between(size, [], holders[t := Failing(t)], n + 1, window, clock)
  {
    run', steps' := Go(run, steps, Fail(t));
    assert Broken(size) + {t} == Broken(size);
    assert (n % TWO_TO_THE_32 + 1) % TWO_TO_THE_32 == (n + 1) % TWO_TO_THE_32;
  }

  lemma StartAll(size: nat) returns (run: seq<State>, steps: seq<Step>)
    requires size > 0
    ensures Unlucky(run, steps) && run[|steps|] == All(size, 0)
  {
    run, steps := Start(size, size);
    assert Upto(size)[size..] == [];
    assert Starting(size, size).holders == Others(size, 1)[0 := Trying(0)];
  }

  /** Thread 0 fails any number of times in a row. */
  lemma {:induction false} Failures(size: nat, n: nat) returns (run: seq<State>, steps: seq<Step>)
    requires size > 0
    ensures Unlucky(run, steps) && run[|steps|] == All(size, n)
  {
    if n == 0 {
      run, steps := StartAll(size);
    } else {
      run, steps := Failures(size, n - 1);
      var rest := Others(size, 1);
      run, steps := FailOne(run, steps, size, rest[0 := Trying(0)], n - 1, run[|steps|].notBefore, 5000 * (n - 1), 0);
      assert rest[0 := Trying(0)][0 := Failing(0)] == rest[0 := Failing(0)];
      Windows();
      run, steps := Retry(run, steps, size, rest, n, run[|steps|].notBefore, 5000 * (n - 1), 5000);
    }
  }

  /** After thread 0 has failed for the n-th time, the threads from 1 to f - 1 fail at the same time. */
  lemma {:induction false} FailOthers(run: seq<State>, steps: seq<Step>, size: nat, n: nat, clock: nat, f: nat)
    returns (run': seq<State>, steps': seq<Step>)
    requires n > 0 && 1 <= f <= size && Unlucky(run, steps)
    requires run[|steps|] ==
      Between(size, [], Others(size, 1)[0 := Failing(0)], n, clock + Backoff(n % TWO_TO_THE_32), clock)
    ensures Unlucky(run', steps') && run <= run' && steps <= steps'
    ensures var m := n + f - 1;
      run'[|steps'|] ==
        Between(size, [], Others(size, f)[0 := Failing(0)], m, clock + Backoff(m % TWO_TO_THE_32), clock)
    decreases f
  {
    if f == 1 {
      run', steps' := run, steps;
    } else {
      run', steps' := FailOthers(run, steps, size, n, clock, f - 1);
      var holders := Others(size, f - 1)[0 := Failing(0)];
      run', steps' := FailOne(run', steps', size, holders, n + f - 2, run'[|steps'|].notBefore, clock, f - 1);
      assert holders[f - 1 := Failing(f - 1)] == Others(size, f)[0 := Failing(0)];
    }
  }

  /** All fail at the same time, and thread 0 tries again after the window of the last failure. */
  lemma TooSoon(n: nat, m: nat) returns (run: seq<State>, steps: seq<Step>, i: nat, j: nat)
    requires 0 < n < m && Backoff(m % TWO_TO_THE_32) < Backoff(n % TWO_TO_THE_32)
    ensures Attempt(run, steps, i, j) && run[i + 1].streak == n && run[j].streak == m && !Spaced(run, i, j)
  {
    var size, clock := m - n + 1, 5000 * (n - 1);
    run, steps := Failures(size, n - 1);
    i := |steps|;
    var rest := Others(size, 1);
    run, steps := FailOne(run, steps, size, rest[0 := Trying(0)], n - 1, run[|steps|].notBefore, clock, 0);
    assert rest[0 := Trying(0)][0 := Failing(0)] == rest[0 := Failing(0)];
    var failed := run;
    assert failed[i].clock == clock && failed[i + 1].streak == n && failed[i + 1].failures == n % TWO_TO_THE_32;
    assert steps[i] == Fail(0);
    run, steps := FailOthers(run, steps, size, n, clock, size);
    var window := Backoff(m % TWO_TO_THE_32);
    run, steps := Retry(run, steps, size, Others(size, size), m, clock + window, clock, window);
    j := |steps| - 1;
    assert run[i] == failed[i] && run[i + 1] == failed[i + 1];
  }

  /** When further failures, up to the m-th in a row, follow the n-th, every run keeps the window of the n-th. */
  ghost predicate AlwaysSpaced(n: nat, m: nat) {
    forall run: seq<State>, steps: seq<Step>, i: nat, j: nat ::
      Attempt(run, steps, i, j) && run[i + 1].streak == n && run[j].streak == m ==> Spaced(run, i, j)
  }

  /** That is so exactly when the window of the m-th failure is not shorter. */
  lemma SpacedExactly(n: nat, m: nat)
    requires 0 < n <= m
    ensures AlwaysSpaced(n, m) <==> Backoff(n % TWO_TO_THE_32) <= Backoff(m % TWO_TO_THE_32)
  {
    if Backoff(m % TWO_TO_THE_32) < Backoff(n % TWO_TO_THE_32) {
      var run, steps, i, j := TooSoon(n, m);
      assert Attempt(run, steps, i, j);
    } else {
      forall run: seq<State>, steps: seq<Step>, i: nat, j: nat
        | Attempt(run, steps, i, j) && run[i + 1].streak == n && run[j].streak == m
        ensures Spaced(run, i, j)
      {
        CountsStreak(run, steps, i + 1);
        CountsStreak(run, steps, j);
        AttemptsAreSpaced(run, steps, i, j);
      }
    }
  }
}
