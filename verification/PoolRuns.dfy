/** The connection pool's critical sections (core/include/db/DBPool.hpp, core/src/db/DBPool.cpp) under every
    interleaving of the threads that acquire, repair and release. Time is the steady clock in milliseconds. */
module PoolRuns {
  type Conn = nat
  type Thread = nat

  const BACKOFF_BASE := 250
  const BACKOFF_MAX := 5000
  const TWO_TO_THE_32 := 0x1_0000_0000

  function Doubled(base: nat, shift: nat): nat {
    if shift == 0 then base else 2 * Doubled(base, shift - 1)
  }

  function Min(a: nat, b: nat): nat {
    if a < b then a else b
  }

  /** The window after the given value of the 32-bit counter of consecutive failures. */
  function Backoff(failures: nat): nat {
    Min(BACKOFF_MAX, Doubled(BACKOFF_BASE, Min((failures - 1) % TWO_TO_THE_32, 5)))
  }

  datatype Holder =
    | Popped(conn: Conn)     // taken from the pool, its health not looked at yet
    | Trying(conn: Conn)     // reconnecting, outside the lock
    | Using(conn: Conn)      // acquire() or repair() returned
    | Failing(conn: Conn)    // an exception is about to hand the connection back

  datatype State = State(
    size: nat, idle: seq<Conn>, holders: map<Thread, Holder>, broken: set<Conn>,
    failures: nat, notBefore: nat, reconnects: nat, reconnectFailures: nat, timeouts: nat,
    clock: nat, streak: nat)   // streak: failures since the last success, unbounded

  datatype Step =
    | Pass(time: nat)
    | Break(conn: Conn)
    | Pop(t: Thread)
    | TimeOut
    | Look(t: Thread)          // a healthy connection is handed out
    | Check(t: Thread)         // the connection is to be replaced: inside the window or not
    | Fail(t: Thread)
    | Succeed(t: Thread)
    | Drop(t: Thread)

  predicate Init(s: State) {
    s == State(s.size, seq(s.size, i => i), map[], {}, 0, 0, 0, 0, 0, 0, 0)
  }

  predicate Enabled(s: State, step: Step) {
    match step
    case Pass(_) => true
    case Break(_) => true
    case Pop(t) => s.idle != [] && t !in s.holders
    case TimeOut => s.idle == []
    case Look(t) => t in s.holders && s.holders[t].Popped? && s.holders[t].conn !in s.broken
    case Check(t) =>
      t in s.holders && ((s.holders[t].Popped? && s.holders[t].conn in s.broken) || s.holders[t].Using?)
    case Fail(t) => t in s.holders && s.holders[t].Trying?
    case Succeed(t) => t in s.holders && s.holders[t].Trying?
    case Drop(t) => t in s.holders && (s.holders[t].Using? || s.holders[t].Failing?)
  }

  function Apply(s: State, step: Step): State
    requires Enabled(s, step)
  {
    match step
    case Pass(time) => s.(clock := s.clock + time)
    case Break(c) => s.(broken := s.broken + {c})
    case Pop(t) => s.(idle := s.idle[1..], holders := s.holders[t := Popped(s.idle[0])])
    case TimeOut => s.(timeouts := s.timeouts + 1)
    case Look(t) => s.(holders := s.holders[t := Using(s.holders[t].conn)])
    case Check(t) =>
      var c := s.holders[t].conn;
      s.(holders := s.holders[t := if s.clock < s.notBefore then Failing(c) else Trying(c)])
    case Fail(t) =>
      var failures := (s.failures + 1) % TWO_TO_THE_32;
      s.(holders := s.holders[t := Failing(s.holders[t].conn)], broken := s.broken + {s.holders[t].conn},
         reconnectFailures := s.reconnectFailures + 1, failures := failures, streak := s.streak + 1,
         notBefore := s.clock + Backoff(failures))
    case Succeed(t) =>
      s.(holders := s.holders[t := Using(s.holders[t].conn)], broken := s.broken - {s.holders[t].conn},
         reconnects := s.reconnects + 1, failures := 0, streak := 0, notBefore := 0)
    case Drop(t) => s.(idle := s.idle + [s.holders[t].conn], holders := s.holders - {t})
  }

  ghost predicate IsRun(run: seq<State>, steps: seq<Step>) {
    && |run| == |steps| + 1 && Init(run[0])
    && forall i {:trigger steps[i]} :: 0 <= i < |steps| ==>
      Enabled(run[i], steps[i]) && run[i + 1] == Apply(run[i], steps[i])
  }

  // ---- conservation ------------------------------------------------------------------------------------------

  predicate Distinct(idle: seq<Conn>) {
    forall i, j :: 0 <= i < j < |idle| ==> idle[i] != idle[j]
  }

  ghost predicate Held(holders: map<Thread, Holder>, c: Conn) {
    exists t :: t in holders && holders[t].conn == c
  }

  ghost predicate Covered(size: nat, idle: seq<Conn>, holders: map<Thread, Holder>) {
    forall c: Conn :: c < size && c !in idle ==> Held(holders, c)
  }

  ghost predicate HeldOnce(size: nat, idle: seq<Conn>, holders: map<Thread, Holder>) {
    && (forall t :: t in holders ==> holders[t].conn < size && holders[t].conn !in idle)
    && (forall t, u :: t in holders && u in holders && t != u ==> holders[t].conn != holders[u].conn)
  }

  /** Every slot is idle once or held by one thread, and there are as many as the pool was made with. */
  ghost predicate Conserved(size: nat, idle: seq<Conn>, holders: map<Thread, Holder>) {
    && Distinct(idle) && (forall i :: 0 <= i < |idle| ==> idle[i] < size)
    && HeldOnce(size, idle, holders) && Covered(size, idle, holders) && |idle| + |holders| == size
  }

  ghost predicate SameConns(holders: map<Thread, Holder>, now: map<Thread, Holder>) {
    && (forall t :: t in now ==> t in holders && now[t].conn == holders[t].conn)
    && (forall t :: t in holders ==> t in now)
  }

  /** Changing what threads do with their connections. */
  lemma Rephase(size: nat, idle: seq<Conn>, holders: map<Thread, Holder>, now: map<Thread, Holder>)
    requires Conserved(size, idle, holders) && SameConns(holders, now)
    ensures Conserved(size, idle, now)
  {
    forall c: Conn | c < size && c !in idle ensures Held(now, c) {
      assert Held(holders, c);
      var u :| u in holders && holders[u].conn == c;
      assert u in now && now[u].conn == c;
    }
    assert |now| == |holders| by {
      assert now.Keys == holders.Keys;
      assert |now| == |now.Keys| && |holders| == |holders.Keys|;
    }
  }

  lemma PopCovers(size: nat, idle: seq<Conn>, holders: map<Thread, Holder>, t: Thread)
    requires Covered(size, idle, holders) && idle != [] && t !in holders
    ensures Covered(size, idle[1..], holders[t := Popped(idle[0])])
  {
    var now := holders[t := Popped(idle[0])];
    forall c: Conn | c < size && c !in idle[1..] ensures Held(now, c) {
      if c == idle[0] {
        assert t in now && now[t].conn == c;
      } else {
        assert idle == [idle[0]] + idle[1..];
        assert Held(holders, c);
        var u :| u in holders && holders[u].conn == c;
        assert u in now && now[u].conn == c;
      }
    }
  }

  lemma PopKeeps(size: nat, idle: seq<Conn>, holders: map<Thread, Holder>, t: Thread)
    requires Conserved(size, idle, holders) && idle != [] && t !in holders
    ensures Conserved(size, idle[1..], holders[t := Popped(idle[0])])
  {
    PopCovers(size, idle, holders, t);
    assert idle[0] !in idle[1..];
    assert forall c :: c in idle[1..] ==> c in idle;
  }

  lemma DropKeeps(size: nat, idle: seq<Conn>, holders: map<Thread, Holder>, t: Thread)
    requires Conserved(size, idle, holders) && t in holders
    ensures Conserved(size, idle + [holders[t].conn], holders - {t})
  {
    var now, queue := holders - {t}, idle + [holders[t].conn];
    assert queue[|idle|] == holders[t].conn;
    forall c: Conn | c < size && c !in queue ensures Held(now, c) {
      assert c !in idle && Held(holders, c);
      var u :| u in holders && holders[u].conn == c;
      assert u in now && now[u].conn == c;
    }
    assert holders.Keys == now.Keys + {t};
    assert |now| == |now.Keys| && |holders| == |holders.Keys|;
  }

  lemma StepKeeps(s: State, step: Step)
    requires Conserved(s.size, s.idle, s.holders) && Enabled(s, step)
    ensures var s' := Apply(s, step); Conserved(s'.size, s'.idle, s'.holders) && s'.size == s.size
  {
    match step
    case Pop(t) => PopKeeps(s.size, s.idle, s.holders, t);
    case Drop(t) => DropKeeps(s.size, s.idle, s.holders, t);
    case Look(t) => Rephase(s.size, s.idle, s.holders, Apply(s, step).holders);
    case Check(t) => Rephase(s.size, s.idle, s.holders, Apply(s, step).holders);
    case Fail(t) => Rephase(s.size, s.idle, s.holders, Apply(s, step).holders);
    case Succeed(t) => Rephase(s.size, s.idle, s.holders, Apply(s, step).holders);
    case _ =>
  }

  lemma InitConserved(s: State)
    requires Init(s)
    ensures Conserved(s.size, s.idle, s.holders)
  {
    forall c: Conn | c < s.size ensures c in s.idle { assert s.idle[c] == c; }
  }

  /** No slot is lost, duplicated or invented, on any path of any thread. */
  lemma {:induction false} RunsConserve(run: seq<State>, steps: seq<Step>, i: nat)
    requires IsRun(run, steps) && i < |run|
    ensures Conserved(run[i].size, run[i].idle, run[i].holders) && run[i].size == run[0].size
  {
    if i == 0 {
      InitConserved(run[0]);
    } else {
      RunsConserve(run, steps, i - 1);
      assert run[i] == Apply(run[i - 1], steps[i - 1]);
      StepKeeps(run[i - 1], steps[i - 1]);
    }
  }

  // ---- FIFO --------------------------------------------------------------------------------------------------

  function Pops(steps: seq<Step>, i: nat, j: nat): nat
    requires i <= j <= |steps|
    decreases j
  {
    if i == j then 0 else Pops(steps, i, j - 1) + if steps[j - 1].Pop? then 1 else 0
  }

  /** A connection with k others ahead of it moves up by one for each acquire, and the (k+1)-th acquire gets it. */
  lemma {:induction false} Fifo(run: seq<State>, steps: seq<Step>, i: nat, j: nat, k: nat)
    requires IsRun(run, steps) && i <= j <= |steps| && k < |run[i].idle| && Pops(steps, i, j) <= k
    ensures Pops(steps, i, j) <= k < |run[j].idle| + Pops(steps, i, j)
    ensures run[j].idle[k - Pops(steps, i, j)] == run[i].idle[k]
    ensures j < |steps| && steps[j].Pop? && Pops(steps, i, j) == k ==>
      steps[j].t in run[j + 1].holders && run[j + 1].holders[steps[j].t] == Popped(run[i].idle[k])
    decreases j
  {
    if i < j {
      Fifo(run, steps, i, j - 1, k);
      assert run[j] == Apply(run[j - 1], steps[j - 1]);
    }
    if j < |steps| {
      assert run[j + 1] == Apply(run[j], steps[j]);
    }
  }

  // ---- backoff -----------------------------------------------------------------------------------------------

  lemma {:induction false} DoubledGrows(base: nat, m: nat, n: nat)
    requires m <= n
    ensures Doubled(base, m) <= Doubled(base, n)
  {
    if m < n { DoubledGrows(base, m, n - 1); }
  }

  lemma Remainder(n: nat)
    requires n > 0
    ensures (n % TWO_TO_THE_32 - 1) % TWO_TO_THE_32 == (n - 1) % TWO_TO_THE_32
  {
  }

  /** The window after the n-th failure in a row does not shrink with n as long as the counter does not wrap. */
  lemma BackoffGrows(m: nat, n: nat)
    requires 1 <= m <= n && (m - 1) / TWO_TO_THE_32 == (n - 1) / TWO_TO_THE_32
    ensures Backoff(m % TWO_TO_THE_32) <= Backoff(n % TWO_TO_THE_32)
  {
    Remainder(m);
    Remainder(n);
    DoubledGrows(BACKOFF_BASE, Min((m - 1) % TWO_TO_THE_32, 5), Min((n - 1) % TWO_TO_THE_32, 5));
  }

  /** It shrinks from one failure to the next exactly after a multiple of 2^32 of them, and then to the shortest. */
  lemma BackoffShrinks(n: nat)
    requires n > 0
    ensures Backoff((n + 1) % TWO_TO_THE_32) < Backoff(n % TWO_TO_THE_32) <==> n % TWO_TO_THE_32 == 0
    ensures n % TWO_TO_THE_32 == 0 ==> Backoff((n + 1) % TWO_TO_THE_32) == 250 && Backoff(n % TWO_TO_THE_32) == 5000
  {
    Windows();
    if n % TWO_TO_THE_32 == 0 {
      assert (n + 1) % TWO_TO_THE_32 == 1;
    } else {
      assert (n - 1) / TWO_TO_THE_32 == n / TWO_TO_THE_32;
      BackoffGrows(n, n + 1);
    }
  }

  lemma {:induction false} CountsStreak(run: seq<State>, steps: seq<Step>, i: nat)
    requires IsRun(run, steps) && i < |run|
    ensures run[i].failures == run[i].streak % TWO_TO_THE_32
  {
    if i > 0 {
      CountsStreak(run, steps, i - 1);
      assert run[i] == Apply(run[i - 1], steps[i - 1]);
    }
  }

  ghost predicate NoSuccess(steps: seq<Step>, i: nat, j: nat)
    requires i <= j <= |steps|
  {
    forall k :: i <= k < j ==> !steps[k].Succeed?
  }

  /** While nothing succeeds, the window is the one of the latest failure, counted from no earlier than an earlier
      one. */
  lemma {:induction false} WindowHolds(run: seq<State>, steps: seq<Step>, i: nat, j: nat)
    requires IsRun(run, steps) && i < j <= |steps| && steps[i].Fail? && NoSuccess(steps, i, j)
    ensures run[i].streak + 1 <= run[j].streak && run[i].clock <= run[j].clock
    ensures run[j].notBefore >= run[i].clock + Backoff(run[j].failures)
    decreases j
  {
    assert Enabled(run[j - 1], steps[j - 1]) && run[j] == Apply(run[j - 1], steps[j - 1]);
    if i + 1 < j { WindowHolds(run, steps, i, j - 1); }
  }

  /** A reconnect fails and later, with no success in between, another one starts. */
  ghost predicate Attempt(run: seq<State>, steps: seq<Step>, i: nat, j: nat) {
    && IsRun(run, steps) && i < j < |steps| && steps[i].Fail? && NoSuccess(steps, i, j)
    && steps[j].Check? && steps[j].t in run[j + 1].holders && run[j + 1].holders[steps[j].t].Trying?
  }

  /** The second one starts after the window of the first failure. */
  ghost predicate Spaced(run: seq<State>, i: nat, j: nat)
    requires i < j < |run|
  {
    run[j].clock >= run[i].clock + Backoff(run[i + 1].failures)
  }

  /** However the threads interleave, no reconnect starts before the window of an earlier failure is over, unless a
      reconnect succeeded in between or the window of the latest failure is shorter. */
  lemma AttemptsAreSpaced(run: seq<State>, steps: seq<Step>, i: nat, j: nat)
    requires Attempt(run, steps, i, j) && Backoff(run[i + 1].failures) <= Backoff(run[j].failures)
    ensures Spaced(run, i, j)
  {
    assert Enabled(run[j], steps[j]) && run[j + 1] == Apply(run[j], steps[j]);
    WindowHolds(run, steps, i, j);
  }

  /** It is not while the 32-bit counter of failures does not wrap. */
  lemma SpacedBetweenWraps(run: seq<State>, steps: seq<Step>, i: nat, j: nat)
    requires Attempt(run, steps, i, j) && run[i].streak / TWO_TO_THE_32 == (run[j].streak - 1) / TWO_TO_THE_32
    ensures Spaced(run, i, j)
  {
    assert run[i + 1] == Apply(run[i], steps[i]);
    WindowHolds(run, steps, i, j);
    CountsStreak(run, steps, i + 1);
    CountsStreak(run, steps, j);
    BackoffGrows(run[i].streak + 1, run[j].streak);
    AttemptsAreSpaced(run, steps, i, j);
  }

  /** In a state after a positive multiple of 2^32 failures, one more cuts the window to the shortest. */
  lemma WrapRestarts(run: seq<State>, steps: seq<Step>, i: nat)
    requires IsRun(run, steps) && i < |steps| && steps[i].Fail?
    requires run[i].streak > 0 && run[i].streak % TWO_TO_THE_32 == 0
    ensures run[i + 1].notBefore == run[i].clock + 250
  {
    assert run[i + 1] == Apply(run[i], steps[i]);
    CountsStreak(run, steps, i);
    BackoffShrinks(run[i].streak);
  }

  /** The windows, in milliseconds. */
  lemma Windows()
    ensures Backoff(1) == 250 && Backoff(2) == 500 && Backoff(3) == 1000 && Backoff(4) == 2000 && Backoff(5) == 4000
    ensures forall n: nat :: n == 0 || 6 <= n < TWO_TO_THE_32 ==> Backoff(n) == 5000
  {
    assert Doubled(250, 1) == 500 && Doubled(250, 2) == 1000 && Doubled(250, 3) == 2000;
    assert Doubled(250, 4) == 4000;
    assert Doubled(250, 5) == 8000;
  }

  // ---- what is handed out and counted ------------------------------------------------------------------------

  /** A connection is handed out only when it is not broken. */
  lemma HandsOutHealthy(run: seq<State>, steps: seq<Step>, i: nat, t: Thread)
    requires IsRun(run, steps) && i < |steps| && t in run[i + 1].holders && run[i + 1].holders[t].Using?
    requires t in run[i].holders ==> !run[i].holders[t].Using?
    ensures run[i + 1].holders[t].conn !in run[i + 1].broken
  {
    assert Enabled(run[i], steps[i]) && run[i + 1] == Apply(run[i], steps[i]);
  }

  /** The statistics: how many of the first i steps were successes, failures and timeouts. */
  function Successes(steps: seq<Step>, i: nat): nat
    requires i <= |steps|
  {
    if i == 0 then 0 else Successes(steps, i - 1) + if steps[i - 1].Succeed? then 1 else 0
  }

  function FailuresIn(steps: seq<Step>, i: nat): nat
    requires i <= |steps|
  {
    if i == 0 then 0 else FailuresIn(steps, i - 1) + if steps[i - 1].Fail? then 1 else 0
  }

  function TimeOuts(steps: seq<Step>, i: nat): nat
    requires i <= |steps|
  {
    if i == 0 then 0 else TimeOuts(steps, i - 1) + if steps[i - 1].TimeOut? then 1 else 0
  }

  lemma {:induction false} StatisticsCount(run: seq<State>, steps: seq<Step>, i: nat)
    requires IsRun(run, steps) && i < |run|
    ensures run[i].reconnects == Successes(steps, i) && run[i].reconnectFailures == FailuresIn(steps, i)
    ensures run[i].timeouts == TimeOuts(steps, i)
  {
    if i > 0 {
      StatisticsCount(run, steps, i - 1);
      assert Enabled(run[i - 1], steps[i - 1]) && run[i] == Apply(run[i - 1], steps[i - 1]);
    }
  }

  /** A success ends the run of failures and closes the window. */
  lemma SuccessCloses(run: seq<State>, steps: seq<Step>, i: nat)
    requires IsRun(run, steps) && i < |steps| && steps[i].Succeed?
    ensures run[i + 1].failures == 0 && run[i + 1].notBefore <= run[i + 1].clock
  {
    assert run[i + 1] == Apply(run[i], steps[i]);
  }
}
