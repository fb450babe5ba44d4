/** The spinlock shared-pointer register (core/include/concurrency/AtomicSharedPtr.hpp) as a transition system over its
    machine steps, for any number of threads, and its linearizability. Pointers are numbers. */
module SpinRegister {
  import opened Wrappers

  type Thread = nat
  type Ptr = nat

  datatype Op = Load | Store(desired: Ptr) | Exchange(desired: Ptr)

  /** Where a thread is inside an operation; a thread that runs none has no task. `previous` is what the access read. */
  datatype Task =
    | Spinning(id: nat)                  // in the guard's constructor
    | Holding(id: nat)                   // guard taken, pointer not touched yet
    | Accessed(id: nat, previous: Ptr)   // pointer copied or exchanged, guard not destroyed yet
    | Released(id: nat, previous: Ptr)   // flag cleared, result not handed over yet

  /** One operation: the moments it was invoked and returned, its place among the effects, and what it read. */
  datatype Call = Call(thread: Thread, op: Op, invokedAt: nat, place: Option<nat>, returnedAt: Option<nat>, result: Ptr)

  datatype Effect = Effect(id: nat, op: Op, result: Ptr, at: nat)

  datatype State = State(
    lock: bool,
    value: Ptr,
    clock: nat,
    tasks: map<Thread, Task>,
    calls: seq<Call>,
    order: seq<Effect>,                  // calls by the moment of their effect
    dropped: seq<(Thread, Ptr)>)         // pointers `store` let go of

  function Applied(op: Op, value: Ptr): Ptr {
    if op.Load? then value else op.desired
  }

  // ---- steps -------------------------------------------------------------------------------------------------

  predicate Init(s: State, initial: Ptr) {
    s == State(false, initial, 0, map[], [], [], [])
  }

  datatype Step =
    | Invoke(t: Thread, op: Op)
    | TestAndSet(t: Thread)
    | Access(t: Thread)
    | Clear(t: Thread)
    | Return(t: Thread)

  predicate Enabled(s: State, step: Step) {
    match step
    case Invoke(t, _) => t !in s.tasks
    case TestAndSet(t) => t in s.tasks && s.tasks[t].Spinning?
    case Access(t) => t in s.tasks && s.tasks[t].Holding? && s.tasks[t].id < |s.calls|
    case Clear(t) => t in s.tasks && s.tasks[t].Accessed?
    case Return(t) => t in s.tasks && s.tasks[t].Released? && s.tasks[t].id < |s.calls|
  }

  function Apply(s: State, step: Step): State
    requires Enabled(s, step)
  {
    var s := s.(clock := s.clock + 1);
    match step
    case Invoke(t, op) =>
      s.(tasks := s.tasks[t := Spinning(|s.calls|)], calls := s.calls + [Call(t, op, s.clock - 1, None, None, 0)])
    case TestAndSet(t) =>
      if s.lock then s else s.(lock := true, tasks := s.tasks[t := Holding(s.tasks[t].id)])
    case Access(t) =>
      var id := s.tasks[t].id;
      s.(value := Applied(s.calls[id].op, s.value),
         calls := s.calls[id := s.calls[id].(place := Some(|s.order|), result := s.value)],
         order := s.order + [Effect(id, s.calls[id].op, s.value, s.clock - 1)],
         tasks := s.tasks[t := Accessed(id, s.value)])
    case Clear(t) =>
      s.(lock := false, tasks := s.tasks[t := Released(s.tasks[t].id, s.tasks[t].previous)])
    case Return(t) =>
      var id := s.tasks[t].id;
      s.(tasks := s.tasks - {t},
         calls := s.calls[id := s.calls[id].(returnedAt := Some(s.clock - 1))],
         dropped := if s.calls[id].op.Store? then s.dropped + [(t, s.tasks[t].previous)] else s.dropped)
  }

  ghost predicate IsRun(run: seq<State>, steps: seq<Step>, initial: Ptr) {
    && |run| == |steps| + 1 && Init(run[0], initial)
    && forall i {:trigger steps[i]} :: 0 <= i < |steps| ==>
      Enabled(run[i], steps[i]) && run[i + 1] == Apply(run[i], steps[i])
  }

  // ---- what is promised --------------------------------------------------------------------------------------

  predicate Critical(s: State, t: Thread) {
    t in s.tasks && (s.tasks[t].Holding? || s.tasks[t].Accessed?)
  }

  ghost predicate MutualExclusion(s: State) {
    && (forall t, u :: Critical(s, t) && Critical(s, u) ==> t == u)
    && (s.lock <==> exists t :: Critical(s, t))
  }

  ghost predicate OnlyLoads(order: seq<Effect>, from: nat, to: nat)
    requires to <= |order|
  {
    forall i :: from <= i < to ==> order[i].op.Load?
  }

  /** A pointer is what the last store or exchange among the first k calls wrote, or else the initial one. */
  ghost predicate LastWritten(order: seq<Effect>, k: nat, initial: Ptr, value: Ptr)
    requires k <= |order|
  {
    || (value == initial && OnlyLoads(order, 0, k))
    || (exists j :: 0 <= j < k && order[j].op != Load && order[j].op.desired == value && OnlyLoads(order, j + 1, k))
  }

  /** Each result is what was written last before it. */
  ghost predicate Explained(order: seq<Effect>, initial: Ptr) {
    forall k :: 0 <= k < |order| ==> LastWritten(order, k, initial, order[k].result)
  }

  predicate ReturnedBefore(a: Call, b: Call) {
    a.returnedAt.Some? && a.returnedAt.value < b.invokedAt
  }

  /** A single atomic register explains every result: there is one order of the calls that took effect in which each
      reads what the calls before it left, it holds every returned call once, and it respects real time. */
  ghost predicate Linearizable(s: State, initial: Ptr) {
    && Explained(s.order, initial) && LastWritten(s.order, |s.order|, initial, s.value)
    && (forall k :: 0 <= k < |s.order| ==>
          && s.order[k].id < |s.calls| && s.calls[s.order[k].id].op == s.order[k].op
          && s.calls[s.order[k].id].result == s.order[k].result)
    && (forall i, j :: 0 <= i < j < |s.order| ==> s.order[i].id != s.order[j].id)
    && (forall id :: 0 <= id < |s.calls| && s.calls[id].returnedAt.Some? ==>
      exists k :: 0 <= k < |s.order| && s.order[k].id == id)
    && (forall i, j :: 0 <= i < |s.order| && 0 <= j < |s.order| ==>
          (ReturnedBefore(s.calls[s.order[i].id], s.calls[s.order[j].id]) ==> i < j))
  }

  // ---- invariant ---------------------------------------------------------------------------------------------

  /** A call's moments are in order and past, and its place is its own. */
  ghost predicate CallOk(s: State, id: nat)
    requires id < |s.calls|
  {
    var c := s.calls[id];
    && c.invokedAt < s.clock
    && (c.place.Some? ==>
      && c.place.value < |s.order| && s.order[c.place.value].id == id
      && c.invokedAt < s.order[c.place.value].at)
    && (c.returnedAt.Some? ==> c.place.Some? && s.order[c.place.value].at < c.returnedAt.value)
  }

  ghost predicate TaskOk(s: State, t: Thread)
    requires t in s.tasks
  {
    var task := s.tasks[t];
    && task.id < |s.calls| && s.calls[task.id].thread == t && s.calls[task.id].returnedAt.None?
    && (task.Spinning? || task.Holding? <==> s.calls[task.id].place.None?)
    && (task.Accessed? || task.Released? ==> task.previous == s.calls[task.id].result)
  }

  /** The effect at one place is that of the call it names, and past. */
  ghost predicate EffectOk(s: State, k: nat)
    requires k < |s.order|
  {
    var e := s.order[k];
    && e.id < |s.calls| && e.at < s.clock
    && s.calls[e.id].place == Some(k) && s.calls[e.id].op == e.op && s.calls[e.id].result == e.result
  }

  ghost predicate Ordered(s: State, initial: Ptr) {
    && Explained(s.order, initial) && LastWritten(s.order, |s.order|, initial, s.value)
    && (forall k :: 0 <= k < |s.order| ==> EffectOk(s, k))
    && (forall i, j :: 0 <= i < j < |s.order| ==> s.order[i].at < s.order[j].at)
  }

  ghost predicate Inv(s: State, initial: Ptr) {
    && (forall id :: 0 <= id < |s.calls| ==> CallOk(s, id))
    && (forall t :: t in s.tasks ==> TaskOk(s, t))
    && Ordered(s, initial)
    && MutualExclusion(s)
  }

  /** One more call at the end changes what was written last, and nothing before. */
  lemma WrittenSnoc(order: seq<Effect>, e: Effect, initial: Ptr, value: Ptr)
    requires LastWritten(order, |order|, initial, value)
    ensures LastWritten(order + [e], |order| + 1, initial, Applied(e.op, value))
  {
    var all, n := order + [e], |order|;
    if e.op.Load? {
      if !(value == initial && OnlyLoads(order, 0, n)) {
        var j :| 0 <= j < n && order[j].op != Load && order[j].op.desired == value && OnlyLoads(order, j + 1, n);
        assert all[j] == order[j] && OnlyLoads(all, j + 1, n + 1);
      }
    } else {
      assert all[n] == e && OnlyLoads(all, n + 1, n + 1);
    }
  }

  lemma WrittenBefore(order: seq<Effect>, e: Effect, k: nat, initial: Ptr, value: Ptr)
    requires k <= |order| && LastWritten(order, k, initial, value)
    ensures LastWritten(order + [e], k, initial, value)
  {
    var all := order + [e];
    if !(value == initial && OnlyLoads(order, 0, k)) {
      var j :| 0 <= j < k && order[j].op != Load && order[j].op.desired == value && OnlyLoads(order, j + 1, k);
      assert all[j] == order[j] && OnlyLoads(all, j + 1, k);
    }
  }

  lemma ExplainedSnoc(order: seq<Effect>, e: Effect, initial: Ptr)
    requires Explained(order, initial) && LastWritten(order, |order|, initial, e.result)
    ensures Explained(order + [e], initial)
  {
    var all := order + [e];
    forall k | 0 <= k < |all| ensures LastWritten(all, k, initial, all[k].result) {
      WrittenBefore(order, e, k, initial, all[k].result);
    }
  }

  lemma ExplainedStep(s: State, step: Step, initial: Ptr)
    requires Explained(s.order, initial) && LastWritten(s.order, |s.order|, initial, s.value) && Enabled(s, step)
    ensures var s' := Apply(s, step);
      Explained(s'.order, initial) && LastWritten(s'.order, |s'.order|, initial, s'.value)
  {
    if step.Access? {
      var id := s.tasks[step.t].id;
      var e := Effect(id, s.calls[id].op, s.value, s.clock);
      assert Apply(s, step).order == s.order + [e];
      ExplainedSnoc(s.order, e, initial);
      WrittenSnoc(s.order, e, initial, s.value);
    }
  }

  /** There is only one such pointer. */
  lemma WrittenOnce(order: seq<Effect>, k: nat, initial: Ptr, v: Ptr, w: Ptr)
    requires k <= |order| && LastWritten(order, k, initial, v) && LastWritten(order, k, initial, w)
    ensures v == w
  {
  }

  lemma EffectsStep(s: State, step: Step, initial: Ptr)
    requires Inv(s, initial) && Enabled(s, step)
    ensures var s' := Apply(s, step); forall k :: 0 <= k < |s'.order| ==> EffectOk(s', k)
  {
    var s' := Apply(s, step);
    if step.t in s.tasks {
      assert TaskOk(s, step.t);
    }
    forall k | 0 <= k < |s'.order| ensures EffectOk(s', k) {
      if k < |s.order| { assert EffectOk(s, k); }
    }
  }

  lemma OrderedStep(s: State, step: Step, initial: Ptr)
    requires Inv(s, initial) && Enabled(s, step)
    ensures Ordered(Apply(s, step), initial)
  {
    ExplainedStep(s, step, initial);
    EffectsStep(s, step, initial);
    forall k | 0 <= k < |s.order| ensures s.order[k].at < s.clock { assert EffectOk(s, k); }
  }

  lemma CallStep(s: State, step: Step, initial: Ptr, id: nat)
    requires Inv(s, initial) && Enabled(s, step) && id < |Apply(s, step).calls|
    ensures CallOk(Apply(s, step), id)
  {
    if step.t in s.tasks {
      assert TaskOk(s, step.t) && CallOk(s, s.tasks[step.t].id);
    }
    if id < |s.calls| {
      assert CallOk(s, id);
      if s.calls[id].place.Some? {
        assert EffectOk(s, s.calls[id].place.value);
      }
    }
  }

  lemma TaskStep(s: State, step: Step, initial: Ptr, t: Thread)
    requires Inv(s, initial) && Enabled(s, step) && t in Apply(s, step).tasks
    ensures TaskOk(Apply(s, step), t)
  {
    if step.t in s.tasks {
      assert TaskOk(s, step.t);
    }
    if t in s.tasks {
      assert TaskOk(s, t);
    }
  }

  lemma ExclusionStep(s: State, step: Step)
    requires MutualExclusion(s) && Enabled(s, step)
    ensures MutualExclusion(Apply(s, step))
  {
    var s' := Apply(s, step);
    assert forall u :: u != step.t ==> (Critical(s', u) <==> Critical(s, u));
    match step
    case Access(t) => assert Critical(s, t) && Critical(s', t);
    case Clear(t) => assert Critical(s, t);
    case TestAndSet(t) => assert !s.lock ==> Critical(s', t);
    case Invoke(t, _) => assert !Critical(s, t);
    case Return(t) => assert !Critical(s, t);
  }

  lemma InvStep(s: State, step: Step, initial: Ptr)
    requires Inv(s, initial) && Enabled(s, step)
    ensures Inv(Apply(s, step), initial)
  {
    var s' := Apply(s, step);
    forall id | 0 <= id < |s'.calls| ensures CallOk(s', id) { CallStep(s, step, initial, id); }
    forall t | t in s'.tasks ensures TaskOk(s', t) { TaskStep(s, step, initial, t); }
    ExclusionStep(s, step);
    OrderedStep(s, step, initial);
  }

  lemma RealTime(s: State, initial: Ptr, i: nat, j: nat)
    requires Inv(s, initial) && i < |s.order| && j < |s.order| && EffectOk(s, i) && EffectOk(s, j)
    requires ReturnedBefore(s.calls[s.order[i].id], s.calls[s.order[j].id])
    ensures i < j
  {
    assert CallOk(s, s.order[i].id) && CallOk(s, s.order[j].id);
    assert s.order[i].at < s.order[j].at;
  }

  lemma InvLinearizable(s: State, initial: Ptr)
    requires Inv(s, initial)
    ensures Linearizable(s, initial)
  {
    forall k | 0 <= k < |s.order|
      ensures s.order[k].id < |s.calls| && s.calls[s.order[k].id].place == Some(k)
      ensures s.calls[s.order[k].id].op == s.order[k].op && s.calls[s.order[k].id].result == s.order[k].result
    {
      assert EffectOk(s, k);
    }
    forall id | 0 <= id < |s.calls| && s.calls[id].returnedAt.Some?
      ensures exists k :: 0 <= k < |s.order| && s.order[k].id == id
    {
      assert CallOk(s, id);
    }
    forall i, j
      | 0 <= i < |s.order| && 0 <= j < |s.order| && ReturnedBefore(s.calls[s.order[i].id], s.calls[s.order[j].id])
      ensures i < j
    {
      RealTime(s, initial, i, j);
    }
  }

  lemma {:induction false} RunInv(run: seq<State>, steps: seq<Step>, initial: Ptr, i: nat)
    requires IsRun(run, steps, initial) && i < |run|
    ensures Inv(run[i], initial)
  {
    if i > 0 {
      RunInv(run, steps, initial, i - 1);
      assert run[i - 1 + 1] == Apply(run[i - 1], steps[i - 1]);
      InvStep(run[i - 1], steps[i - 1], initial);
    }
  }

  // ---- theorems ----------------------------------------------------------------------------------------------

  /** Under every interleaving, one thread at a time is in the critical section and the register is linearizable. */
  lemma RunsLinearizable(run: seq<State>, steps: seq<Step>, initial: Ptr, i: nat)
    requires IsRun(run, steps, initial) && i < |run|
    ensures MutualExclusion(run[i]) && Linearizable(run[i], initial)
  {
    RunInv(run, steps, initial, i);
    InvLinearizable(run[i], initial);
  }

  /** Whenever `store` lets go of a pointer, the thread is out of the critical section (a destructor may use the
      register again), and the pointer is the one this store replaced in the order of effects. */
  lemma DropsOutsideTheLock(run: seq<State>, steps: seq<Step>, initial: Ptr, i: nat)
    requires IsRun(run, steps, initial) && i < |steps|
    requires run[i + 1].dropped != run[i].dropped
    ensures exists t, k, previous ::
      && 0 <= k < |run[i].order| && StoreAt(run[i], t, k) && !Critical(run[i], t)
      && run[i + 1].dropped == run[i].dropped + [(t, previous)] && LastWritten(run[i].order, k, initial, previous)
  {
    RunInv(run, steps, initial, i);
    var s, t := run[i], steps[i].t;
    assert run[i + 1] == Apply(s, steps[i]);
    assert TaskOk(s, t) && CallOk(s, s.tasks[t].id);
    var k := s.calls[s.tasks[t].id].place.value;
    assert EffectOk(s, k) && StoreAt(s, t, k);
    assert run[i + 1].dropped == s.dropped + [(t, s.order[k].result)];
  }

  /** A store that returns lets go of its pointer. */
  lemma StoresDrop(run: seq<State>, steps: seq<Step>, initial: Ptr, i: nat)
    requires IsRun(run, steps, initial) && i < |steps| && steps[i].Return?
    ensures var id := run[i].tasks[steps[i].t].id;
      |run[i + 1].dropped| == |run[i].dropped| + if run[i].calls[id].op.Store? then 1 else 0
  {
    assert Enabled(run[i], steps[i]) && run[i + 1] == Apply(run[i], steps[i]);
  }

  /** Thread `t` is in a store whose effect is the k-th. */
  predicate StoreAt(s: State, t: Thread, k: nat)
    requires k < |s.order|
  {
    t in s.tasks && s.order[k].id == s.tasks[t].id && s.order[k].op.Store?
  }
}
