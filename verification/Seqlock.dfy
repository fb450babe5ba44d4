/** Readers of authorization views against publications, interleaved store by store and load by load. Atomics are
    sequentially consistent (the spinlock register refines a plain one, see SpinRegister). */
module Seqlock {
  import opened Wrappers
  import opened Sequences
  import opened Identities
  import opened IdentityOutcomes

  type Thread = nat

  /** A view being assembled: the sequence seen first, then the user's state and the group states read so far. */
  datatype Reader =
    | Fresh(user: Ref)
    | Began(user: Ref, before: nat)
    | Reading(user: Ref, before: nat, state: Status, done: nat, groups: seq<Status>)

  datatype View = View(state: Status, groups: seq<Status>)

  datatype Accepted = Accepted(user: Ref, before: nat, view: View)

  datatype State = State(
    sequence: nat,
    store: Store,
    todo: Option<seq<Write>>,            // the publication in progress (one at a time, under the publish mutex)
    readers: map<Thread, Reader>,
    accepted: seq<Accepted>,
    history: seq<seq<Status>>)           // the objects after each finished publication

  // ---- views -------------------------------------------------------------------------------------------------

  /** The groups an authorization view looks at: none for a user that may not be authorized. */
  function Consulted(s: Status): seq<Ref> {
    if Authorizing(s) then s.groups else []
  }

  /** The states of the live ones among some groups. */
  function Live(heap: seq<Status>, refs: seq<Ref>): seq<Status>
    requires forall k :: 0 <= k < |refs| ==> refs[k] < |heap|
  {
    if refs == [] then []
    else
      var n := |refs| - 1;
      Live(heap, refs[..n]) + (if heap[refs[n]].deleted then [] else [heap[refs[n]]])
  }

  /** The view one version of the objects gives, read at once. */
  function ViewOf(heap: seq<Status>, user: Ref): View
    requires user < |heap| && forall k :: 0 <= k < |heap[user].groups| ==> heap[user].groups[k] < |heap|
  {
    View(heap[user], Live(heap, Consulted(heap[user])))
  }

  // ---- steps -------------------------------------------------------------------------------------------------

  predicate Init(s: State) {
    s == State(0, Store([], map[], map[]), None, map[], [], [[]])
  }

  datatype Step =
    | Begin(snap: Snapshot, goneGroups: seq<Id>, goneUsers: seq<Id>)
    | StoreOne
    | End
    | Ask(t: Thread, user: Ref)          // a thread starts assembling a view
    | ReadSequence(t: Thread)
    | ReadUser(t: Thread)
    | ReadGroup(t: Thread)
    | Check(t: Thread)

  ghost predicate Enabled(s: State, step: Step) {
    match step
    case Begin(snap, gg, gu) =>
      && s.todo.None?
      && IsGone(gg, snap.groups, s.store.groups, snap.requestedGroups, snap.all)
      && IsGone(gu, snap.users, s.store.users, snap.requestedUsers, snap.all)
    case StoreOne => s.todo.Some? && s.todo.value != [] && WellFormed(s.store)
    case End => s.todo == Some([])
    case Ask(t, user) => t !in s.readers && user < |s.store.heap|
    case ReadSequence(t) => t in s.readers && s.readers[t].Fresh?
    case ReadUser(t) => t in s.readers && s.readers[t].Began? && s.readers[t].user < |s.store.heap|
    case ReadGroup(t) =>
      && t in s.readers && s.readers[t].Reading? && s.readers[t].done < |Consulted(s.readers[t].state)|
      && Consulted(s.readers[t].state)[s.readers[t].done] < |s.store.heap|
    case Check(t) => t in s.readers && s.readers[t].Reading? && s.readers[t].done == |Consulted(s.readers[t].state)|
  }

  ghost function Apply(s: State, step: Step): State
    requires Enabled(s, step)
  {
    match step
    case Begin(snap, gg, gu) => s.(sequence := s.sequence + 1, todo := Some(Plan(snap, gg, gu)))
    case StoreOne => s.(store := Perform(s.store, s.todo.value[0]), todo := Some(s.todo.value[1..]))
    case End => s.(sequence := s.sequence + 1, todo := None, history := s.history + [s.store.heap])
    case Ask(t, user) => s.(readers := s.readers[t := Fresh(user)])
    case ReadSequence(t) =>
      if s.sequence % 2 == 1 then s else s.(readers := s.readers[t := Began(s.readers[t].user, s.sequence)])
    case ReadUser(t) =>
      var r := s.readers[t];
      s.(readers := s.readers[t := Reading(r.user, r.before, s.store.heap[r.user], 0, [])])
    case ReadGroup(t) =>
      var r := s.readers[t];
      var g := s.store.heap[Consulted(r.state)[r.done]];
      s.(readers := s.readers[t := r.(done := r.done + 1, groups := r.groups + if g.deleted then [] else [g])])
    case Check(t) =>
      var r := s.readers[t];
      if s.sequence != r.before then s.(readers := s.readers[t := Fresh(r.user)])
      else
        var view := Accepted(r.user, r.before, View(r.state, r.groups));
        s.(readers := s.readers - {t}, accepted := s.accepted + [view])
  }

  ghost predicate IsRun(run: seq<State>, steps: seq<Step>) {
    && |run| == |steps| + 1 && Init(run[0])
    && forall i {:trigger steps[i]} :: 0 <= i < |steps| ==>
      Enabled(run[i], steps[i]) && run[i + 1] == Apply(run[i], steps[i])
  }

  // ---- invariant ---------------------------------------------------------------------------------------------

  predicate RefsWithin(heap: seq<Status>) {
    forall r, k :: 0 <= r < |heap| && 0 <= k < |heap[r].groups| ==> heap[r].groups[k] < |heap|
  }

  /** While the sequence has not moved, what a reader holds so far is what the current objects say. */
  ghost predicate ReaderOk(s: State, r: Reader) {
    && r.user < |s.store.heap|
    && (!r.Fresh? ==> r.before % 2 == 0 && r.before <= s.sequence)
    && (r.Reading? ==>
          && r.done <= |Consulted(r.state)|
          && (forall k :: 0 <= k < |r.state.groups| ==> r.state.groups[k] < |s.store.heap|)
          && (r.before == s.sequence ==>
                r.state == s.store.heap[r.user] && r.groups == Live(s.store.heap, Consulted(r.state)[..r.done])))
  }

  /** An accepted view is that of one finished publication. */
  ghost predicate AcceptedOk(s: State, a: Accepted) {
    && a.before % 2 == 0 && a.before / 2 < |s.history| && a.before <= s.sequence
    && var heap := s.history[a.before / 2];
       RefsWithin(heap) && a.user < |heap| && a.view == ViewOf(heap, a.user)
  }

  ghost predicate Inv(s: State) {
    && s.history != [] && WellFormed(s.store)
    && s.sequence == 2 * (|s.history| - 1) + (if s.todo.Some? then 1 else 0)
    && (s.todo.None? ==> s.history[|s.history| - 1] == s.store.heap)
    && (forall t :: t in s.readers ==> ReaderOk(s, s.readers[t]))
    && (forall i :: 0 <= i < |s.accepted| ==> AcceptedOk(s, s.accepted[i]))
    && (forall i, j :: 0 <= i < j < |s.accepted| ==> s.accepted[i].before <= s.accepted[j].before)
  }

  lemma StepAdvances(s: State, step: Step)
    requires Enabled(s, step)
    ensures Advances(s.store.heap, Apply(s, step).store.heap)
  {
    if step.StoreOne? {
      PerformAdvances(s.store, s.todo.value[0]);
    }
  }

  /** A reader that does not act only sees the sequence move on or the objects stay. */
  lemma ReaderWaits(s: State, step: Step, r: Reader)
    requires Inv(s) && Enabled(s, step) && ReaderOk(s, r)
    ensures ReaderOk(Apply(s, step), r)
  {
    StepAdvances(s, step);
  }

  lemma ReaderActs(s: State, step: Step, t: Thread)
    requires Inv(s) && Enabled(s, step)
    requires step.Ask? || step.ReadSequence? || step.ReadUser? || step.ReadGroup? || step.Check?
    requires step.t == t && t in Apply(s, step).readers
    ensures ReaderOk(Apply(s, step), Apply(s, step).readers[t])
  {
    if step.ReadGroup? {
      var r := s.readers[t];
      assert ReaderOk(s, r);
      assert Consulted(r.state)[..r.done + 1][..r.done] == Consulted(r.state)[..r.done];
    }
  }

  lemma ReadersStep(s: State, step: Step)
    requires Inv(s) && Enabled(s, step)
    ensures var s' := Apply(s, step); forall t :: t in s'.readers ==> ReaderOk(s', s'.readers[t])
  {
    var s' := Apply(s, step);
    forall t | t in s'.readers ensures ReaderOk(s', s'.readers[t]) {
      if !(step.Begin? || step.StoreOne? || step.End?) && step.t == t {
        ReaderActs(s, step, t);
      } else {
        ReaderWaits(s, step, s.readers[t]);
      }
    }
  }

  lemma AcceptedStep(s: State, step: Step)
    requires Inv(s) && Enabled(s, step)
    ensures var s' := Apply(s, step); forall i :: 0 <= i < |s'.accepted| ==> AcceptedOk(s', s'.accepted[i])
  {
    var s' := Apply(s, step);
    forall i | 0 <= i < |s'.accepted| ensures AcceptedOk(s', s'.accepted[i]) {
      if i < |s.accepted| {
        assert AcceptedOk(s, s.accepted[i]);
      } else {
        var r := s.readers[step.t];
        assert ReaderOk(s, r);
        assert Consulted(r.state)[..r.done] == Consulted(r.state);
      }
    }
  }

  lemma InvStep(s: State, step: Step)
    requires Inv(s) && Enabled(s, step)
    ensures Inv(Apply(s, step))
  {
    ReadersStep(s, step);
    AcceptedStep(s, step);
    if step.StoreOne? {
      PerformAdvances(s.store, s.todo.value[0]);
    }
    forall i | 0 <= i < |s.accepted| ensures s.accepted[i].before <= s.sequence { assert AcceptedOk(s, s.accepted[i]); }
  }

  lemma {:induction false} RunInv(run: seq<State>, steps: seq<Step>, i: nat)
    requires IsRun(run, steps) && i < |run|
    ensures Inv(run[i])
  {
    if i > 0 {
      RunInv(run, steps, i - 1);
      assert run[i - 1 + 1] == Apply(run[i - 1], steps[i - 1]);
      InvStep(run[i - 1], steps[i - 1]);
    }
  }

  // ---- theorems ----------------------------------------------------------------------------------------------

  /** Under every interleaving, an accepted view is the one a single finished publication gives, user and group states
      together; and views never go back to an earlier publication. */
  lemma ViewsAreCoherent(run: seq<State>, steps: seq<Step>, i: nat)
    requires IsRun(run, steps) && i < |run|
    ensures forall j :: 0 <= j < |run[i].accepted| ==> AcceptedOk(run[i], run[i].accepted[j])
    ensures forall j, k :: 0 <= j < k < |run[i].accepted| ==> run[i].accepted[j].before <= run[i].accepted[k].before
  {
    RunInv(run, steps, i);
  }

  /** No object ever disappears, and no object's revision ever decreases, over whole runs. */
  lemma {:induction false} RevisionsOnlyGrow(run: seq<State>, steps: seq<Step>, i: nat, j: nat)
    requires IsRun(run, steps) && i <= j < |run|
    ensures Advances(run[i].store.heap, run[j].store.heap)
    decreases j - i
  {
    if i < j {
      RevisionsOnlyGrow(run, steps, i, j - 1);
      RunAdvances(run, steps, j - 1);
      AdvancesFurther(run[i].store.heap, run[j - 1].store.heap, run[j].store.heap);
    }
  }

  lemma RunAdvances(run: seq<State>, steps: seq<Step>, i: nat)
    requires IsRun(run, steps) && i < |steps|
    ensures Advances(run[i].store.heap, run[i + 1].store.heap)
  {
    StepAdvances(run[i], steps[i]);
  }

  lemma AdvancesFurther(a: seq<Status>, b: seq<Status>, c: seq<Status>)
    requires Advances(a, b) && Advances(b, c)
    ensures Advances(a, c)
  {
    forall r | 0 <= r < |a| ensures a[r].revision <= c[r].revision { assert b[r].revision <= c[r].revision; }
  }

  // ---- what a view holds -------------------------------------------------------------------------------------

  /** These states are those of the live ones among the groups, at these places, and the others are deleted. */
  ghost predicate PicksLive(heap: seq<Status>, refs: seq<Ref>, ks: seq<nat>, states: seq<Status>) {
    && (forall k :: 0 <= k < |refs| ==> refs[k] < |heap|)
    && Places(ks, |refs|) && |ks| == |states|
    && (forall i :: 0 <= i < |ks| ==> !heap[refs[ks[i]]].deleted && states[i] == heap[refs[ks[i]]])
    && (forall k: nat :: k < |refs| && k !in ks ==> heap[refs[k]].deleted)
  }

  lemma PicksMore(heap: seq<Status>, refs: seq<Ref>, ks: seq<nat>, states: seq<Status>, r: Ref)
    requires PicksLive(heap, refs, ks, states) && r < |heap|
    ensures heap[r].deleted ==> PicksLive(heap, refs + [r], ks, states)
    ensures !heap[r].deleted ==> PicksLive(heap, refs + [r], ks + [|refs|], states + [heap[r]])
  {
    assert (refs + [r])[|refs|] == r && forall k: nat :: k < |refs| ==> (refs + [r])[k] == refs[k];
  }

  /** The groups in a view are exactly those that are not deleted, in order. */
  lemma {:induction false} LiveExactly(heap: seq<Status>, refs: seq<Ref>) returns (ks: seq<nat>)
    requires forall k :: 0 <= k < |refs| ==> refs[k] < |heap|
    ensures PicksLive(heap, refs, ks, Live(heap, refs))
    decreases refs
  {
    if refs == [] {
      ks := [];
    } else {
      var n := |refs| - 1;
      ks := LiveExactly(heap, refs[..n]);
      PicksMore(heap, refs[..n], ks, Live(heap, refs[..n]), refs[n]);
      assert refs == refs[..n] + [refs[n]];
      if !heap[refs[n]].deleted { ks := ks + [n]; }
    }
  }

  /** A view has the user's own state, no groups for a user that is deleted or inactive, and else the user's groups
      that are not deleted. */
  lemma ViewExactly(heap: seq<Status>, user: Ref) returns (ks: seq<nat>)
    requires user < |heap| && RefsWithin(heap)
    ensures var view, groups := ViewOf(heap, user), heap[user].groups;
      && view.state == heap[user]
      && (heap[user].deleted || !heap[user].active ==> view.groups == [])
      && (!heap[user].deleted && heap[user].active ==> PicksLive(heap, groups, ks, view.groups))
  {
    ks := LiveExactly(heap, heap[user].groups);
  }

  // ---- what is dropped stays out -----------------------------------------------------------------------------

  lemma {:induction false} StoresCanonical(run: seq<State>, steps: seq<Step>, i: nat)
    requires IsRun(run, steps) && i < |run|
    ensures Canonical(run[i].store)
  {
    if i > 0 {
      StoresCanonical(run, steps, i - 1);
      assert Enabled(run[i - 1], steps[i - 1]) && run[i] == Apply(run[i - 1], steps[i - 1]);
      if steps[i - 1].StoreOne? { PerformCanonical(run[i - 1].store, run[i - 1].todo.value[0]); }
    }
  }

  /** The object is deleted for good, in the versions from the m-th on too. */
  ghost predicate Buried(s: State, r: Ref, m: nat) {
    && r < |s.store.heap| && s.store.heap[r].deleted && Unindexed(s.store, r)
    && m <= |s.history|
    && forall h :: m <= h < |s.history| ==> r < |s.history[h]| && s.history[h][r].deleted
  }

  lemma BuriedStep(s: State, step: Step, r: Ref, m: nat)
    requires Buried(s, r, m) && Enabled(s, step)
    ensures Buried(Apply(s, step), r, m)
  {
    if step.StoreOne? { UnindexedStep(s.store, s.todo.value[0], r); }
  }

  lemma {:induction false} BuriedStays(run: seq<State>, steps: seq<Step>, i: nat, j: nat, r: Ref, m: nat)
    requires IsRun(run, steps) && i <= j < |run| && Buried(run[i], r, m)
    ensures Buried(run[j], r, m)
    decreases j
  {
    if i < j {
      BuriedStays(run, steps, i, j - 1, r, m);
      assert Enabled(run[j - 1], steps[j - 1]) && run[j] == Apply(run[j - 1], steps[j - 1]);
      BuriedStep(run[j - 1], steps[j - 1], r, m);
    }
  }

  /** The i-th step drops a user (or a group) that is indexed and not newer. */
  ghost predicate DropsAt(run: seq<State>, steps: seq<Step>, i: nat, user: bool, id: Id, revision: nat) {
    && i < |steps| < |run| && steps[i].StoreOne? && Enabled(run[i], steps[i])
    && run[i].todo.value[0] == DropOf(user, id, revision)
    && Droppable(run[i].store.heap, Index(run[i].store, user), id, revision)
  }

  lemma DropBuriesRun(run: seq<State>, steps: seq<Step>, i: nat, user: bool, id: Id, revision: nat)
    requires IsRun(run, steps) && DropsAt(run, steps, i, user, id, revision)
    ensures Buried(run[i + 1], Index(run[i].store, user)[id], |run[i].history|)
  {
    StoresCanonical(run, steps, i);
    assert run[i + 1] == Apply(run[i], steps[i]);
    DropBuries(run[i].store, user, id, revision);
  }

  /** Once a publication has dropped a user, no view that is accepted after it authorizes that user's object, however
      long a session has held it: the state is deleted and there are no groups. */
  lemma DroppedNeverAuthorizes(
    run: seq<State>, steps: seq<Step>, i: nat, id: Id, revision: nat, j: nat, k: nat)
    requires IsRun(run, steps) && DropsAt(run, steps, i, true, id, revision) && i < j < |run| && k < |run[j].accepted|
    requires run[j].accepted[k].user == run[i].store.users[id] && run[j].accepted[k].before > run[i].sequence
    ensures var view := run[j].accepted[k].view; view.state.deleted && !Authorizing(view.state) && view.groups == []
  {
    DropBuriesRun(run, steps, i, true, id, revision);
    BuriedStays(run, steps, i + 1, j, run[i].store.users[id], |run[i].history|);
    RunInv(run, steps, i);
    RunInv(run, steps, j);
    assert AcceptedOk(run[j], run[j].accepted[k]);
  }

  /** A group that was dropped is deleted in the version any such view is of, so no view has it (ViewExactly). */
  lemma DroppedGroupsLeave(
    run: seq<State>, steps: seq<Step>, i: nat, id: Id, revision: nat, j: nat, k: nat)
    requires IsRun(run, steps) && DropsAt(run, steps, i, false, id, revision) && i < j < |run| && k < |run[j].accepted|
    requires run[j].accepted[k].before > run[i].sequence
    ensures var a := run[j].accepted[k];
      && AcceptedOk(run[j], a) && run[i].store.groups[id] < |run[j].history[a.before / 2]|
      && run[j].history[a.before / 2][run[i].store.groups[id]].deleted
  {
    DropBuriesRun(run, steps, i, false, id, revision);
    BuriedStays(run, steps, i + 1, j, run[i].store.groups[id], |run[i].history|);
    RunInv(run, steps, i);
    RunInv(run, steps, j);
    assert AcceptedOk(run[j], run[j].accepted[k]);
  }
}
