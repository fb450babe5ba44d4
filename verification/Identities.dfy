/** One publication of users and groups (core/src/identities/Manager.cpp `apply`). Canonical objects are places in
    `heap`; a publication replaces their states one atomic store at a time. Its readers are in Seqlock. */
module Identities {
  import opened Wrappers

  type Ref = nat
  type Id = nat

  /** One immutable state of a user or a group; `groups` are canonical group objects (empty for a group). */
  datatype Status = Status(revision: nat, deleted: bool, active: bool, groups: seq<Ref>, content: nat)

  predicate Authorizing(s: Status) {
    !s.deleted && s.active
  }

  // ---- one publication ---------------------------------------------------------------------------------------

  /** The objects and the publisher's next index of them. */
  datatype Store = Store(heap: seq<Status>, users: map<Id, Ref>, groups: map<Id, Ref>)

  datatype Record = Record(id: Id, status: Status, memberships: seq<Id>)

  datatype Snapshot = Snapshot(
    revision: nat, groups: seq<Record>, users: seq<Record>, requestedGroups: set<Id>, requestedUsers: set<Id>,
    all: bool)

  datatype Write =
    | PutGroup(rec: Record)
    | DropGroup(id: Id, revision: nat)
    | PutUser(rec: Record)
    | DropUser(id: Id, revision: nat)

  predicate WellFormed(st: Store) {
    && (forall id :: id in st.users ==> st.users[id] < |st.heap|)
    && (forall id :: id in st.groups ==> st.groups[id] < |st.heap|)
    && (forall r, k :: 0 <= r < |st.heap| && 0 <= k < |st.heap[r].groups| ==> st.heap[r].groups[k] < |st.heap|)
  }

  /** The canonical groups of the memberships that resolve. */
  function Resolve(groups: map<Id, Ref>, memberships: seq<Id>): seq<Ref> {
    if memberships == [] then []
    else
      var n := |memberships| - 1;
      Resolve(groups, memberships[..n]) + if memberships[n] in groups then [groups[memberships[n]]] else []
  }

  /** An older state never replaces a newer one. */
  function Published(heap: seq<Status>, r: Ref, next: Status): seq<Status>
    requires r < |heap|
  {
    if heap[r].revision <= next.revision then heap[r := next] else heap
  }

  function Tombstone(last: Status, revision: nat): Status {
    Status(revision, true, false, [], last.content)
  }

  predicate Droppable(heap: seq<Status>, index: map<Id, Ref>, id: Id, revision: nat)
    requires forall id :: id in index ==> index[id] < |heap|
  {
    id in index && heap[index[id]].revision <= revision
  }

  function Buried(heap: seq<Status>, r: Ref, revision: nat): seq<Status>
    requires r < |heap|
  {
    if heap[r].deleted then heap else heap[r := Tombstone(heap[r], revision)]
  }

  function Perform(st: Store, w: Write): Store
    requires WellFormed(st)
  {
    match w
    case PutGroup(rec) =>
      var next := rec.status.(groups := []);
      if rec.id !in st.groups then st.(heap := st.heap + [next], groups := st.groups[rec.id := |st.heap|])
      else st.(heap := Published(st.heap, st.groups[rec.id], next))
    case DropGroup(id, revision) =>
      if Droppable(st.heap, st.groups, id, revision)
      then st.(heap := Buried(st.heap, st.groups[id], revision), groups := st.groups - {id}) else st
    case PutUser(rec) =>
      var next := rec.status.(groups := Resolve(st.groups, rec.memberships));
      if rec.id !in st.users then st.(heap := st.heap + [next], users := st.users[rec.id := |st.heap|])
      else st.(heap := Published(st.heap, st.users[rec.id], next))
    case DropUser(id, revision) =>
      if Droppable(st.heap, st.users, id, revision)
      then st.(heap := Buried(st.heap, st.users[id], revision), users := st.users - {id}) else st
  }

  /** Objects are only added, and no object's revision decreases. */
  predicate Advances(a: seq<Status>, b: seq<Status>) {
    |a| <= |b| && forall r :: 0 <= r < |a| ==> a[r].revision <= b[r].revision
  }

  lemma {:induction false} ResolveWithin(groups: map<Id, Ref>, memberships: seq<Id>, bound: nat)
    requires forall id :: id in groups ==> groups[id] < bound
    ensures forall k :: 0 <= k < |Resolve(groups, memberships)| ==> Resolve(groups, memberships)[k] < bound
  {
    if memberships != [] {
      ResolveWithin(groups, memberships[..|memberships| - 1], bound);
    }
  }

  lemma PerformAdvances(st: Store, w: Write)
    requires WellFormed(st)
    ensures WellFormed(Perform(st, w)) && Advances(st.heap, Perform(st, w).heap)
  {
    if w.PutUser? {
      ResolveWithin(st.groups, w.rec.memberships, |st.heap|);
    }
  }

  // ---- the order of one publication's writes -----------------------------------------------------------------

  function Seen(recs: seq<Record>): set<Id> {
    set r | r in recs :: r.id
  }

  /** The ids `apply` drops: not in the snapshot, and either indexed (a full load) or asked for. */
  ghost predicate IsGone(gone: seq<Id>, recs: seq<Record>, index: map<Id, Ref>, requested: set<Id>, all: bool) {
    forall id :: id in gone <==> id !in Seen(recs) && (if all then id in index else id in requested)
  }

  function Puts(recs: seq<Record>, user: bool): seq<Write> {
    seq(|recs|, i requires 0 <= i < |recs| => if user then PutUser(recs[i]) else PutGroup(recs[i]))
  }

  function Drops(gone: seq<Id>, revision: nat, user: bool): seq<Write> {
    seq(|gone|, i requires 0 <= i < |gone| =>
      if user then DropUser(gone[i], revision) else DropGroup(gone[i], revision))
  }

  /** Groups first (users resolve their memberships to canonical groups), each kind stored before its gone ids go. */
  function Plan(snap: Snapshot, goneGroups: seq<Id>, goneUsers: seq<Id>): seq<Write> {
    Puts(snap.groups, false) + Drops(goneGroups, snap.revision, false)
    + Puts(snap.users, true) + Drops(goneUsers, snap.revision, true)
  }

  function PerformAll(st: Store, ws: seq<Write>): (r: Store)
    requires WellFormed(st)
    ensures WellFormed(r)
    decreases |ws|
  {
    if ws == [] then st
    else
      PerformAdvances(st, ws[0]);
      PerformAll(Perform(st, ws[0]), ws[1..])
  }

  predicate IndexedSince(heap: seq<Status>, index: map<Id, Ref>, id: Id, revision: nat)
    requires forall id :: id in index ==> index[id] < |heap|
  {
    id in index && heap[index[id]].revision >= revision
  }

  /** A put is settled when its object is indexed at least as new, a drop when its id is unindexed or newer. */
  predicate Settled(st: Store, w: Write)
    requires WellFormed(st)
  {
    match w
    case PutGroup(rec) => IndexedSince(st.heap, st.groups, rec.id, rec.status.revision)
    case PutUser(rec) => IndexedSince(st.heap, st.users, rec.id, rec.status.revision)
    case DropGroup(id, revision) => id in st.groups ==> IndexedSince(st.heap, st.groups, id, revision + 1)
    case DropUser(id, revision) => id in st.users ==> IndexedSince(st.heap, st.users, id, revision + 1)
  }

  /** One puts what the other drops. */
  predicate Conflict(v: Write, w: Write) {
    || (v.PutGroup? && w.DropGroup? && v.rec.id == w.id) || (v.DropGroup? && w.PutGroup? && v.id == w.rec.id)
    || (v.PutUser? && w.DropUser? && v.rec.id == w.id) || (v.DropUser? && w.PutUser? && v.id == w.rec.id)
  }

  lemma SettledStep(st: Store, v: Write, w: Write)
    requires WellFormed(st) && WellFormed(Perform(st, v))
    requires v == w || (Settled(st, w) && !Conflict(v, w))
    ensures Settled(Perform(st, v), w)
  {
    PerformAdvances(st, v);
  }

  lemma {:induction false} SettledAll(st: Store, ws: seq<Write>, w: Write)
    requires WellFormed(st) && (w in ws || Settled(st, w))
    requires forall v :: v in ws ==> !Conflict(v, w)
    ensures Settled(PerformAll(st, ws), w)
    decreases |ws|
  {
    if ws != [] {
      PerformAdvances(st, ws[0]);
      assert ws[0] in ws && (w in ws ==> w == ws[0] || w in ws[1..]);
      if w == ws[0] || Settled(st, w) {
        SettledStep(st, ws[0], w);
      }
      SettledAll(Perform(st, ws[0]), ws[1..], w);
    }
  }

  lemma PlanMembers(snap: Snapshot, gg: seq<Id>, gu: seq<Id>, w: Write)
    ensures w in Plan(snap, gg, gu) <==>
      match w
      case PutGroup(rec) => rec in snap.groups
      case PutUser(rec) => rec in snap.users
      case DropGroup(id, revision) => id in gg && revision == snap.revision
      case DropUser(id, revision) => id in gu && revision == snap.revision
  {
    var a, b := Puts(snap.groups, false), Drops(gg, snap.revision, false);
    var c, d := Puts(snap.users, true), Drops(gu, snap.revision, true);
    assert w in Plan(snap, gg, gu) <==> w in a || w in b || w in c || w in d;
    assert forall i :: 0 <= i < |snap.groups| ==> a[i] == PutGroup(snap.groups[i]);
    assert forall i :: 0 <= i < |gg| ==> b[i] == DropGroup(gg[i], snap.revision);
    assert forall i :: 0 <= i < |snap.users| ==> c[i] == PutUser(snap.users[i]);
    assert forall i :: 0 <= i < |gu| ==> d[i] == DropUser(gu[i], snap.revision);
  }

  /** One publication publishes every record of its snapshot (or leaves something newer), and afterwards nothing the
      snapshot says is gone is indexed, unless newer than the snapshot. */
  lemma ApplyPublishes(st: Store, snap: Snapshot, gg: seq<Id>, gu: seq<Id>, w: Write)
    requires WellFormed(st)
    requires IsGone(gg, snap.groups, st.groups, snap.requestedGroups, snap.all)
    requires IsGone(gu, snap.users, st.users, snap.requestedUsers, snap.all)
    requires w in Plan(snap, gg, gu)
    ensures Settled(PerformAll(st, Plan(snap, gg, gu)), w)
  {
    PlanMembers(snap, gg, gu, w);
    forall v | v in Plan(snap, gg, gu) ensures !Conflict(v, w) {
      PlanMembers(snap, gg, gu, v);
      if v.PutGroup? || v.PutUser? { assert v.rec.id in Seen(if v.PutUser? then snap.users else snap.groups); }
      if w.PutGroup? || w.PutUser? { assert w.rec.id in Seen(if w.PutUser? then snap.users else snap.groups); }
    }
    SettledAll(st, Plan(snap, gg, gu), w);
  }
}
