/** What one publication makes of each user and group object: what is dropped ends deleted, what is put ends in its
    record's state, and everything else stays. */
module IdentityOutcomes {
  import opened Wrappers
  import opened Sequences
  import opened Identities

  // ---- objects and ids ---------------------------------------------------------------------------------------

  /** Every id has an object of its own. */
  predicate Canonical(st: Store) {
    && (forall a, b :: a in st.users && b in st.users && a != b ==> st.users[a] != st.users[b])
    && (forall a, b :: a in st.groups && b in st.groups && a != b ==> st.groups[a] != st.groups[b])
    && (forall a, b :: a in st.users && b in st.groups ==> st.users[a] != st.groups[b])
  }

  lemma PerformCanonical(st: Store, w: Write)
    requires WellFormed(st) && Canonical(st)
    ensures Canonical(Perform(st, w))
  {
  }

  function Index(st: Store, user: bool): map<Id, Ref> {
    if user then st.users else st.groups
  }

  predicate Concerns(w: Write, user: bool, id: Id) {
    match w
    case PutGroup(rec) => !user && rec.id == id
    case DropGroup(x, _) => !user && x == id
    case PutUser(rec) => user && rec.id == id
    case DropUser(x, _) => user && x == id
  }

  /** The id is indexed at the same object, in the same state, or is still not indexed. */
  predicate SameAt(a: Store, b: Store, user: bool, id: Id)
    requires WellFormed(a) && WellFormed(b)
  {
    && (id in Index(a, user) <==> id in Index(b, user))
    && (id in Index(a, user) ==> Index(a, user)[id] == Index(b, user)[id])
    && (id in Index(a, user) ==> a.heap[Index(a, user)[id]] == b.heap[Index(b, user)[id]])
  }

  lemma Elsewhere(st: Store, w: Write, user: bool, id: Id)
    requires WellFormed(st) && Canonical(st) && WellFormed(Perform(st, w)) && !Concerns(w, user, id)
    ensures SameAt(st, Perform(st, w), user, id)
  {
  }

  /** Writes to other ids leave an id as it is. */
  lemma {:induction false} ElsewhereAll(st: Store, ws: seq<Write>, user: bool, id: Id)
    requires WellFormed(st) && Canonical(st) && forall w :: w in ws ==> !Concerns(w, user, id)
    ensures Canonical(PerformAll(st, ws)) && SameAt(st, PerformAll(st, ws), user, id)
    decreases |ws|
  {
    if ws != [] {
      assert ws[0] in ws && forall w :: w in ws[1..] ==> w in ws;
      PerformAdvances(st, ws[0]);
      PerformCanonical(st, ws[0]);
      Elsewhere(st, ws[0], user, id);
      ElsewhereAll(Perform(st, ws[0]), ws[1..], user, id);
    }
  }

  lemma {:induction false} AllCanonical(st: Store, ws: seq<Write>)
    requires WellFormed(st) && Canonical(st)
    ensures Canonical(PerformAll(st, ws))
    decreases |ws|
  {
    if ws != [] {
      PerformAdvances(st, ws[0]);
      PerformCanonical(st, ws[0]);
      AllCanonical(Perform(st, ws[0]), ws[1..]);
    }
  }

  lemma {:induction false} PerformConcat(st: Store, a: seq<Write>, b: seq<Write>)
    requires WellFormed(st)
    ensures PerformAll(st, a + b) == PerformAll(PerformAll(st, a), b)
    decreases |a|
  {
    if a == [] {
      assert a + b == b;
    } else {
      assert (a + b)[0] == a[0] && (a + b)[1..] == a[1..] + b;
      PerformAdvances(st, a[0]);
      PerformConcat(Perform(st, a[0]), a[1..], b);
    }
  }

  predicate Unindexed(st: Store, r: Ref) {
    (forall id :: id in st.users ==> st.users[id] != r) && forall id :: id in st.groups ==> st.groups[id] != r
  }

  /** An object that no index has is never written again. */
  lemma UnindexedStep(st: Store, w: Write, r: Ref)
    requires WellFormed(st) && Unindexed(st, r) && r < |st.heap|
    ensures var t := Perform(st, w); r < |t.heap| && t.heap[r] == st.heap[r] && Unindexed(t, r)
  {
  }

  lemma {:induction false} UnindexedAll(st: Store, ws: seq<Write>, r: Ref)
    requires WellFormed(st) && Unindexed(st, r) && r < |st.heap|
    ensures var t := PerformAll(st, ws); r < |t.heap| && t.heap[r] == st.heap[r] && Unindexed(t, r)
    decreases |ws|
  {
    if ws != [] {
      PerformAdvances(st, ws[0]);
      UnindexedStep(st, ws[0], r);
      UnindexedAll(Perform(st, ws[0]), ws[1..], r);
    }
  }

  // ---- what is dropped ---------------------------------------------------------------------------------------

  function DropOf(user: bool, id: Id, revision: nat): Write {
    if user then DropUser(id, revision) else DropGroup(id, revision)
  }

  /** What a drop makes of an object: deleted, and if it was not before, inactive and in no group. */
  predicate IsBuried(before: Status, after: Status, revision: nat) {
    && after.deleted && !Authorizing(after)
    && (if before.deleted then after == before
        else after.revision == revision && !after.active && after.groups == [] && after.content == before.content)
  }

  lemma DropBuries(st: Store, user: bool, id: Id, revision: nat)
    requires WellFormed(st) && Canonical(st) && Droppable(st.heap, Index(st, user), id, revision)
    ensures var r, t := Index(st, user)[id], Perform(st, DropOf(user, id, revision));
      r < |t.heap| && IsBuried(st.heap[r], t.heap[r], revision) && Unindexed(t, r)
  {
  }

  /** Where an id is dropped for the first time. */
  lemma {:induction false} FirstDrop(gone: seq<Id>, id: Id) returns (i: nat)
    requires id in gone
    ensures i < |gone| && gone[i] == id && id !in gone[..i]
  {
    if gone[0] == id {
      i := 0;
    } else {
      assert gone == [gone[0]] + gone[1..];
      var j := FirstDrop(gone[1..], id);
      i := j + 1;
      assert gone[..i] == [gone[0]] + gone[1..][..j];
    }
  }

  lemma PlanFrom(snap: Snapshot, gg: seq<Id>, gu: seq<Id>, user: bool, id: Id) returns (a: seq<Write>, b: seq<Write>)
    requires id in (if user then gu else gg) && id !in Seen(if user then snap.users else snap.groups)
    ensures Plan(snap, gg, gu) == a + ([DropOf(user, id, snap.revision)] + b)
    ensures forall w :: w in a ==> !Concerns(w, user, id)
  {
    var pg, dg := Puts(snap.groups, false), Drops(gg, snap.revision, false);
    var pu, du := Puts(snap.users, true), Drops(gu, snap.revision, true);
    var front, back := DropsSplit(if user then gu else gg, snap.revision, user, id);
    PutsConcern(snap.groups, false, user, id);
    if user {
      PutsConcern(snap.users, true, user, id);
      GroupDropsConcern(gg, snap.revision, id);
      a, b := pg + dg + pu + front, back;
    } else {
      a, b := pg + front, back + pu + du;
    }
  }

  lemma DropsSplit(gone: seq<Id>, revision: nat, user: bool, id: Id) returns (a: seq<Write>, b: seq<Write>)
    requires id in gone
    ensures Drops(gone, revision, user) == a + ([DropOf(user, id, revision)] + b)
    ensures forall w :: w in a ==> !Concerns(w, user, id)
  {
    var i := FirstDrop(gone, id);
    var drops := Drops(gone, revision, user);
    a, b := drops[..i], drops[i + 1..];
    assert drops[i] == DropOf(user, id, revision);
    forall w | w in a ensures !Concerns(w, user, id) {
      var k :| 0 <= k < i && a[k] == w;
      assert gone[..i][k] == gone[k] && drops[k] == w;
    }
  }

  lemma GroupDropsConcern(gone: seq<Id>, revision: nat, id: Id)
    ensures forall w :: w in Drops(gone, revision, false) ==> !Concerns(w, true, id)
  {
  }

  lemma PutsConcern(recs: seq<Record>, kind: bool, user: bool, id: Id)
    requires kind == user ==> id !in Seen(recs)
    ensures forall w :: w in Puts(recs, kind) ==> !Concerns(w, user, id)
  {
    forall w | w in Puts(recs, kind) ensures !Concerns(w, user, id) {
      var k :| 0 <= k < |recs| && Puts(recs, kind)[k] == w;
      assert recs[k].id in Seen(recs);
    }
  }

  lemma BuriesAmong(st: Store, a: seq<Write>, b: seq<Write>, user: bool, id: Id, revision: nat)
    requires WellFormed(st) && Canonical(st) && Droppable(st.heap, Index(st, user), id, revision)
    requires forall w :: w in a ==> !Concerns(w, user, id)
    ensures var r, t := Index(st, user)[id], PerformAll(st, a + ([DropOf(user, id, revision)] + b));
      r < |t.heap| && IsBuried(st.heap[r], t.heap[r], revision) && Unindexed(t, r)
  {
    var drop, t := DropOf(user, id, revision), PerformAll(st, a);
    ElsewhereAll(st, a, user, id);
    DropBuries(t, user, id, revision);
    PerformAdvances(t, drop);
    UnindexedAll(Perform(t, drop), b, Index(st, user)[id]);
    PerformFirst(t, drop, b);
    PerformConcat(st, a, [drop] + b);
  }

  lemma PerformFirst(st: Store, w: Write, rest: seq<Write>)
    requires WellFormed(st) && WellFormed(Perform(st, w))
    ensures PerformAll(st, [w] + rest) == PerformAll(Perform(st, w), rest)
  {
    assert ([w] + rest)[0] == w && ([w] + rest)[1..] == rest;
  }

  /** What a publication drops, unless newer than the snapshot, ends deleted and not authorizing, and no index has
      it any more. */
  lemma ApplyBuries(st: Store, snap: Snapshot, gg: seq<Id>, gu: seq<Id>, user: bool, id: Id)
    requires WellFormed(st) && Canonical(st)
    requires IsGone(gg, snap.groups, st.groups, snap.requestedGroups, snap.all)
    requires IsGone(gu, snap.users, st.users, snap.requestedUsers, snap.all)
    requires id in (if user then gu else gg) && Droppable(st.heap, Index(st, user), id, snap.revision)
    ensures var r, t := Index(st, user)[id], PerformAll(st, Plan(snap, gg, gu));
      r < |t.heap| && IsBuried(st.heap[r], t.heap[r], snap.revision) && Unindexed(t, r)
  {
    var a, b := PlanFrom(snap, gg, gu, user, id);
    BuriesAmong(st, a, b, user, id, snap.revision);
  }

  // ---- what is put -------------------------------------------------------------------------------------------

  function PutOf(user: bool, rec: Record): Write {
    if user then PutUser(rec) else PutGroup(rec)
  }

  /** The state that a record is published as, given the index of groups. */
  function StateOf(user: bool, rec: Record, groups: map<Id, Ref>): Status {
    rec.status.(groups := if user then Resolve(groups, rec.memberships) else [])
  }

  predicate Holds(st: Store, user: bool, id: Id, status: Status)
    requires WellFormed(st)
  {
    id in Index(st, user) && st.heap[Index(st, user)[id]] == status
  }

  /** An id is not indexed, or at no newer revision. */
  predicate NotNewer(st: Store, user: bool, id: Id, revision: nat)
    requires WellFormed(st)
  {
    id in Index(st, user) ==> st.heap[Index(st, user)[id]].revision <= revision
  }

  lemma {:induction false} StaysNotNewer(st: Store, ws: seq<Write>, user: bool, id: Id, revision: nat)
    requires WellFormed(st) && Canonical(st) && NotNewer(st, user, id, revision)
    requires forall w :: w in ws && Concerns(w, user, id) ==>
      (w.PutUser? || w.PutGroup?) && w.rec.status.revision <= revision
    ensures Canonical(PerformAll(st, ws)) && NotNewer(PerformAll(st, ws), user, id, revision)
    decreases |ws|
  {
    if ws != [] {
      assert ws[0] in ws && forall w :: w in ws[1..] ==> w in ws;
      PerformAdvances(st, ws[0]);
      PerformCanonical(st, ws[0]);
      NotNewerStep(st, ws[0], user, id, revision);
      StaysNotNewer(Perform(st, ws[0]), ws[1..], user, id, revision);
    }
  }

  lemma NotNewerStep(st: Store, w: Write, user: bool, id: Id, revision: nat)
    requires WellFormed(st) && Canonical(st) && NotNewer(st, user, id, revision) && WellFormed(Perform(st, w))
    requires Concerns(w, user, id) ==> (w.PutUser? || w.PutGroup?) && w.rec.status.revision <= revision
    ensures NotNewer(Perform(st, w), user, id, revision)
  {
    if !Concerns(w, user, id) { Elsewhere(st, w, user, id); }
  }

  lemma PutHolds(st: Store, user: bool, rec: Record)
    requires WellFormed(st) && NotNewer(st, user, rec.id, rec.status.revision)
    requires WellFormed(Perform(st, PutOf(user, rec)))
    ensures Holds(Perform(st, PutOf(user, rec)), user, rec.id, StateOf(user, rec, st.groups))
    ensures user ==> Perform(st, PutOf(user, rec)).groups == st.groups
  {
  }

  lemma {:induction false} UsersKeepGroups(st: Store, ws: seq<Write>)
    requires WellFormed(st) && forall w :: w in ws ==> w.PutUser? || w.DropUser?
    ensures PerformAll(st, ws).groups == st.groups
    decreases |ws|
  {
    if ws != [] {
      assert ws[0] in ws && forall w :: w in ws[1..] ==> w in ws;
      PerformAdvances(st, ws[0]);
      UsersKeepGroups(Perform(st, ws[0]), ws[1..]);
    }
  }

  lemma PutsAmong(st: Store, a: seq<Write>, b: seq<Write>, user: bool, rec: Record)
    requires WellFormed(st) && Canonical(st) && NotNewer(st, user, rec.id, rec.status.revision)
    requires forall w :: w in a && Concerns(w, user, rec.id) ==>
      (w.PutUser? || w.PutGroup?) && w.rec.status.revision <= rec.status.revision
    requires forall w :: w in b ==> !Concerns(w, user, rec.id) && (user ==> w.PutUser? || w.DropUser?)
    ensures var t := PerformAll(st, a + ([PutOf(user, rec)] + b)); Holds(t, user, rec.id, StateOf(user, rec, t.groups))
  {
    var put, t := PutOf(user, rec), PerformAll(st, a);
    StaysNotNewer(st, a, user, rec.id, rec.status.revision);
    PerformAdvances(t, put);
    PerformCanonical(t, put);
    PutHolds(t, user, rec);
    ElsewhereAll(Perform(t, put), b, user, rec.id);
    if user { UsersKeepGroups(Perform(t, put), b); }
    PerformFirst(t, put, b);
    PerformConcat(st, a, [put] + b);
  }

  /** The k-th record is the last of its id in the snapshot, and none before it is newer. */
  predicate LastRecord(recs: seq<Record>, k: nat) {
    && k < |recs|
    && (forall j :: k < j < |recs| ==> recs[j].id != recs[k].id)
    && (forall j :: 0 <= j < k && recs[j].id == recs[k].id ==> recs[j].status.revision <= recs[k].status.revision)
  }

  lemma PutsSplit(recs: seq<Record>, k: nat, user: bool) returns (a: seq<Write>, b: seq<Write>)
    requires LastRecord(recs, k)
    ensures Puts(recs, user) == a + ([PutOf(user, recs[k])] + b)
    ensures forall w :: w in a && Concerns(w, user, recs[k].id) ==>
      (w.PutUser? || w.PutGroup?) && w.rec.status.revision <= recs[k].status.revision
    ensures forall w :: w in b ==> !Concerns(w, user, recs[k].id) && (if user then w.PutUser? else w.PutGroup?)
  {
    var puts := Puts(recs, user);
    a, b := puts[..k], puts[k + 1..];
    assert puts[k] == PutOf(user, recs[k]);
    forall w | w in a && Concerns(w, user, recs[k].id)
      ensures (w.PutUser? || w.PutGroup?) && w.rec.status.revision <= recs[k].status.revision
    {
      var j :| 0 <= j < k && a[j] == w;
      assert puts[j] == w;
    }
    forall w | w in b ensures !Concerns(w, user, recs[k].id) && (if user then w.PutUser? else w.PutGroup?) {
      var j :| 0 <= j < |b| && b[j] == w;
      assert puts[k + 1 + j] == w;
    }
  }

  lemma DropsConcern(gone: seq<Id>, revision: nat, kind: bool, user: bool, id: Id)
    requires kind == user ==> id !in gone
    ensures forall w :: w in Drops(gone, revision, kind) ==>
      !Concerns(w, user, id) && (if kind then w.DropUser? else w.DropGroup?)
  {
  }

  /** What a publication puts: the object of each record of the snapshot, unless older than what was published, ends in
      the record's state, and a user in the canonical groups of its memberships. */
  lemma ApplyPuts(st: Store, snap: Snapshot, gg: seq<Id>, gu: seq<Id>, user: bool, k: nat)
    requires WellFormed(st) && Canonical(st)
    requires IsGone(gg, snap.groups, st.groups, snap.requestedGroups, snap.all)
    requires IsGone(gu, snap.users, st.users, snap.requestedUsers, snap.all)
    requires var recs := if user then snap.users else snap.groups;
      LastRecord(recs, k) && NotNewer(st, user, recs[k].id, recs[k].status.revision)
    ensures var t, rec := PerformAll(st, Plan(snap, gg, gu)), (if user then snap.users else snap.groups)[k];
      Holds(t, user, rec.id, StateOf(user, rec, t.groups))
  {
    if user { PutUsers(st, snap, gg, gu, k); } else { PutGroups(st, snap, gg, gu, k); }
  }

  lemma PutUsers(st: Store, snap: Snapshot, gg: seq<Id>, gu: seq<Id>, k: nat)
    requires WellFormed(st) && Canonical(st) && LastRecord(snap.users, k) && snap.users[k].id !in gu
    requires NotNewer(st, true, snap.users[k].id, snap.users[k].status.revision)
    ensures var t, rec := PerformAll(st, Plan(snap, gg, gu)), snap.users[k];
      Holds(t, true, rec.id, StateOf(true, rec, t.groups))
  {
    var rec := snap.users[k];
    var a, b := PutsSplit(snap.users, k, true);
    var pg, dg, du := Puts(snap.groups, false), Drops(gg, snap.revision, false), Drops(gu, snap.revision, true);
    PutsConcern(snap.groups, false, true, rec.id);
    DropsConcern(gg, snap.revision, false, true, rec.id);
    DropsConcern(gu, snap.revision, true, true, rec.id);
    assert Plan(snap, gg, gu) == (pg + dg + a) + ([PutOf(true, rec)] + (b + du));
    PutsAmong(st, pg + dg + a, b + du, true, rec);
  }

  lemma PutGroups(st: Store, snap: Snapshot, gg: seq<Id>, gu: seq<Id>, k: nat)
    requires WellFormed(st) && Canonical(st) && LastRecord(snap.groups, k) && snap.groups[k].id !in gg
    requires NotNewer(st, false, snap.groups[k].id, snap.groups[k].status.revision)
    ensures var t, rec := PerformAll(st, Plan(snap, gg, gu)), snap.groups[k];
      Holds(t, false, rec.id, StateOf(false, rec, t.groups))
  {
    var rec := snap.groups[k];
    var a, b := PutsSplit(snap.groups, k, false);
    var dg, pu, du := Drops(gg, snap.revision, false), Puts(snap.users, true), Drops(gu, snap.revision, true);
    PutsConcern(snap.users, true, false, rec.id);
    DropsConcern(gg, snap.revision, false, false, rec.id);
    DropsConcern(gu, snap.revision, true, false, rec.id);
    assert Plan(snap, gg, gu) == a + ([PutOf(false, rec)] + (b + dg + pu + du));
    PutsAmong(st, a, b + dg + pu + du, false, rec);
  }

  /** These objects are the canonical ones of the memberships at these places, and the others are not indexed. */
  ghost predicate PicksIndexed(groups: map<Id, Ref>, ids: seq<Id>, ks: seq<nat>, refs: seq<Ref>) {
    && Places(ks, |ids|) && |ks| == |refs|
    && (forall i :: 0 <= i < |ks| ==> ids[ks[i]] in groups && refs[i] == groups[ids[ks[i]]])
    && (forall k: nat :: k < |ids| && k !in ks ==> ids[k] !in groups)
  }

  lemma PicksMore(groups: map<Id, Ref>, ids: seq<Id>, ks: seq<nat>, refs: seq<Ref>, id: Id)
    requires PicksIndexed(groups, ids, ks, refs)
    ensures id !in groups ==> PicksIndexed(groups, ids + [id], ks, refs)
    ensures id in groups ==> PicksIndexed(groups, ids + [id], ks + [|ids|], refs + [groups[id]])
  {
    assert (ids + [id])[|ids|] == id && forall k: nat :: k < |ids| ==> (ids + [id])[k] == ids[k];
  }

  /** The groups of a user are the canonical ones of exactly those memberships that are indexed, in order. */
  lemma {:induction false} ResolveExactly(groups: map<Id, Ref>, ids: seq<Id>) returns (ks: seq<nat>)
    ensures PicksIndexed(groups, ids, ks, Resolve(groups, ids))
    decreases ids
  {
    if ids == [] {
      ks := [];
    } else {
      var n := |ids| - 1;
      ks := ResolveExactly(groups, ids[..n]);
      PicksMore(groups, ids[..n], ks, Resolve(groups, ids[..n]), ids[n]);
      assert ids == ids[..n] + [ids[n]];
      if ids[n] in groups { ks := ks + [n]; }
    }
  }

  // ---- what stays --------------------------------------------------------------------------------------------

  /** The write does not concern the id, or is older than what is published under it. */
  predicate TooOld(w: Write, user: bool, id: Id, revision: nat) {
    !Concerns(w, user, id)
    || if w.PutUser? || w.PutGroup? then w.rec.status.revision < revision else w.revision < revision
  }

  /** An object that no write of a publication concerns, or that is newer than all that do, stays as it is. */
  lemma {:induction false} NewerStays(st: Store, ws: seq<Write>, user: bool, id: Id)
    requires WellFormed(st) && Canonical(st) && id in Index(st, user)
    requires forall w :: w in ws ==> TooOld(w, user, id, st.heap[Index(st, user)[id]].revision)
    ensures SameAt(st, PerformAll(st, ws), user, id)
    decreases |ws|
  {
    if ws != [] {
      assert ws[0] in ws && forall w :: w in ws[1..] ==> w in ws;
      PerformAdvances(st, ws[0]);
      PerformCanonical(st, ws[0]);
      NewerStep(st, ws[0], user, id);
      NewerStays(Perform(st, ws[0]), ws[1..], user, id);
    }
  }

  lemma NewerStep(st: Store, w: Write, user: bool, id: Id)
    requires WellFormed(st) && Canonical(st) && id in Index(st, user) && WellFormed(Perform(st, w))
    requires TooOld(w, user, id, st.heap[Index(st, user)[id]].revision)
    ensures SameAt(st, Perform(st, w), user, id)
  {
    if !Concerns(w, user, id) { Elsewhere(st, w, user, id); }
  }
}
