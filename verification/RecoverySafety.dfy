/** Crash safety of the recovery store: an invariant of every careful run, and what it gives. */
module RecoverySafety {
  import opened Wrappers
  import opened Recovery

  // ---- invariant ---------------------------------------------------------------------------------------------

  type Captures = map<Id, Capture>
  type Rows = map<Blob, Row>

  predicate Inserts(k: Capture) {
    k.phase.Attached? && k.phase.inserts
  }

  predicate Reuses(k: Capture) {
    k.phase.Attached? && !k.phase.inserts
  }

  /** The file of a capture in flight: its own while it is there, and there and unmarked while the capture is young. */
  predicate FileOk(k: Capture, files: map<Name, File>, sweeps: map<Id, Sweep>, clock: nat, minAge: nat) {
    && (k.name in files ==> files[k.name].since == k.stagedAt && files[k.name].bytes == k.gen.bytes)
    && (clock < k.stagedAt + minAge ==>
          && k.name in files && (k.phase.Ready? || k.phase.Attached? ==> files[k.name].durable)
          && Unmarked(sweeps, k.name))
  }

  ghost predicate FilesOk(captures: Captures, files: map<Name, File>, sweeps: map<Id, Sweep>, clock: nat, minAge: nat) {
    forall c :: c in captures && InFlight(captures[c]) ==> FileOk(captures[c], files, sweeps, clock, minAge)
  }

  predicate AttachOk(k: Capture, rows: Rows, nextBlob: Blob) {
    && (k.phase.Found? || k.phase.Chosen? ==> !k.owns) && (k.phase.Staged? ==> k.owns)
    && (k.phase.Found? || k.phase.Chosen? || k.phase.Staged? || k.phase.Ready? ==> !k.redundant)
    && (Inserts(k) ==>
      && k.owns && !k.redundant
      && k.phase.blob < nextBlob && k.phase.blob !in rows && NoRowOf(rows, k.gen))
    && (Reuses(k) ==>
          && k.redundant == k.owns && k.phase.blob < nextBlob
          && (k.phase.blob in rows ==> rows[k.phase.blob].gen == k.gen) && (k.phase.locked ==> k.phase.blob in rows))
  }

  ghost predicate AttachesOk(captures: Captures, rows: Rows, nextBlob: Blob) {
    forall c :: c in captures ==> AttachOk(captures[c], rows, nextBlob)
  }

  ghost predicate NamesOk(captures: Captures, rows: Rows) {
    forall c :: c in captures && MayUnlink(captures[c]) ==> NoRowNamed(rows, captures[c].name)
  }

  predicate Apart(k: Capture, l: Capture) {
    && (MayUnlink(k) && MayUnlink(l) ==> k.name != l.name)
    && (Inserts(k) && Inserts(l) ==> k.phase.blob != l.phase.blob && !SameGen(k.gen, l.gen))
    && (Inserts(k) && Reuses(l) ==> k.phase.blob != l.phase.blob)
  }

  ghost predicate AllApart(captures: Captures) {
    forall c, d :: c in captures && d in captures && c != d ==> Apart(captures[c], captures[d])
  }

  ghost predicate RemoversOk(removers: map<Id, Name>, rows: Rows, captures: Captures) {
    && (forall p :: p in removers ==> NoRowNamed(rows, removers[p]))
    && (forall p, c :: p in removers && c in captures && MayUnlink(captures[c]) ==> captures[c].name != removers[p])
  }

  predicate Orphans(names: set<Name>, rows: Rows) {
    forall n :: n in names ==> NoRowNamed(rows, n)
  }

  ghost predicate SweepsOk(sweeps: map<Id, Sweep>, rows: Rows) {
    forall p :: p in sweeps ==> Orphans(sweeps[p].doomed, rows)
  }

  ghost predicate RowsOk(rows: Rows, files: map<Name, File>, nextBlob: Blob) {
    RowsKept(rows, files) && RowsDistinct(rows) && forall b :: b in rows ==> b < nextBlob
  }

  ghost predicate RefsOk(refs: map<Id, Blob>, rows: Rows, wrote: map<Id, Gen>) {
    forall c :: c in refs ==> c in wrote && refs[c] in rows && rows[refs[c]].gen == wrote[c]
  }

  /** The capture's transaction committed with a reference. */
  predicate Written(c: Id, wrote: map<Id, Gen>, refs: map<Id, Blob>, released: set<Id>) {
    c in wrote && (c in refs || c in released)
  }

  ghost predicate CommittedOk(captures: Captures, wrote: map<Id, Gen>, refs: map<Id, Blob>, released: set<Id>) {
    && (forall c :: c in captures && (captures[c].phase.Committed? || captures[c].phase.Cleaned?) ==> c in wrote)
    && (forall c :: c in captures && c in wrote ==> Written(c, wrote, refs, released) && wrote[c] == captures[c].gen)
  }

  ghost predicate LeftOk(left: map<Id, Path>, wrote: map<Id, Gen>, refs: map<Id, Blob>, released: set<Id>) {
    forall c :: c in left ==> Written(c, wrote, refs, released)
  }

  /** A capture leaves one path only. */
  ghost predicate LeavesOwn(left: map<Id, Path>, captures: Captures) {
    forall c :: c in left && c in captures ==> left[c] == captures[c].origin
  }

  ghost predicate IdsOk(captures: Captures, wrote: map<Id, Gen>, nextId: Id) {
    forall c :: c in captures || c in wrote ==> c < nextId
  }

  /** A path that is being deleted holds what was captured. */
  predicate MoverOk(k: Capture, now: map<Path, nat>) {
    k.move && !k.phase.Done? && k.origin in now ==> now[k.origin] == k.gen.bytes
  }

  ghost predicate MoversOk(captures: Captures, now: map<Path, nat>) {
    forall c :: c in captures ==> MoverOk(captures[c], now)
  }

  ghost predicate Noted(now: map<Path, nat>, past: set<Content>) {
    forall p :: p in now ==> Content(p, now[p]) in past
  }

  ghost predicate WasLeft(left: map<Id, Path>, wrote: map<Id, Gen>, x: Content) {
    exists c :: c in left && left[c] == x.path && c in wrote && wrote[c].bytes == x.bytes
  }

  ghost predicate OriginsOk(now: map<Path, nat>, left: map<Id, Path>, wrote: map<Id, Gen>, past: set<Content>) {
    forall x :: x in past ==> (x.path in now && now[x.path] == x.bytes) || WasLeft(left, wrote, x)
  }

  ghost predicate CapturesOk(
    captures: Captures, files: map<Name, File>, sweeps: map<Id, Sweep>, rows: Rows, nextBlob: Blob,
    clock: nat, minAge: nat) {
    && FilesOk(captures, files, sweeps, clock, minAge)
    && AttachesOk(captures, rows, nextBlob)
    && NamesOk(captures, rows)
    && AllApart(captures)
  }

  ghost predicate StoreOk(
    captures: Captures, files: map<Name, File>, rows: Rows, nextBlob: Blob, removers: map<Id, Name>,
    sweeps: map<Id, Sweep>, refs: map<Id, Blob>, wrote: map<Id, Gen>) {
    && RemoversOk(removers, rows, captures)
    && SweepsOk(sweeps, rows)
    && RowsOk(rows, files, nextBlob)
    && RefsOk(refs, rows, wrote)
  }

  ghost predicate HistoryOk(captures: Captures, wrote: map<Id, Gen>, refs: map<Id, Blob>, released: set<Id>,
                            left: map<Id, Path>, nextId: Id, now: map<Path, nat>, past: set<Content>) {
    && CommittedOk(captures, wrote, refs, released)
    && LeftOk(left, wrote, refs, released) && LeavesOwn(left, captures)
    && IdsOk(captures, wrote, nextId)
    && MoversOk(captures, now)
    && OriginsOk(now, left, wrote, past) && Noted(now, past)
  }

  /** A new process gets an id that no removal has. */
  predicate RemoversOld(removers: map<Id, Name>, nextId: Id) {
    forall p :: p in removers ==> p < nextId
  }

  ghost predicate Inv(s: State, minAge: nat) {
    && RemoversOld(s.removers, s.nextId)
    && CapturesOk(s.captures, s.files, s.sweeps, s.rows, s.nextBlob, s.clock, minAge)
    && StoreOk(s.captures, s.files, s.rows, s.nextBlob, s.removers, s.sweeps, s.refs, s.wrote)
    && HistoryOk(s.captures, s.wrote, s.refs, s.released, s.left, s.nextId, s.origins, s.past)
  }

  predicate Harmless(s: State, step: Step, minAge: nat) {
    !Poses(s, step, minAge, InDoubt) && !Poses(s, step, minAge, Late) && !Poses(s, step, minAge, Reused)
  }

  // ---- steps -------------------------------------------------------------------------------------------------

  predicate AgreeExcept(files: map<Name, File>, now: map<Name, File>, n: Name) {
    && (forall m :: m in files && m != n ==> m in now && now[m] == files[m])
    && (forall m :: m in now && m != n ==> m in files)
  }

  /** What a capture that changes phase claims is no more than it claimed before, or holds of the new files. */
  ghost predicate MayGo(
    k: Capture, l: Capture, files: map<Name, File>, now: map<Name, File>, rows: Rows, nextBlob: Blob,
    sweeps: map<Id, Sweep>, clock: nat, minAge: nat) {
    && (now == files || (MayUnlink(k) && NoRowNamed(rows, k.name) && AgreeExcept(files, now, k.name)))
    && (l.phase.Attached? ==> k.phase.Attached? && l.phase.blob == k.phase.blob && l.phase.inserts == k.phase.inserts)
    && (MayUnlink(l) ==> MayUnlink(k))
    && (InFlight(l) ==> FileOk(l, now, sweeps, clock, minAge)) && AttachOk(l, rows, nextBlob)
    && (l.phase.Committed? || l.phase.Cleaned? ==> k.phase.Committed? || k.phase.Cleaned?)
    && (k.phase.Done? ==> l.phase.Done?)
  }

  /** A capture that goes on without claiming more, and the file it holds with it. */
  lemma Weaken(
    captures: Captures, c: Id, l: Capture, files: map<Name, File>, now: map<Name, File>, sweeps: map<Id, Sweep>,
    rows: Rows, nextBlob: Blob, clock: nat, minAge: nat)
    requires CapturesOk(captures, files, sweeps, rows, nextBlob, clock, minAge) && c in captures
    requires l == captures[c].(phase := l.phase)
    requires MayGo(captures[c], l, files, now, rows, nextBlob, sweeps, clock, minAge)
    ensures CapturesOk(captures[c := l], now, sweeps, rows, nextBlob, clock, minAge)
  {
    forall d | d in captures && d != c && InFlight(captures[d])
      ensures FileOk(captures[d], now, sweeps, clock, minAge)
    {
      assert Apart(captures[d], captures[c]);
    }
  }

  /** The store's side of it: the file is one that no row names. */
  lemma WeakenStore(
    captures: Captures, c: Id, l: Capture, files: map<Name, File>, now: map<Name, File>, rows: Rows, nextBlob: Blob,
    removers: map<Id, Name>, sweeps: map<Id, Sweep>, refs: map<Id, Blob>, wrote: map<Id, Gen>, clock: nat,
    minAge: nat)
    requires StoreOk(captures, files, rows, nextBlob, removers, sweeps, refs, wrote) && c in captures
    requires l == captures[c].(phase := l.phase)
    requires MayGo(captures[c], l, files, now, rows, nextBlob, sweeps, clock, minAge)
    ensures StoreOk(captures[c := l], now, rows, nextBlob, removers, sweeps, refs, wrote)
  {
  }

  lemma WeakenHistory(
    captures: Captures, c: Id, k: Capture, wrote: map<Id, Gen>, refs: map<Id, Blob>, released: set<Id>,
    left: map<Id, Path>, nextId: Id, now: map<Path, nat>, past: set<Content>)
    requires HistoryOk(captures, wrote, refs, released, left, nextId, now, past)
    requires c in captures && k.origin == captures[c].origin && k.gen == captures[c].gen && k.move == captures[c].move
    requires k.phase.Committed? || k.phase.Cleaned? ==> captures[c].phase.Committed? || captures[c].phase.Cleaned?
    requires captures[c].phase.Done? ==> k.phase.Done?
    ensures HistoryOk(captures[c := k], wrote, refs, released, left, nextId, now, past)
  {
  }

  lemma Keeps(s: State, c: Id, p: Phase, now: map<Name, File>, minAge: nat)
    requires c in s.captures && Inv(s, minAge)
    requires MayGo(s.captures[c], s.captures[c].(phase := p), s.files, now, s.rows, s.nextBlob, s.sweeps, s.clock,
      minAge)
    ensures Inv(To(s.(files := now), c, p), minAge)
  {
    var l := s.captures[c].(phase := p);
    Weaken(s.captures, c, l, s.files, now, s.sweeps, s.rows, s.nextBlob, s.clock, minAge);
    WeakenStore(s.captures, c, l, s.files, now, s.rows, s.nextBlob, s.removers, s.sweeps, s.refs, s.wrote, s.clock,
      minAge);
    WeakenHistory(s.captures, c, l, s.wrote, s.refs, s.released, s.left, s.nextId, s.origins, s.past);
  }

  lemma AbortKeeps(s: State, c: Id, minAge: nat)
    requires Inv(s, minAge) && InPhase(s, c, Failed)
    ensures Inv(Aborted(s, c), minAge)
  {
    Keeps(s, c, Done, Aborted(s, c).files, minAge);
  }

  lemma DropKeeps(s: State, c: Id, minAge: nat)
    requires Inv(s, minAge) && InPhase(s, c, Committed)
    ensures Inv(Dropped(s, c), minAge)
  {
    Keeps(s, c, Cleaned, Dropped(s, c).files, minAge);
  }

  lemma CheckFileKeeps(s: State, c: Id, minAge: nat)
    requires Inv(s, minAge) && InPhase(s, c, Found)
    ensures Inv(To(s, c, if s.captures[c].name in s.files then Ready else Chosen), minAge)
  {
    Keeps(s, c, if s.captures[c].name in s.files then Ready else Chosen, s.files, minAge);
  }

  lemma SyncKeeps(s: State, c: Id, minAge: nat)
    requires Inv(s, minAge) && CanSync(s, c)
    ensures Inv(Synced(s, c), minAge)
  {
    Keeps(s, c, Ready, Synced(s, c).files, minAge);
  }

  lemma ReferenceKeeps(s: State, c: Id, minAge: nat)
    requires Inv(s, minAge) && CanReference(s, c)
    ensures Inv(To(s, c, s.captures[c].phase.(locked := true)), minAge)
  {
    Keeps(s, c, s.captures[c].phase.(locked := true), s.files, minAge);
  }

  lemma FailKeeps(s: State, c: Id, minAge: nat)
    requires Inv(s, minAge) && CanFail(s, c)
    ensures Inv(To(s, c, Failed), minAge)
  {
    Keeps(s, c, Failed, s.files, minAge);
  }

  lemma ReleaseKeeps(s: State, c: Id, minAge: nat)
    requires Inv(s, minAge) && c in s.refs
    ensures Inv(s.(refs := s.refs - {c}, released := s.released + {c}), minAge)
  {
  }

  lemma RemoveKeeps(s: State, p: Id, minAge: nat)
    requires Inv(s, minAge) && p in s.removers
    ensures Inv(Removed(s, p), minAge)
  {
  }

  lemma SweepStartKeeps(s: State, minAge: nat)
    requires Inv(s, minAge)
    ensures Inv(s.(sweeps := s.sweeps[s.nextId := Sweep({}, {})], nextId := s.nextId + 1), minAge)
  {
  }

  lemma SeeKeeps(s: State, p: Id, n: Name, minAge: nat)
    requires Inv(s, minAge) && CanSee(s, p, n, minAge)
    ensures Inv(Seen(s, p, n), minAge)
  {
  }

  lemma QueryKeeps(s: State, p: Id, batch: set<Name>, minAge: nat)
    requires Inv(s, minAge) && CanQuery(s, p, batch)
    ensures Inv(Queried(s, p, batch), minAge)
  {
  }

  lemma SweepKeeps(s: State, p: Id, n: Name, minAge: nat)
    requires Inv(s, minAge) && CanSweep(s, p, n)
    ensures Inv(Swept(s, p, n), minAge)
  {
  }

  lemma CrashKeeps(s: State, lost: set<Name>, minAge: nat)
    requires Inv(s, minAge) && CanLose(s, lost)
    ensures Inv(s.(files := s.files - lost, captures := map[], removers := map[], sweeps := map[]), minAge)
  {
  }

  // A new capture.

  lemma Enter(
    captures: Captures, c: Id, l: Capture, files: map<Name, File>, sweeps: map<Id, Sweep>, rows: Rows, nextBlob: Blob,
    clock: nat, minAge: nat)
    requires CapturesOk(captures, files, sweeps, rows, nextBlob, clock, minAge) && !l.owns && !l.redundant
    requires l.phase.Found? || l.phase.Chosen?
    ensures CapturesOk(captures[c := l], files, sweeps, rows, nextBlob, clock, minAge)
  {
  }

  lemma EnterHistory(captures: Captures, l: Capture, wrote: map<Id, Gen>, refs: map<Id, Blob>, released: set<Id>,
                    left: map<Id, Path>, nextId: Id, now: map<Path, nat>, past: set<Content>)
    requires HistoryOk(captures, wrote, refs, released, left, nextId, now, past)
    requires MoverOk(l, now) && (l.phase.Found? || l.phase.Chosen?)
    ensures HistoryOk(captures[nextId := l], wrote, refs, released, left, nextId + 1, now, past)
  {
  }

  lemma LookupKeeps(s: State, gen: Gen, origin: Path, move: bool, hit: Option<Blob>, n: Name, minAge: nat)
    requires Inv(s, minAge) && CanLookup(s, gen, origin, hit, n)
    ensures Inv(Started(s, gen, origin, move, hit, n), minAge)
  {
    var l := Started(s, gen, origin, move, hit, n).captures[s.nextId];
    Enter(s.captures, s.nextId, l, s.files, s.sweeps, s.rows, s.nextBlob, s.clock, minAge);
    EnterHistory(s.captures, l, s.wrote, s.refs, s.released, s.left, s.nextId, s.origins, s.past);
  }

  // Deleting an unreferenced row.

  lemma DeleteRowCaptures(
    captures: Captures, b: Blob, files: map<Name, File>, sweeps: map<Id, Sweep>, rows: Rows, nextBlob: Blob,
    clock: nat, minAge: nat)
    requires CapturesOk(captures, files, sweeps, rows, nextBlob, clock, minAge) && b in rows
    requires forall c :: c in captures && captures[c].phase.Attached? && captures[c].phase.locked ==>
      captures[c].phase.blob != b
    ensures CapturesOk(captures, files, sweeps, rows - {b}, nextBlob, clock, minAge)
  {
  }

  lemma DeleteRowStore(
    captures: Captures, b: Blob, id: Id, files: map<Name, File>, rows: Rows, nextBlob: Blob, removers: map<Id, Name>,
    sweeps: map<Id, Sweep>, refs: map<Id, Blob>, wrote: map<Id, Gen>)
    requires StoreOk(captures, files, rows, nextBlob, removers, sweeps, refs, wrote) && NamesOk(captures, rows)
    requires b in rows
    requires forall c :: c in refs ==> refs[c] != b
    ensures StoreOk(captures, files, rows - {b}, nextBlob, removers[id := rows[b].name], sweeps, refs, wrote)
  {
  }

  lemma DeleteRowKeeps(s: State, b: Blob, minAge: nat)
    requires Inv(s, minAge) && b in s.rows && Unreferenced(s, b)
    ensures Inv(RowDeleted(s, b), minAge)
  {
    DeleteRowCaptures(s.captures, b, s.files, s.sweeps, s.rows, s.nextBlob, s.clock, minAge);
    DeleteRowStore(s.captures, b, s.nextId, s.files, s.rows, s.nextBlob, s.removers, s.sweeps, s.refs, s.wrote);
  }

  // Staging under a clear name.

  lemma StageCaptures(s: State, c: Id, durable: bool, files: map<Name, File>, captures: Captures, minAge: nat)
    requires CapturesOk(s.captures, s.files, s.sweeps, s.rows, s.nextBlob, s.clock, minAge)
    requires InPhase(s, c, Chosen) && Clear(s, s.captures[c].name)
    requires files == s.files[s.captures[c].name := File(s.captures[c].gen.bytes, durable, s.clock)]
    requires captures == s.captures[c := s.captures[c].(phase := Staged, owns := true, stagedAt := s.clock)]
    ensures CapturesOk(captures, files, s.sweeps, s.rows, s.nextBlob, s.clock, minAge)
  {
    var l := captures[c];
    assert FileOk(l, files, s.sweeps, s.clock, minAge);
    forall d | d in s.captures && d != c
      ensures InFlight(s.captures[d]) ==> FileOk(s.captures[d], files, s.sweeps, s.clock, minAge)
      ensures Apart(s.captures[d], l) && Apart(l, s.captures[d])
    {
      assert MayUnlink(s.captures[d]) ==> s.captures[d].name != l.name;
    }
  }

  lemma StageStore(s: State, c: Id, durable: bool, files: map<Name, File>, captures: Captures)
    requires StoreOk(s.captures, s.files, s.rows, s.nextBlob, s.removers, s.sweeps, s.refs, s.wrote)
    requires InPhase(s, c, Chosen) && Clear(s, s.captures[c].name)
    requires files == s.files[s.captures[c].name := File(s.captures[c].gen.bytes, durable, s.clock)]
    requires captures == s.captures[c := s.captures[c].(phase := Staged, owns := true, stagedAt := s.clock)]
    ensures StoreOk(captures, files, s.rows, s.nextBlob, s.removers, s.sweeps, s.refs, s.wrote)
  {
  }

  lemma StageKeeps(s: State, c: Id, replace: bool, minAge: nat)
    requires Inv(s, minAge) && CanStage(s, c)
    requires Writes(s, c, replace) ==> Clear(s, s.captures[c].name)
    ensures Inv(Linked(s, c, replace), minAge)
  {
    if Writes(s, c, replace) {
      var s' := Linked(s, c, replace);
      var durable := s'.files[s.captures[c].name].durable;
      StageCaptures(s, c, durable, s'.files, s'.captures, minAge);
      StageStore(s, c, durable, s'.files, s'.captures);
      WeakenHistory(s.captures, c, s'.captures[c], s.wrote, s.refs, s.released, s.left, s.nextId, s.origins, s.past);
    } else {
      Keeps(s, c, Ready, s.files, minAge);
    }
  }

  // Joining the caller's transaction.

  lemma AttachCaptures(s: State, c: Id, hit: Option<Blob>, captures: Captures, nextBlob: Blob, minAge: nat)
    requires CapturesOk(s.captures, s.files, s.sweeps, s.rows, s.nextBlob, s.clock, minAge)
    requires CanAttach(s, c, hit) && captures == Joined(s, c, hit).captures && nextBlob == Joined(s, c, hit).nextBlob
    requires forall b :: b in s.rows ==> b < s.nextBlob
    ensures CapturesOk(captures, s.files, s.sweeps, s.rows, nextBlob, s.clock, minAge)
  {
    var k, l := s.captures[c], captures[c];
    if hit.Some? && k.owns { assert NoRowNamed(s.rows, k.name); }
    assert AttachOk(l, s.rows, nextBlob);
    forall d | d in s.captures && d != c ensures Apart(s.captures[d], l) && Apart(l, s.captures[d]) {
      assert Apart(s.captures[d], k) && Apart(k, s.captures[d]) && AttachOk(s.captures[d], s.rows, s.nextBlob);
    }
  }

  lemma AttachStore(s: State, c: Id, hit: Option<Blob>, captures: Captures, nextBlob: Blob)
    requires StoreOk(s.captures, s.files, s.rows, s.nextBlob, s.removers, s.sweeps, s.refs, s.wrote)
    requires CanAttach(s, c, hit) && captures == Joined(s, c, hit).captures && nextBlob == Joined(s, c, hit).nextBlob
    ensures StoreOk(captures, s.files, s.rows, nextBlob, s.removers, s.sweeps, s.refs, s.wrote)
  {
  }

  lemma AttachKeeps(s: State, c: Id, hit: Option<Blob>, minAge: nat)
    requires Inv(s, minAge) && CanAttach(s, c, hit)
    ensures Inv(Joined(s, c, hit), minAge)
  {
    var s' := Joined(s, c, hit);
    AttachCaptures(s, c, hit, s'.captures, s'.nextBlob, minAge);
    AttachStore(s, c, hit, s'.captures, s'.nextBlob);
    WeakenHistory(s.captures, c, s'.captures[c], s.wrote, s.refs, s.released, s.left, s.nextId, s.origins, s.past);
  }

  // Committing with the file in place.

  lemma CommitCaptures(s: State, c: Id, captures: Captures, rows: Rows, minAge: nat)
    requires CapturesOk(s.captures, s.files, s.sweeps, s.rows, s.nextBlob, s.clock, minAge) && CanCommit(s, c)
    requires captures == To(s, c, Committed).captures && rows == Recorded(s, c).rows
    ensures CapturesOk(captures, s.files, s.sweeps, rows, s.nextBlob, s.clock, minAge)
  {
    var k := s.captures[c];
    forall d | d in s.captures && d != c
      ensures AttachOk(s.captures[d], rows, s.nextBlob)
      ensures MayUnlink(s.captures[d]) ==> NoRowNamed(rows, s.captures[d].name)
    {
      assert Apart(k, s.captures[d]) && AttachOk(s.captures[d], s.rows, s.nextBlob);
    }
    assert MayUnlink(captures[c]) ==> rows == s.rows && MayUnlink(k);
  }

  lemma InsertRow(
    rows: Rows, b: Blob, r: Row, files: map<Name, File>, nextBlob: Blob, sweeps: map<Id, Sweep>,
    removers: map<Id, Name>)
    requires RowsOk(rows, files, nextBlob) && RowKept(r, files) && b < nextBlob && b !in rows
    requires NoRowOf(rows, r.gen) && NoRowNamed(rows, r.name)
    requires SweepsOk(sweeps, rows) && !IsDoomed(sweeps, r.name)
    requires forall p :: p in removers ==> NoRowNamed(rows, removers[p]) && removers[p] != r.name
    ensures RowsOk(rows[b := r], files, nextBlob) && SweepsOk(sweeps, rows[b := r])
    ensures forall p :: p in removers ==> NoRowNamed(rows[b := r], removers[p])
  {
  }

  lemma CommitStore(
    captures: Captures, c: Id, files: map<Name, File>, rows: Rows, now: Rows, nextBlob: Blob, removers: map<Id, Name>,
    sweeps: map<Id, Sweep>, refs: map<Id, Blob>, wrote: map<Id, Gen>)
    requires StoreOk(captures, files, rows, nextBlob, removers, sweeps, refs, wrote)
    requires c in captures && captures[c].phase.Attached? && captures[c].phase.locked
    requires AttachOk(captures[c], rows, nextBlob) && (InFlight(captures[c]) ==> NoRowNamed(rows, captures[c].name))
    requires var k := captures[c];
      if k.phase.inserts then
        && RowKept(Row(k.name, k.gen), files) && !IsDoomed(sweeps, k.name)
        && now == rows[k.phase.blob := Row(k.name, k.gen)]
      else now == rows
    ensures StoreOk(captures[c := captures[c].(phase := Committed)], files, now, nextBlob, removers, sweeps,
                    refs[c := captures[c].phase.blob], wrote[c := captures[c].gen])
  {
    var k := captures[c];
    if k.phase.inserts {
      InsertRow(rows, k.phase.blob, Row(k.name, k.gen), files, nextBlob, sweeps, removers);
    }
  }

  lemma RecordOrigins(
    wrote: map<Id, Gen>, c: Id, gen: Gen, left: map<Id, Path>, now: map<Path, nat>, past: set<Content>)
    requires OriginsOk(now, left, wrote, past) && (c in wrote ==> wrote[c] == gen)
    ensures OriginsOk(now, left, wrote[c := gen], past)
  {
    forall x | x in past && WasLeft(left, wrote, x) ensures WasLeft(left, wrote[c := gen], x) {
      var d :| d in left && left[d] == x.path && d in wrote && wrote[d].bytes == x.bytes;
      assert d in wrote[c := gen] && wrote[c := gen][d].bytes == x.bytes;
    }
  }

  /** The transaction of an attached capture committed, and the caller knows it or not. */
  lemma RecordHistory(
    captures: Captures, c: Id, b: Blob, p: Phase, wrote: map<Id, Gen>, refs: map<Id, Blob>, released: set<Id>,
    left: map<Id, Path>, nextId: Id, now: map<Path, nat>, past: set<Content>)
    requires HistoryOk(captures, wrote, refs, released, left, nextId, now, past)
    requires c in captures && captures[c].phase.Attached? && (p.Committed? || p.Failed?)
    ensures HistoryOk(captures[c := captures[c].(phase := p)], wrote[c := captures[c].gen], refs[c := b], released,
                      left, nextId, now, past)
  {
    RecordOrigins(wrote, c, captures[c].gen, left, now, past);
  }

  /** The file of a capture that is still young is there, durable and not doomed. */
  lemma ExposedIsLate(s: State, c: Id, minAge: nat)
    requires Inv(s, minAge) && IsAttached(s, c) && Exposed(s, c)
    ensures TooLate(s, c, minAge)
  {
    var k := s.captures[c];
    assert AttachOk(k, s.rows, s.nextBlob) && InFlight(k) && FileOk(k, s.files, s.sweeps, s.clock, minAge);
  }

  lemma CommitKeeps(s: State, c: Id, minAge: nat)
    requires Inv(s, minAge) && CanCommit(s, c) && !Exposed(s, c)
    ensures Inv(To(Recorded(s, c), c, Committed), minAge)
  {
    var s' := To(Recorded(s, c), c, Committed);
    var k := s.captures[c];
    assert AttachOk(k, s.rows, s.nextBlob) && (InFlight(k) ==> FileOk(k, s.files, s.sweeps, s.clock, minAge));
    CommitCaptures(s, c, s'.captures, s'.rows, minAge);
    CommitStore(s.captures, c, s.files, s.rows, s'.rows, s.nextBlob, s.removers, s.sweeps, s.refs, s.wrote);
    RecordHistory(s.captures, c, s.captures[c].phase.blob, Committed, s.wrote, s.refs, s.released, s.left, s.nextId,
      s.origins, s.past);
  }

  // A commit in doubt that adds no row.

  lemma DoubtStore(
    captures: Captures, c: Id, files: map<Name, File>, rows: Rows, nextBlob: Blob, removers: map<Id, Name>,
    sweeps: map<Id, Sweep>, refs: map<Id, Blob>, wrote: map<Id, Gen>)
    requires StoreOk(captures, files, rows, nextBlob, removers, sweeps, refs, wrote) && c in captures
    requires Reuses(captures[c]) && captures[c].phase.locked && AttachOk(captures[c], rows, nextBlob)
    ensures StoreOk(captures[c := captures[c].(phase := Failed)], files, rows, nextBlob, removers, sweeps,
                    refs[c := captures[c].phase.blob], wrote[c := captures[c].gen])
  {
  }

  lemma DoubtCaptures(s: State, c: Id, minAge: nat)
    requires CapturesOk(s.captures, s.files, s.sweeps, s.rows, s.nextBlob, s.clock, minAge)
    requires CanCommit(s, c) && !s.captures[c].phase.inserts
    ensures CapturesOk(s.captures[c := s.captures[c].(phase := Failed)], s.files, s.sweeps, s.rows, s.nextBlob,
      s.clock, minAge)
  {
    var k, l := s.captures[c], s.captures[c].(phase := Failed);
    assert MayUnlink(k) ==> InFlight(k) && NoRowNamed(s.rows, k.name) && FileOk(k, s.files, s.sweeps, s.clock, minAge);
    Weaken(s.captures, c, l, s.files, s.files, s.sweeps, s.rows, s.nextBlob, s.clock, minAge);
  }

  lemma DoubtKeeps(s: State, c: Id, minAge: nat)
    requires Inv(s, minAge) && CanCommit(s, c) && !s.captures[c].phase.inserts
    ensures Inv(To(Recorded(s, c), c, Failed), minAge)
  {
    var b := s.captures[c].phase.blob;
    assert AttachOk(s.captures[c], s.rows, s.nextBlob);
    DoubtCaptures(s, c, minAge);
    DoubtStore(s.captures, c, s.files, s.rows, s.nextBlob, s.removers, s.sweeps, s.refs, s.wrote);
    RecordHistory(s.captures, c, b, Failed, s.wrote, s.refs, s.released, s.left, s.nextId, s.origins, s.past);
  }

  // Unlinking and replacing the origin.

  lemma LeaveOrigins(
    wrote: map<Id, Gen>, c: Id, path: Path, left: map<Id, Path>, now: map<Path, nat>, then_: map<Path, nat>,
    past: set<Content>)
    requires OriginsOk(now, left, wrote, past) && c in wrote && (c in left ==> left[c] == path)
    requires path in now ==> now[path] == wrote[c].bytes
    requires forall p :: p in now && p != path ==> p in then_ && then_[p] == now[p]
    ensures OriginsOk(then_, left[c := path], wrote, past)
  {
    var after := left[c := path];
    forall x | x in past ensures (x.path in then_ && then_[x.path] == x.bytes) || WasLeft(after, wrote, x) {
      if x.path in now && now[x.path] == x.bytes {
        if x.path == path { assert c in after && after[c] == x.path; }
      } else {
        var d :| d in left && left[d] == x.path && d in wrote && wrote[d].bytes == x.bytes;
        assert d in after && after[d] == x.path;
      }
    }
  }

  lemma UnlinkOriginHistory(captures: Captures, c: Id, wrote: map<Id, Gen>, refs: map<Id, Blob>, released: set<Id>,
                      left: map<Id, Path>, nextId: Id, now: map<Path, nat>, past: set<Content>)
    requires HistoryOk(captures, wrote, refs, released, left, nextId, now, past)
    requires c in captures && captures[c].phase.Cleaned? && captures[c].move
    ensures HistoryOk(captures[c := captures[c].(phase := Done)], wrote, refs, released,
                      left[c := captures[c].origin], nextId, now - {captures[c].origin}, past)
  {
    assert MoverOk(captures[c], now);
    LeaveOrigins(wrote, c, captures[c].origin, left, now, now - {captures[c].origin}, past);
  }

  lemma UnlinkedHistory(s: State, c: Id)
    requires HistoryOk(s.captures, s.wrote, s.refs, s.released, s.left, s.nextId, s.origins, s.past)
    requires InPhase(s, c, Cleaned)
    ensures var t := OriginUnlinked(s, c);
      HistoryOk(t.captures, t.wrote, t.refs, t.released, t.left, t.nextId, t.origins, t.past)
  {
    if s.captures[c].move {
      UnlinkOriginHistory(s.captures, c, s.wrote, s.refs, s.released, s.left, s.nextId, s.origins, s.past);
    } else {
      WeakenHistory(s.captures, c, s.captures[c].(phase := Done), s.wrote, s.refs, s.released, s.left, s.nextId,
        s.origins, s.past);
    }
  }

  lemma UnlinkOriginKeeps(s: State, c: Id, minAge: nat)
    requires Inv(s, minAge) && InPhase(s, c, Cleaned)
    ensures Inv(OriginUnlinked(s, c), minAge)
  {
    var l := s.captures[c].(phase := Done);
    Weaken(s.captures, c, l, s.files, s.files, s.sweeps, s.rows, s.nextBlob, s.clock, minAge);
    WeakenStore(s.captures, c, l, s.files, s.files, s.rows, s.nextBlob, s.removers, s.sweeps, s.refs, s.wrote,
      s.clock, minAge);
    UnlinkedHistory(s, c);
  }

  lemma ReplaceOrigins(now: map<Path, nat>, left: map<Id, Path>, wrote: map<Id, Gen>, past: set<Content>, x: Content)
    requires OriginsOk(now, left, wrote, past) && x.path in now && now[x.path] == x.bytes
    ensures OriginsOk(now, left, wrote, past + {x})
  {
  }

  lemma ReplaceHistory(
    captures: Captures, c: Id, bytes: nat, wrote: map<Id, Gen>, refs: map<Id, Blob>, released: set<Id>,
    left: map<Id, Path>, nextId: Id, now: map<Path, nat>, past: set<Content>)
    requires HistoryOk(captures, wrote, refs, released, left, nextId, now, past) && c in captures && c in wrote
    requires captures[c].origin in now && now[captures[c].origin] == captures[c].gen.bytes
    requires forall d :: d in captures && captures[d].move && captures[d].origin == captures[c].origin ==>
      captures[d].phase.Done?
    ensures var path := captures[c].origin;
      HistoryOk(captures, wrote, refs, released, left[c := path], nextId, now[path := bytes],
        past + {Content(path, bytes)})
  {
    var path := captures[c].origin;
    LeaveOrigins(wrote, c, path, left, now, now[path := bytes], past);
    ReplaceOrigins(now[path := bytes], left[c := path], wrote, past, Content(path, bytes));
  }

  lemma ReplaceKeeps(s: State, c: Id, bytes: nat, minAge: nat)
    requires Inv(s, minAge) && CanReplace(s, c)
    ensures Inv(Replaced(s, c, bytes), minAge)
  {
    ReplaceHistory(s.captures, c, bytes, s.wrote, s.refs, s.released, s.left, s.nextId, s.origins, s.past);
  }

  lemma OpenKeeps(s: State, step: Step, minAge: nat)
    requires Inv(s, minAge) && Opens(step) && CanOpen(s, step) && !Poses(s, step, minAge, Reused)
    ensures Inv(Opened(s, step), minAge)
  {
    match step
    case CheckFile(c) => CheckFileKeeps(s, c, minAge);
    case Stage(c, replace) => StageKeeps(s, c, replace, minAge);
    case Sync(c) => SyncKeeps(s, c, minAge);
    case Attach(c, hit) => AttachKeeps(s, c, hit, minAge);
    case Reference(c) => ReferenceKeeps(s, c, minAge);
    case Fail(c) => FailKeeps(s, c, minAge);
  }

  lemma CloseKeeps(s: State, step: Step, minAge: nat)
    requires Inv(s, minAge) && Closes(step) && CanClose(s, step)
    requires !Poses(s, step, minAge, InDoubt) && !Poses(s, step, minAge, Late)
    ensures Inv(Closed(s, step), minAge)
  {
    match step
    case Commit(c) =>
      if Exposed(s, c) { ExposedIsLate(s, c, minAge); }
      CommitKeeps(s, c, minAge);
    case CommitInDoubt(c) => DoubtKeeps(s, c, minAge);
    case DropRedundant(c) => DropKeeps(s, c, minAge);
    case UnlinkOrigin(c) => UnlinkOriginKeeps(s, c, minAge);
    case Replace(c, bytes) => ReplaceKeeps(s, c, bytes, minAge);
    case Abort(c) => AbortKeeps(s, c, minAge);
  }

  lemma OtherKeeps(s: State, step: Step, minAge: nat)
    requires Inv(s, minAge) && !Opens(step) && !Closes(step) && CanOther(s, step, minAge)
    ensures Inv(Others(s, step, minAge), minAge)
  {
    match step
    case Tick =>
    case Lookup(gen, origin, move, hit, n) => LookupKeeps(s, gen, origin, move, hit, n, minAge);
    case Release(c) => ReleaseKeeps(s, c, minAge);
    case DeleteRow(b) => DeleteRowKeeps(s, b, minAge);
    case UnlinkRemoved(p) => RemoveKeeps(s, p, minAge);
    case SweepStart => SweepStartKeeps(s, minAge);
    case SweepSee(p, n) => SeeKeeps(s, p, n, minAge);
    case SweepQuery(p, batch) => QueryKeeps(s, p, batch, minAge);
    case SweepUnlink(p, n) => SweepKeeps(s, p, n, minAge);
    case Crash(lost) => CrashKeeps(s, lost, minAge);
  }

  /** Every step that poses no hazard keeps the invariant. */
  lemma StepKeeps(s: State, step: Step, minAge: nat)
    requires Inv(s, minAge) && Enabled(s, step, minAge) && Harmless(s, step, minAge)
    ensures Inv(Apply(s, step, minAge), minAge)
  {
    if Opens(step) {
      OpenKeeps(s, step, minAge);
    } else if Closes(step) {
      CloseKeeps(s, step, minAge);
    } else {
      OtherKeeps(s, step, minAge);
    }
  }

  // ---- runs --------------------------------------------------------------------------------------------------

  /** A run whose steps pose none of the three hazards keeps the invariant. */
  lemma {:induction false} RunKeeps(run: seq<State>, steps: seq<Step>, minAge: nat, origins: map<Path, nat>, i: nat)
    requires IsRun(run, steps, minAge, origins) && Careful(run, steps, minAge) && i < |run|
    ensures Inv(run[i], minAge)
  {
    if i > 0 {
      RunKeeps(run, steps, minAge, origins, i - 1);
      var s, step := run[i - 1], steps[i - 1];
      assert run[i] == Apply(s, step, minAge);
      assert forall h :: !Poses(s, step, minAge, h);
      StepKeeps(s, step, minAge);
    }
  }

  lemma ClosePast(s: State, step: Step)
    requires Closes(step) && CanClose(s, step)
    ensures s.past <= Closed(s, step).past
  {
  }

  lemma OtherPast(s: State, step: Step, minAge: nat)
    requires !Opens(step) && !Closes(step) && CanOther(s, step, minAge)
    ensures Others(s, step, minAge).past == s.past
  {
  }

  /** What was ever noted stays noted. */
  lemma {:induction false} PastGrows(run: seq<State>, steps: seq<Step>, minAge: nat, origins: map<Path, nat>, i: nat)
    requires IsRun(run, steps, minAge, origins) && i < |run|
    ensures run[0].past <= run[i].past
  {
    if i > 0 {
      PastGrows(run, steps, minAge, origins, i - 1);
      var s, step := run[i - 1], steps[i - 1];
      assert Enabled(s, step, minAge) && run[i] == Apply(s, step, minAge);
      if Closes(step) { ClosePast(s, step); } else if !Opens(step) { OtherPast(s, step, minAge); }
    }
  }

  /** Crash safety: at every point of such a run, across crashes and concurrent captures, aborts, removals and sweeps,
      every committed row has its durable file with the generation's bytes, a keyed generation has one row, every
      committed reference is intact, and nothing that any path ever held is lost. */
  lemma RunsKeepBytes(run: seq<State>, steps: seq<Step>, minAge: nat, origins: map<Path, nat>, i: nat)
    requires IsRun(run, steps, minAge, origins) && Careful(run, steps, minAge) && i < |run|
    ensures RowsKept(run[i].rows, run[i].files) && RowsDistinct(run[i].rows)
    ensures forall c :: c in run[i].refs ==> ReferenceKept(run[i], c)
    ensures forall x :: x in run[i].past ==> ContentKept(run[i], x)
    ensures forall p :: p in origins ==> Content(p, origins[p]) in run[i].past
    ensures forall p :: p in run[i].origins ==> Content(p, run[i].origins[p]) in run[i].past
  {
    RunKeeps(run, steps, minAge, origins, i);
    PastGrows(run, steps, minAge, origins, i);
    var s := run[i];
    forall x | x in s.past ensures ContentKept(s, x) {
      if WasLeft(s.left, s.wrote, x) {
        var c :| c in s.left && s.left[c] == x.path && c in s.wrote && s.wrote[c].bytes == x.bytes;
        assert Written(c, s.wrote, s.refs, s.released) && ReferenceKept(s, c);
      }
    }
  }

  /** The step takes the file of this name away. */
  predicate Takes(s: State, step: Step, n: Name) {
    match step
    case Abort(c) => InPhase(s, c, Failed) && s.captures[c].owns && s.captures[c].name == n
    case DropRedundant(c) =>
      InPhase(s, c, Committed) && s.captures[c].owns && s.captures[c].redundant && s.captures[c].name == n
    case UnlinkRemoved(p) => p in s.removers && s.removers[p] == n
    case SweepUnlink(p, m) => CanSweep(s, p, m) && m == n
    case _ => false
  }

  lemma CloseTakes(s: State, step: Step, n: Name)
    requires Closes(step) && CanClose(s, step) && n in s.files && n !in Closed(s, step).files
    ensures Takes(s, step, n)
  {
  }

  lemma OtherTakes(s: State, step: Step, minAge: nat, n: Name)
    requires !Opens(step) && !Closes(step) && CanOther(s, step, minAge) && !step.Crash?
    requires n in s.files && n !in Others(s, step, minAge).files
    ensures Takes(s, step, n)
  {
  }

  /** No capture other than the one that takes the file holds it and can still commit in time. */
  predicate OthersSafe(s: State, step: Step, n: Name, minAge: nat) {
    forall c ::
      (c in s.captures && InFlight(s.captures[c]) && s.clock < s.captures[c].stagedAt + minAge
       && s.captures[c].name == n) ==>
      (step.Abort? || step.DropRedundant?) && step.c == c
  }

  lemma TakesOrphan(s: State, step: Step, minAge: nat, n: Name)
    requires Inv(s, minAge) && Takes(s, step, n)
    ensures NoRowNamed(s.rows, n) && OthersSafe(s, step, n, minAge)
  {
  }

  /** Crashes apart, a file that disappears in such a run (by a sweep, an abort, a removal or a redundant capture) is
      one that no committed row names, and not the file of another capture that can still commit in time. */
  lemma UnlinksOrphansOnly(run: seq<State>, steps: seq<Step>, minAge: nat, origins: map<Path, nat>, i: nat, n: Name)
    requires IsRun(run, steps, minAge, origins) && Careful(run, steps, minAge) && i < |steps| && !steps[i].Crash?
    requires n in run[i].files && n !in run[i + 1].files
    ensures NoRowNamed(run[i].rows, n) && OthersSafe(run[i], steps[i], n, minAge)
  {
    RunKeeps(run, steps, minAge, origins, i);
    var s, step := run[i], steps[i];
    assert Enabled(s, step, minAge) && run[i + 1] == Apply(s, step, minAge);
    assert !Opens(step);
    if Closes(step) { CloseTakes(s, step, n); } else { OtherTakes(s, step, minAge, n); }
    TakesOrphan(s, step, minAge, n);
  }
}
