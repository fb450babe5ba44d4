/** The recovery store's capture protocol (core/src/recovery/Store.cpp) as a transition system: files, committed rows,
    references and origins of one vault, with any number of concurrent captures, removals and sweeps, and crashes at
    any point. Each step is one system call or database statement; a transaction's rows appear when it commits. */
module Recovery {
  import opened Wrappers

  type Name = nat
  type Blob = nat
  type Id = nat
  type Path = nat

  /** Sealed bytes. Two keyed generations with the same key (IV, key version) are the same bytes; an unkeyed one (no
      IV) is never deduplicated. */
  datatype Gen = Gen(bytes: nat, keyed: bool)

  datatype File = File(bytes: nat, durable: bool, since: nat)

  datatype Row = Row(name: Name, gen: Gen)

  datatype Phase =
    | Found                                            // a row of the generation was read, its file not looked at yet
    | Chosen                                           // a name to stage under
    | Staged                                           // the file has its final name, not yet synced
    | Ready                                            // capture*() returned
    | Attached(blob: Blob, inserts: bool, locked: bool) // in the caller's open transaction
    | Committed                                        // the transaction committed, committed() to run
    | Cleaned                                          // a redundant file is dropped, the origin still to unlink
    | Failed                                           // the caller saw a failure, abort() to run
    | Done

  datatype Capture = Capture(
    gen: Gen, origin: Path, move: bool, name: Name, phase: Phase, owns: bool, redundant: bool, stagedAt: nat)

  /** What a path held at some time. */
  datatype Content = Content(path: Path, bytes: nat)

  /** A sweep: files found old enough, and those of them without a row. */
  datatype Sweep = Sweep(candidates: set<Name>, doomed: set<Name>)

  datatype State = State(
    clock: nat,
    files: map<Name, File>,
    rows: map<Blob, Row>,
    refs: map<Id, Blob>,                 // committed references (file_versions), by the capture that wrote them
    origins: map<Path, nat>,
    captures: map<Id, Capture>,
    removers: map<Id, Name>,             // removeBlob calls that deleted their row and still have to unlink
    sweeps: map<Id, Sweep>,
    used: set<Name>, nextBlob: Blob, nextId: Id,   // storage names, row ids and process ids are never issued twice
    wrote: map<Id, Gen>,                 // what each committed reference was written for
    left: map<Id, Path>,                 // captures whose origin was unlinked or replaced after their commit
    released: set<Id>,                   // references deleted since
    past: set<Content>)                  // everything any origin ever held

  function Contents(origins: map<Path, nat>): set<Content> {
    set p | p in origins :: Content(p, origins[p])
  }

  predicate Init(s: State, origins: map<Path, nat>) {
    s == State(0, map[], map[], map[], origins, map[], map[], map[], {}, 0, 0, map[], map[], {},
               Contents(origins))
  }

  datatype Step =
    | Tick
    | Lookup(gen: Gen, origin: Path, move: bool, hit: Option<Blob>, fresh_: Name)
    | CheckFile(c: Id)
    | Stage(c: Id, replace: bool)        // link, or rename over the name
    | Sync(c: Id)
    | Attach(c: Id, hit: Option<Blob>)
    | Reference(c: Id)
    | Commit(c: Id)
    | CommitInDoubt(c: Id)               // committed, but the caller is told it failed
    | Fail(c: Id)
    | DropRedundant(c: Id)
    | UnlinkOrigin(c: Id)
    | Replace(c: Id, bytes: nat)         // the caller renames new bytes over the captured origin
    | Abort(c: Id)
    | Release(c: Id)
    | DeleteRow(blob: Blob)
    | UnlinkRemoved(p: Id)
    | SweepStart
    | SweepSee(p: Id, n: Name)
    | SweepQuery(p: Id, batch: set<Name>)
    | SweepUnlink(p: Id, n: Name)
    | Crash(lost: set<Name>)

  predicate SameGen(a: Gen, b: Gen) {
    a.keyed && a == b
  }

  predicate InPhase(s: State, c: Id, p: Phase) {
    c in s.captures && s.captures[c].phase == p
  }

  predicate IsAttached(s: State, c: Id) {
    c in s.captures && s.captures[c].phase.Attached?
  }

  predicate NoRowOf(rows: map<Blob, Row>, gen: Gen) {
    forall b :: b in rows ==> !SameGen(rows[b].gen, gen)
  }

  predicate NoRowNamed(rows: map<Blob, Row>, n: Name) {
    forall b :: b in rows ==> rows[b].name != n
  }

  /** An insert of the same generation by another open transaction makes this one wait. */
  predicate NoInserterOf(s: State, gen: Gen) {
    forall d :: d in s.captures && s.captures[d].phase.Attached? && s.captures[d].phase.inserts ==>
      !SameGen(s.captures[d].gen, gen)
  }

  predicate Unreferenced(s: State, b: Blob) {
    && (forall c :: c in s.refs ==> s.refs[c] != b)
    && (forall c :: c in s.captures && s.captures[c].phase.Attached? && s.captures[c].phase.locked ==>
      s.captures[c].phase.blob != b)
  }

  /** The capture found a row of its generation, or none and a name never issued before. */
  predicate CanLookup(s: State, gen: Gen, origin: Path, hit: Option<Blob>, n: Name) {
    && origin in s.origins && s.origins[origin] == gen.bytes
    && (match hit
        case Some(b) => b in s.rows && SameGen(s.rows[b].gen, gen)
        case None => NoRowOf(s.rows, gen) && n !in s.used)
  }

  predicate CanStage(s: State, c: Id) {
    && InPhase(s, c, Chosen)
    && s.captures[c].origin in s.origins && s.origins[s.captures[c].origin] == s.captures[c].gen.bytes
  }

  predicate CanSync(s: State, c: Id) {
    InPhase(s, c, Staged) && s.captures[c].name in s.files
  }

  predicate CanAttach(s: State, c: Id, hit: Option<Blob>) {
    && InPhase(s, c, Ready)
    && (match hit
        case Some(b) => b in s.rows && SameGen(s.rows[b].gen, s.captures[c].gen)
        case None => s.captures[c].owns && NoRowOf(s.rows, s.captures[c].gen) && NoInserterOf(s, s.captures[c].gen))
  }

  predicate CanReference(s: State, c: Id) {
    IsAttached(s, c) && (s.captures[c].phase.inserts || s.captures[c].phase.blob in s.rows)
  }

  predicate CanCommit(s: State, c: Id) {
    IsAttached(s, c) && s.captures[c].phase.locked
  }

  predicate CanFail(s: State, c: Id) {
    c in s.captures && var p := s.captures[c].phase; p.Found? || p.Chosen? || p.Staged? || p.Ready? || p.Attached?
  }

  /** The caller holds the path: it replaces what its committed capture has kept, and no delete of the path is under
      way. */
  predicate CanReplace(s: State, c: Id) {
    && c in s.captures && c in s.wrote && s.captures[c].origin in s.origins
    && s.origins[s.captures[c].origin] == s.captures[c].gen.bytes
    && forall d :: d in s.captures && s.captures[d].move && s.captures[d].origin == s.captures[c].origin ==>
      s.captures[d].phase.Done?
  }

  predicate CanSee(s: State, p: Id, n: Name, minAge: nat) {
    p in s.sweeps && n in s.files && s.files[n].since + minAge <= s.clock
  }

  predicate CanQuery(s: State, p: Id, batch: set<Name>) {
    p in s.sweeps && batch <= s.sweeps[p].candidates
  }

  predicate CanSweep(s: State, p: Id, n: Name) {
    p in s.sweeps && n in s.sweeps[p].doomed
  }

  predicate CanLose(s: State, lost: set<Name>) {
    forall n :: n in lost ==> n in s.files && !s.files[n].durable
  }

  /** A capture's own steps up to its open transaction, and from there on. */
  predicate Opens(step: Step) {
    step.CheckFile? || step.Stage? || step.Sync? || step.Attach? || step.Reference? || step.Fail?
  }

  predicate Closes(step: Step) {
    step.Commit? || step.CommitInDoubt? || step.DropRedundant? || step.UnlinkOrigin? || step.Replace? || step.Abort?
  }

  predicate CanOpen(s: State, step: Step)
    requires Opens(step)
  {
    match step
    case CheckFile(c) => InPhase(s, c, Found)
    case Stage(c, _) => CanStage(s, c)
    case Sync(c) => CanSync(s, c)
    case Attach(c, hit) => CanAttach(s, c, hit)
    case Reference(c) => CanReference(s, c)
    case Fail(c) => CanFail(s, c)
  }

  predicate CanClose(s: State, step: Step)
    requires Closes(step)
  {
    match step
    case Commit(c) => CanCommit(s, c)
    case CommitInDoubt(c) => CanCommit(s, c)
    case DropRedundant(c) => InPhase(s, c, Committed)
    case UnlinkOrigin(c) => InPhase(s, c, Cleaned)
    case Replace(c, _) => CanReplace(s, c)
    case Abort(c) => InPhase(s, c, Failed)
  }

  predicate CanOther(s: State, step: Step, minAge: nat)
    requires !Opens(step) && !Closes(step)
  {
    match step
    case Tick => true
    case Lookup(gen, origin, _, hit, n) => CanLookup(s, gen, origin, hit, n)
    case Release(c) => c in s.refs
    case DeleteRow(b) => b in s.rows && Unreferenced(s, b)
    case UnlinkRemoved(p) => p in s.removers
    case SweepStart => true
    case SweepSee(p, n) => CanSee(s, p, n, minAge)
    case SweepQuery(p, batch) => CanQuery(s, p, batch)
    case SweepUnlink(p, n) => CanSweep(s, p, n)
    case Crash(lost) => CanLose(s, lost)
  }

  predicate Enabled(s: State, step: Step, minAge: nat) {
    if Opens(step) then CanOpen(s, step) else if Closes(step) then CanClose(s, step) else CanOther(s, step, minAge)
  }

  function To(s: State, c: Id, p: Phase): (s': State)
    requires c in s.captures
    ensures s'.past == s.past && s'.origins == s.origins && s.files.Keys <= s'.files.Keys
  {
    s.(captures := s.captures[c := s.captures[c].(phase := p)])
  }

  function Started(s: State, gen: Gen, origin: Path, move: bool, hit: Option<Blob>, n: Name): State
    requires CanLookup(s, gen, origin, hit, n)
  {
    var k := match hit
      case Some(b) => Capture(gen, origin, move, s.rows[b].name, Found, false, false, 0)
      case None => Capture(gen, origin, move, n, Chosen, false, false, 0);
    s.(captures := s.captures[s.nextId := k], nextId := s.nextId + 1, used := s.used + {k.name})
  }

  /** The capture writes its file, rather than finding one. */
  predicate Writes(s: State, c: Id, replace: bool)
    requires c in s.captures
  {
    s.captures[c].name !in s.files || replace
  }

  /** The file is written under the capture's name; a link finds a file already there and owns nothing. What is renamed
      over the name has been synced, so a crash leaves the old file or the new one: if the old one was durable and had
      the same bytes, nothing can be lost before the directory is synced. */
  function Linked(s: State, c: Id, replace: bool): (s': State)
    requires CanStage(s, c)
    ensures s'.past == s.past && s'.origins == s.origins && s.files.Keys <= s'.files.Keys
  {
    var k := s.captures[c];
    var writes := Writes(s, c, replace);
    var durable := k.name in s.files && s.files[k.name].durable && s.files[k.name].bytes == k.gen.bytes;
    s.(files := if writes then s.files[k.name := File(k.gen.bytes, durable, s.clock)] else s.files,
       captures := s.captures[c :=
         if writes then k.(phase := Staged, owns := true, stagedAt := s.clock) else k.(phase := Ready)])
  }

  function Synced(s: State, c: Id): (s': State)
    requires CanSync(s, c)
    ensures s'.past == s.past && s'.origins == s.origins && s.files.Keys <= s'.files.Keys
  {
    var n := s.captures[c].name;
    To(s.(files := s.files[n := s.files[n].(durable := true)]), c, Ready)
  }

  function Joined(s: State, c: Id, hit: Option<Blob>): (s': State)
    requires CanAttach(s, c, hit)
    ensures s'.past == s.past && s'.origins == s.origins && s.files.Keys <= s'.files.Keys
  {
    match hit
    case Some(b) =>
      var k := s.captures[c];
      var redundant := k.owns && s.rows[b].name != k.name;
      s.(captures := s.captures[c := k.(phase := Attached(b, false, false), redundant := redundant)])
    case None => To(s.(nextBlob := s.nextBlob + 1), c, Attached(s.nextBlob, true, false))
  }

  /** What the database holds once a capture's transaction committed. */
  function Recorded(s: State, c: Id): State
    requires IsAttached(s, c)
  {
    var k := s.captures[c];
    s.(rows := if k.phase.inserts then s.rows[k.phase.blob := Row(k.name, k.gen)] else s.rows,
       refs := s.refs[c := k.phase.blob], wrote := s.wrote[c := k.gen])
  }

  function Dropped(s: State, c: Id): State
    requires c in s.captures
  {
    var k := s.captures[c];
    To(s.(files := if k.redundant && k.owns then s.files - {k.name} else s.files), c, Cleaned)
  }

  function OriginUnlinked(s: State, c: Id): State
    requires c in s.captures
  {
    var k := s.captures[c];
    To(s.(origins := if k.move then s.origins - {k.origin} else s.origins,
          left := if k.move then s.left[c := k.origin] else s.left), c, Done)
  }

  function Replaced(s: State, c: Id, bytes: nat): State
    requires c in s.captures
  {
    var path := s.captures[c].origin;
    s.(origins := s.origins[path := bytes], left := s.left[c := path], past := s.past + {Content(path, bytes)})
  }

  function Aborted(s: State, c: Id): State
    requires c in s.captures
  {
    var k := s.captures[c];
    To(s.(files := if k.owns then s.files - {k.name} else s.files), c, Done)
  }

  function RowDeleted(s: State, b: Blob): State
    requires b in s.rows
  {
    s.(rows := s.rows - {b}, removers := s.removers[s.nextId := s.rows[b].name], nextId := s.nextId + 1)
  }

  function Removed(s: State, p: Id): State
    requires p in s.removers
  {
    s.(files := s.files - {s.removers[p]}, removers := s.removers - {p})
  }

  function Seen(s: State, p: Id, n: Name): State
    requires p in s.sweeps
  {
    s.(sweeps := s.sweeps[p := s.sweeps[p].(candidates := s.sweeps[p].candidates + {n})])
  }

  function Queried(s: State, p: Id, batch: set<Name>): State
    requires p in s.sweeps
  {
    var orphans := set n | n in batch && NoRowNamed(s.rows, n);
    s.(sweeps := s.sweeps[p := Sweep(s.sweeps[p].candidates - batch, s.sweeps[p].doomed + orphans)])
  }

  function Swept(s: State, p: Id, n: Name): State
    requires p in s.sweeps
  {
    s.(files := s.files - {n}, sweeps := s.sweeps[p := s.sweeps[p].(doomed := s.sweeps[p].doomed - {n})])
  }

  function Opened(s: State, step: Step): (s': State)
    requires Opens(step) && CanOpen(s, step)
    ensures s'.past == s.past && s'.origins == s.origins && s.files.Keys <= s'.files.Keys
  {
    match step
    case CheckFile(c) => To(s, c, if s.captures[c].name in s.files then Ready else Chosen)
    case Stage(c, replace) => Linked(s, c, replace)
    case Sync(c) => Synced(s, c)
    case Attach(c, hit) => Joined(s, c, hit)
    case Reference(c) => To(s, c, s.captures[c].phase.(locked := true))
    case Fail(c) => To(s, c, Failed)
  }

  function Closed(s: State, step: Step): State
    requires Closes(step) && CanClose(s, step)
  {
    match step
    case Commit(c) => To(Recorded(s, c), c, Committed)
    case CommitInDoubt(c) => To(Recorded(s, c), c, Failed)
    case DropRedundant(c) => Dropped(s, c)
    case UnlinkOrigin(c) => OriginUnlinked(s, c)
    case Replace(c, bytes) => Replaced(s, c, bytes)
    case Abort(c) => Aborted(s, c)
  }

  function Others(s: State, step: Step, minAge: nat): State
    requires !Opens(step) && !Closes(step) && CanOther(s, step, minAge)
  {
    match step
    case Tick => s.(clock := s.clock + 1)
    case Lookup(gen, origin, move, hit, n) => Started(s, gen, origin, move, hit, n)
    case Release(c) => s.(refs := s.refs - {c}, released := s.released + {c})
    case DeleteRow(b) => RowDeleted(s, b)
    case UnlinkRemoved(p) => Removed(s, p)
    case SweepStart => s.(sweeps := s.sweeps[s.nextId := Sweep({}, {})], nextId := s.nextId + 1)
    case SweepSee(p, n) => Seen(s, p, n)
    case SweepQuery(p, batch) => Queried(s, p, batch)
    case SweepUnlink(p, n) => Swept(s, p, n)
    case Crash(lost) => s.(files := s.files - lost, captures := map[], removers := map[], sweeps := map[])
  }

  function Apply(s: State, step: Step, minAge: nat): State
    requires Enabled(s, step, minAge)
  {
    if Opens(step) then Opened(s, step) else if Closes(step) then Closed(s, step) else Others(s, step, minAge)
  }

  ghost predicate IsRun(run: seq<State>, steps: seq<Step>, minAge: nat, origins: map<Path, nat>) {
    && |run| == |steps| + 1 && Init(run[0], origins)
    && forall i {:trigger steps[i]} :: 0 <= i < |steps| ==>
      Enabled(run[i], steps[i], minAge) && run[i + 1] == Apply(run[i], steps[i], minAge)
  }

  // ---- hazards -----------------------------------------------------------------------------------------------

  datatype Hazard = InDoubt | Late | Reused

  /** Owns a file and is not committed. */
  predicate InFlight(k: Capture) {
    k.owns && (k.phase.Staged? || k.phase.Ready? || k.phase.Attached? || k.phase.Failed?)
  }

  /** Will or may still unlink its own file. */
  predicate MayUnlink(k: Capture) {
    InFlight(k) || (k.owns && k.phase.Committed? && k.redundant)
  }

  predicate Unmarked(sweeps: map<Id, Sweep>, n: Name) {
    forall p :: p in sweeps ==> n !in sweeps[p].candidates && n !in sweeps[p].doomed
  }

  /** No row names a file, and nobody may still unlink it: no capture, no removal and no sweep. */
  predicate Clear(s: State, n: Name) {
    && NoRowNamed(s.rows, n)
    && (forall c :: c in s.captures && MayUnlink(s.captures[c]) ==> s.captures[c].name != n)
    && (forall p :: p in s.removers ==> s.removers[p] != n)
    && Unmarked(s.sweeps, n)
  }

  /** A sweep has found the name old and without a row, and is about to unlink it. */
  predicate IsDoomed(sweeps: map<Id, Sweep>, n: Name) {
    exists p :: p in sweeps && n in sweeps[p].doomed
  }

  /** A commit would insert a row whose file is missing, not durable, or about to go. */
  predicate Exposed(s: State, c: Id)
    requires IsAttached(s, c)
  {
    var n := s.captures[c].name;
    s.captures[c].phase.inserts && (n !in s.files || !s.files[n].durable || IsDoomed(s.sweeps, n))
  }

  /** The commit of a capture that inserts its row comes too late for the sweep's age limit. */
  predicate TooLate(s: State, c: Id, minAge: nat)
    requires IsAttached(s, c)
  {
    s.captures[c].phase.inserts && s.captures[c].stagedAt + minAge <= s.clock
  }

  /** The three ways the protocol's promise is given up: a commit of a new row whose outcome the caller is not told, one
      later than the sweep's age limit whose file a sweep has taken or is about to take, and writing under a name that
      a row or somebody else still has. (A commit in time is exposed only after another hazard: ExposedIsLate.) */
  predicate Poses(s: State, step: Step, minAge: nat, h: Hazard) {
    match h
    case InDoubt => step.CommitInDoubt? && IsAttached(s, step.c) && s.captures[step.c].phase.inserts
    case Late => step.Commit? && IsAttached(s, step.c) && TooLate(s, step.c, minAge) && Exposed(s, step.c)
    case Reused =>
      step.Stage? && step.c in s.captures && Writes(s, step.c, step.replace) && !Clear(s, s.captures[step.c].name)
  }

  ghost predicate Careful(run: seq<State>, steps: seq<Step>, minAge: nat) {
    && |run| == |steps| + 1
    && forall i, h :: 0 <= i < |steps| ==> !Poses(run[i], steps[i], minAge, h)
  }

  // ---- what is promised --------------------------------------------------------------------------------------

  /** A row has its file, durable and with the generation's bytes. */
  predicate RowKept(r: Row, files: map<Name, File>) {
    r.name in files && files[r.name].durable && files[r.name].bytes == r.gen.bytes
  }

  ghost predicate RowsKept(rows: map<Blob, Row>, files: map<Name, File>) {
    forall b :: b in rows ==> RowKept(rows[b], files)
  }

  /** The capture's reference was deleted since, or names a committed row whose file holds what it was written for. */
  predicate ReferenceKept(s: State, c: Id) {
    || c in s.released
    || (&& c in s.refs && c in s.wrote && s.refs[c] in s.rows
        && RowKept(s.rows[s.refs[c]], s.files) && s.rows[s.refs[c]].gen == s.wrote[c])
  }

  /** What a path held is still there, or a capture after which it was unlinked or replaced keeps it under a row. */
  ghost predicate ContentKept(s: State, x: Content) {
    || (x.path in s.origins && s.origins[x.path] == x.bytes)
    || exists c ::
      && c in s.left && s.left[c] == x.path
      && c in s.wrote && s.wrote[c].bytes == x.bytes && ReferenceKept(s, c)
  }

  /** One row per keyed generation, one row per name. */
  ghost predicate RowsDistinct(rows: map<Blob, Row>) {
    forall a, b :: a in rows && b in rows && a != b ==>
      !SameGen(rows[a].gen, rows[b].gen) && rows[a].name != rows[b].name
  }
}
