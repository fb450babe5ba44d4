/** What the recovery store cleans up: no file is left without an owner but by a crash, a sweep takes what a crash left,
    and an origin goes or changes only after a commit that keeps what it held. */
module RecoveryTidy {
  import opened Wrappers
  import opened Recovery
  import opened RecoverySafety

  // ---- no file without an owner ------------------------------------------------------------------------------

  /** A row has the file, or a capture or a removal that will unlink it. */
  ghost predicate Owned(rows: Rows, captures: Captures, removers: map<Id, Name>, n: Name) {
    || (exists b :: b in rows && rows[b].name == n)
    || (exists c :: c in captures && MayUnlink(captures[c]) && captures[c].name == n)
    || (exists p :: p in removers && removers[p] == n)
  }

  ghost predicate Tidy(s: State) {
    forall n :: n in s.files ==> Owned(s.rows, s.captures, s.removers, n)
  }

  lemma OwnedByCapture(rows: Rows, captures: Captures, removers: map<Id, Name>, c: Id)
    requires c in captures && MayUnlink(captures[c])
    ensures Owned(rows, captures, removers, captures[c].name)
  {
  }

  lemma OwnedByRow(rows: Rows, captures: Captures, removers: map<Id, Name>, b: Blob)
    requires b in rows
    ensures Owned(rows, captures, removers, rows[b].name)
  {
  }

  lemma OwnedByRemover(rows: Rows, captures: Captures, removers: map<Id, Name>, p: Id)
    requires p in removers
    ensures Owned(rows, captures, removers, removers[p])
  {
  }

  /** A capture that goes on keeps what others own, and what it owns itself unless it gives it up. */
  lemma OwnedAfter(rows: Rows, captures: Captures, removers: map<Id, Name>, c: Id, l: Capture, n: Name)
    requires Owned(rows, captures, removers, n)
    requires c in captures && MayUnlink(captures[c]) && captures[c].name == n ==> MayUnlink(l) && l.name == n
    ensures Owned(rows, captures[c := l], removers, n)
  {
    if b :| b in rows && rows[b].name == n {
      OwnedByRow(rows, captures[c := l], removers, b);
    } else if p :| p in removers && removers[p] == n {
      OwnedByRemover(rows, captures[c := l], removers, p);
    } else {
      var d :| d in captures && MayUnlink(captures[d]) && captures[d].name == n;
      assert captures[c := l][d] == if d == c then l else captures[d];
      OwnedByCapture(rows, captures[c := l], removers, d);
    }
  }

  lemma StageTidy(s: State, c: Id, replace: bool)
    requires Tidy(s) && CanStage(s, c)
    ensures Tidy(Linked(s, c, replace))
  {
    var t := Linked(s, c, replace);
    forall n | n in t.files ensures Owned(t.rows, t.captures, t.removers, n) {
      if n in s.files && n != s.captures[c].name {
        OwnedAfter(s.rows, s.captures, s.removers, c, t.captures[c], n);
      } else if Writes(s, c, replace) {
        OwnedByCapture(t.rows, t.captures, t.removers, c);
      } else {
        OwnedAfter(s.rows, s.captures, s.removers, c, t.captures[c], n);
      }
    }
  }

  /** The steps up to the open transaction. */
  lemma OpenTidy(s: State, step: Step, minAge: nat)
    requires Inv(s, minAge) && Tidy(s) && Opens(step) && CanOpen(s, step)
    ensures Tidy(Opened(s, step))
  {
    if step.Stage? {
      StageTidy(s, step.c, step.replace);
    } else {
      var t := Opened(s, step);
      assert AttachOk(s.captures[step.c], s.rows, s.nextBlob);
      forall n | n in t.files ensures Owned(t.rows, t.captures, t.removers, n) {
        OwnedAfter(s.rows, s.captures, s.removers, step.c, t.captures[step.c], n);
      }
    }
  }

  lemma CommitTidy(s: State, c: Id, p: Phase, minAge: nat)
    requires Inv(s, minAge) && Tidy(s) && CanCommit(s, c) && (p.Committed? || p.Failed?)
    ensures Tidy(To(Recorded(s, c), c, p))
  {
    var t, k := To(Recorded(s, c), c, p), s.captures[c];
    assert AttachOk(k, s.rows, s.nextBlob);
    forall n | n in t.files ensures Owned(t.rows, t.captures, t.removers, n) {
      if k.phase.inserts && n == k.name {
        OwnedByRow(t.rows, t.captures, t.removers, k.phase.blob);
      } else {
        OwnedAfter(s.rows, s.captures, s.removers, c, t.captures[c], n);
        OwnedMoreRows(s.rows, t.rows, t.captures, t.removers, n);
      }
    }
  }

  lemma OwnedMoreRows(rows: Rows, now: Rows, captures: Captures, removers: map<Id, Name>, n: Name)
    requires Owned(rows, captures, removers, n) && forall b :: b in rows ==> b in now && now[b] == rows[b]
    ensures Owned(now, captures, removers, n)
  {
  }

  /** A capture unlinks its file and gives it up. */
  lemma DropTidy(s: State, c: Id, p: Phase, t: State)
    requires Tidy(s) && c in s.captures && t.rows == s.rows && t.removers == s.removers
    requires t.captures == s.captures[c := s.captures[c].(phase := p)]
    requires MayUnlink(s.captures[c]) ==> t.files == s.files - {s.captures[c].name}
    requires !MayUnlink(s.captures[c]) ==> forall n :: n in t.files ==> n in s.files
    ensures Tidy(t)
  {
    forall n | n in t.files ensures Owned(t.rows, t.captures, t.removers, n) {
      OwnedAfter(s.rows, s.captures, s.removers, c, t.captures[c], n);
    }
  }

  lemma CloseTidy(s: State, step: Step, minAge: nat)
    requires Inv(s, minAge) && Tidy(s) && Closes(step) && CanClose(s, step)
    ensures Tidy(Closed(s, step))
  {
    match step
    case Commit(c) => CommitTidy(s, c, Committed, minAge);
    case CommitInDoubt(c) => CommitTidy(s, c, Failed, minAge);
    case DropRedundant(c) => DroppedTidy(s, c);
    case UnlinkOrigin(c) => UnlinkedTidy(s, c);
    case Replace(c, bytes) =>
    case Abort(c) => AbortedTidy(s, c);
  }

  lemma DroppedTidy(s: State, c: Id)
    requires Tidy(s) && InPhase(s, c, Committed)
    ensures Tidy(Dropped(s, c))
  {
    DropTidy(s, c, Cleaned, Dropped(s, c));
  }

  lemma UnlinkedTidy(s: State, c: Id)
    requires Tidy(s) && InPhase(s, c, Cleaned)
    ensures Tidy(OriginUnlinked(s, c))
  {
    DropTidy(s, c, Done, OriginUnlinked(s, c));
  }

  lemma AbortedTidy(s: State, c: Id)
    requires Tidy(s) && InPhase(s, c, Failed)
    ensures Tidy(Aborted(s, c))
  {
    DropTidy(s, c, Done, Aborted(s, c));
  }

  lemma DeleteTidy(s: State, b: Blob)
    requires Tidy(s) && b in s.rows && RemoversOld(s.removers, s.nextId)
    ensures Tidy(RowDeleted(s, b))
  {
    var t := RowDeleted(s, b);
    forall n | n in t.files ensures Owned(t.rows, t.captures, t.removers, n) {
      if n == s.rows[b].name {
        OwnedByRemover(t.rows, t.captures, t.removers, s.nextId);
      } else if a :| a in s.rows && s.rows[a].name == n {
        OwnedByRow(t.rows, t.captures, t.removers, a);
      } else if p :| p in s.removers && s.removers[p] == n {
        OwnedByRemover(t.rows, t.captures, t.removers, p);
      } else {
        var c :| c in s.captures && MayUnlink(s.captures[c]) && s.captures[c].name == n;
        OwnedByCapture(t.rows, t.captures, t.removers, c);
      }
    }
  }

  lemma RemoveTidy(s: State, p: Id)
    requires Tidy(s) && p in s.removers
    ensures Tidy(Removed(s, p))
  {
    var t := Removed(s, p);
    forall n | n in t.files ensures Owned(t.rows, t.captures, t.removers, n) {
      assert Owned(s.rows, s.captures, s.removers, n);
      if q :| q in s.removers && s.removers[q] == n { assert q in t.removers && t.removers[q] == n; }
    }
  }

  lemma StartTidy(s: State, gen: Gen, origin: Path, move: bool, hit: Option<Blob>, n: Name, minAge: nat)
    requires Inv(s, minAge) && Tidy(s) && CanLookup(s, gen, origin, hit, n)
    ensures Tidy(Started(s, gen, origin, move, hit, n))
  {
    var t := Started(s, gen, origin, move, hit, n);
    assert s.nextId !in s.captures;
    forall m | m in t.files ensures Owned(t.rows, t.captures, t.removers, m) {
      OwnedAfter(s.rows, s.captures, s.removers, s.nextId, t.captures[s.nextId], m);
    }
  }

  lemma OtherTidy(s: State, step: Step, minAge: nat)
    requires Inv(s, minAge) && Tidy(s) && !Opens(step) && !Closes(step) && CanOther(s, step, minAge) && !step.Crash?
    ensures Tidy(Others(s, step, minAge))
  {
    match step
    case Lookup(gen, origin, move, hit, n) => StartTidy(s, gen, origin, move, hit, n, minAge);
    case DeleteRow(b) => DeleteTidy(s, b);
    case UnlinkRemoved(p) => RemoveTidy(s, p);
    case _ =>
  }

  /** Crashes apart, a run without hazards leaves no file that neither a row has nor a capture or a removal will
      unlink. */
  lemma {:induction false} NoOrphans(run: seq<State>, steps: seq<Step>, minAge: nat, origins: map<Path, nat>, i: nat)
    requires IsRun(run, steps, minAge, origins) && Careful(run, steps, minAge) && i < |run|
    requires forall j :: 0 <= j < i ==> !steps[j].Crash?
    ensures Tidy(run[i])
  {
    if i > 0 {
      NoOrphans(run, steps, minAge, origins, i - 1);
      RunKeeps(run, steps, minAge, origins, i - 1);
      var s, step := run[i - 1], steps[i - 1];
      assert Enabled(s, step, minAge) && run[i] == Apply(s, step, minAge);
      if Opens(step) {
        OpenTidy(s, step, minAge);
      } else if Closes(step) {
        CloseTidy(s, step, minAge);
      } else {
        OtherTidy(s, step, minAge);
      }
    }
  }

  /** So when nobody is at work any more, the files are those of the rows. */
  lemma QuietIsExact(run: seq<State>, steps: seq<Step>, minAge: nat, origins: map<Path, nat>, i: nat)
    requires IsRun(run, steps, minAge, origins) && Careful(run, steps, minAge) && i < |run|
    requires forall j :: 0 <= j < i ==> !steps[j].Crash?
    requires run[i].removers == map[]
    requires forall c :: c in run[i].captures ==> run[i].captures[c].phase.Done? || run[i].captures[c].phase.Cleaned?
    ensures forall n :: n in run[i].files <==> exists b :: b in run[i].rows && run[i].rows[b].name == n
  {
    NoOrphans(run, steps, minAge, origins, i);
    RunKeeps(run, steps, minAge, origins, i);
    forall n | n in run[i].files ensures exists b :: b in run[i].rows && run[i].rows[b].name == n {
      assert Owned(run[i].rows, run[i].captures, run[i].removers, n);
    }
    forall b | b in run[i].rows ensures run[i].rows[b].name in run[i].files {
      assert RowKept(run[i].rows[b], run[i].files);
    }
  }

  // ---- what a crash left -------------------------------------------------------------------------------------

  /** A file without a row that is old enough is taken by a sweep, in four steps. */
  lemma SweepTakesOrphan(s: State, n: Name, minAge: nat)
    requires n in s.files && NoRowNamed(s.rows, n) && s.files[n].since + minAge <= s.clock
    ensures var p, t0 := s.nextId, Apply(s, SweepStart, minAge);
      && Enabled(t0, SweepSee(p, n), minAge)
      && var t1 := Apply(t0, SweepSee(p, n), minAge);
      && Enabled(t1, SweepQuery(p, {n}), minAge)
      && var t2 := Apply(t1, SweepQuery(p, {n}), minAge);
      && Enabled(t2, SweepUnlink(p, n), minAge)
      && var t3 := Apply(t2, SweepUnlink(p, n), minAge);
      && n !in t3.files && forall m :: m in s.files && m != n ==> m in t3.files
  {
  }

  // ---- origins -----------------------------------------------------------------------------------------------

  /** No step changes a path but the unlink of a committed move and the caller's replacement after a commit; the first
      leaves nothing there, the second the new bytes. In particular an abort leaves the origin alone. */
  lemma OriginsChange(run: seq<State>, steps: seq<Step>, minAge: nat, origins: map<Path, nat>, i: nat, path: Path)
    requires IsRun(run, steps, minAge, origins) && Careful(run, steps, minAge) && i < |steps|
    ensures var s, t := run[i], run[i + 1];
      match steps[i]
      case UnlinkOrigin(c) =>
        && c in s.captures && c in s.wrote
        && (if s.captures[c].move && s.captures[c].origin == path then path !in t.origins else SamePath(s, t, path))
      case Replace(c, bytes) =>
        && c in s.captures && c in s.wrote
        && (if s.captures[c].origin == path then Holds(t, path, bytes) else SamePath(s, t, path))
      case _ => SamePath(s, t, path)
  {
    RunKeeps(run, steps, minAge, origins, i);
    var s, step := run[i], steps[i];
    assert Enabled(s, step, minAge) && run[i + 1] == Apply(s, step, minAge);
    if Opens(step) { OpenOrigins(s, step); } else if !Closes(step) { OtherOrigins(s, step, minAge); }
  }

  predicate Holds(s: State, path: Path, bytes: nat) {
    path in s.origins && s.origins[path] == bytes
  }

  predicate SamePath(s: State, t: State, path: Path) {
    (path in s.origins <==> path in t.origins) && (path in s.origins ==> s.origins[path] == t.origins[path])
  }

  lemma OpenOrigins(s: State, step: Step)
    requires Opens(step) && CanOpen(s, step)
    ensures Opened(s, step).origins == s.origins
  {
  }

  lemma OtherOrigins(s: State, step: Step, minAge: nat)
    requires !Opens(step) && !Closes(step) && CanOther(s, step, minAge)
    ensures Others(s, step, minAge).origins == s.origins
  {
  }

  // ---- nothing is staged for a generation that is there ------------------------------------------------------

  /** A capture past choosing a name and without a file of its own. */
  predicate Empty(k: Capture) {
    !k.owns && !k.phase.Found? && !k.phase.Chosen?
  }

  /** The capture is such, or gone by a crash. */
  predicate StagesNothing(captures: Captures, nextId: Id, c: Id) {
    c < nextId && (c in captures ==> Empty(captures[c]))
  }

  lemma EmptyOpens(s: State, step: Step, c: Id)
    requires StagesNothing(s.captures, s.nextId, c) && Opens(step) && CanOpen(s, step)
    ensures var t := Opened(s, step); StagesNothing(t.captures, t.nextId, c)
  {
    if step.c == c { EmptyOpened(s, step); } else { OpensAlone(s, step); }
  }

  /** Such a step changes no other capture. */
  lemma OpensAlone(s: State, step: Step)
    requires Opens(step) && CanOpen(s, step)
    ensures Alone(s, Opened(s, step), step.c)
  {
    var c := step.c;
    match step
    case CheckFile(_) => ToAlone(s, c, if s.captures[c].name in s.files then Ready else Chosen);
    case Stage(_, replace) => StageAlone(s, c, replace);
    case Sync(_) => SyncAlone(s, c);
    case Attach(_, hit) => AttachAlone(s, c, hit);
    case Reference(_) => ToAlone(s, c, s.captures[c].phase.(locked := true));
    case Fail(_) => ToAlone(s, c, Failed);
  }

  predicate Alone(s: State, t: State, c: Id) {
    c in t.captures && t.captures == s.captures[c := t.captures[c]] && t.nextId == s.nextId
  }

  lemma ToAlone(s: State, c: Id, p: Phase)
    requires c in s.captures
    ensures Alone(s, To(s, c, p), c)
  {
  }

  lemma StageAlone(s: State, c: Id, replace: bool)
    requires CanStage(s, c)
    ensures Alone(s, Linked(s, c, replace), c)
  {
  }

  lemma SyncAlone(s: State, c: Id)
    requires CanSync(s, c)
    ensures Alone(s, Synced(s, c), c)
  {
  }

  lemma AttachAlone(s: State, c: Id, hit: Option<Blob>)
    requires CanAttach(s, c, hit)
    ensures Alone(s, Joined(s, c, hit), c)
  {
  }

  lemma EmptyOpened(s: State, step: Step)
    requires Opens(step) && CanOpen(s, step) && Empty(s.captures[step.c])
    ensures var t := Opened(s, step); step.c in t.captures && Empty(t.captures[step.c]) && t.nextId == s.nextId
  {
  }

  lemma EmptyCloses(s: State, step: Step, c: Id)
    requires StagesNothing(s.captures, s.nextId, c) && Closes(step) && CanClose(s, step)
    ensures var t := Closed(s, step); StagesNothing(t.captures, t.nextId, c)
  {
  }

  lemma EmptyOthers(s: State, step: Step, minAge: nat, c: Id)
    requires StagesNothing(s.captures, s.nextId, c) && !Opens(step) && !Closes(step) && CanOther(s, step, minAge)
    ensures var t := Others(s, step, minAge); StagesNothing(t.captures, t.nextId, c)
  {
  }

  lemma StagesNothingStep(s: State, step: Step, minAge: nat, c: Id)
    requires StagesNothing(s.captures, s.nextId, c) && Enabled(s, step, minAge)
    ensures var t := Apply(s, step, minAge); StagesNothing(t.captures, t.nextId, c)
  {
    if Opens(step) {
      EmptyOpens(s, step, c);
    } else if Closes(step) {
      EmptyCloses(s, step, c);
    } else {
      EmptyOthers(s, step, minAge, c);
    }
  }

  /** A capture that finds a row of its generation with its file in place never writes one. */
  lemma {:induction false} FoundStagesNothing(
    run: seq<State>, steps: seq<Step>, minAge: nat, origins: map<Path, nat>, i: nat, j: nat, c: Id)
    requires IsRun(run, steps, minAge, origins) && Careful(run, steps, minAge) && i < j < |run|
    requires steps[i] == CheckFile(c) && run[i].captures[c].name in run[i].files
    ensures run[i + 1].files == run[i].files && StagesNothing(run[j].captures, run[j].nextId, c)
    decreases j
  {
    RunKeeps(run, steps, minAge, origins, i);
    assert Enabled(run[i], steps[i], minAge) && run[i + 1] == Apply(run[i], steps[i], minAge);
    assert AttachOk(run[i].captures[c], run[i].rows, run[i].nextBlob);
    if j > i + 1 {
      FoundStagesNothing(run, steps, minAge, origins, i, j - 1, c);
      assert Enabled(run[j - 1], steps[j - 1], minAge) && run[j] == Apply(run[j - 1], steps[j - 1], minAge);
      StagesNothingStep(run[j - 1], steps[j - 1], minAge, c);
    }
  }

  /** A capture reuses a row only if both are of one keyed generation, and inserts one only if there is no such row. */
  lemma SharesOnlyKeyed(run: seq<State>, steps: seq<Step>, minAge: nat, origins: map<Path, nat>, i: nat, c: Id)
    requires IsRun(run, steps, minAge, origins) && i < |steps| && steps[i].Attach? && steps[i].c == c
    ensures var s, gen := run[i], run[i].captures[c].gen;
      match steps[i].hit
      case Some(b) => b in s.rows && gen.keyed && s.rows[b].gen == gen
      case None => !gen.keyed || forall b :: b in s.rows ==> s.rows[b].gen != gen
  {
    assert Enabled(run[i], steps[i], minAge);
  }
}
