/** Each hazard of the recovery store is exact: from every state that satisfies the invariant, a step that poses it can
    be followed, without any further hazard, by the loss of a committed row's file, and the same kind of step without
    the hazard cannot. */
module RecoveryExact {
  import opened Wrappers
  import opened Recovery
  import opened RecoverySafety

  /** Some row is without its file after these steps, none of which poses a hazard. */
  ghost predicate Loses(s: State, steps: seq<Step>, minAge: nat)
    decreases |steps|
  {
    if steps == [] then !RowsKept(s.rows, s.files)
    else
      && Enabled(s, steps[0], minAge) && Harmless(s, steps[0], minAge)
      && Loses(Apply(s, steps[0], minAge), steps[1..], minAge)
  }

  ghost predicate CanLoseRow(s: State, minAge: nat) {
    exists steps :: Loses(s, steps, minAge)
  }

  /** The invariant rules that out. */
  lemma {:induction false} InvKeeps(s: State, steps: seq<Step>, minAge: nat)
    requires Inv(s, minAge)
    ensures !Loses(s, steps, minAge)
    decreases |steps|
  {
    if steps != [] && Enabled(s, steps[0], minAge) && Harmless(s, steps[0], minAge) {
      StepKeeps(s, steps[0], minAge);
      InvKeeps(Apply(s, steps[0], minAge), steps[1..], minAge);
    }
  }

  lemma InvIsSafe(s: State, minAge: nat)
    requires Inv(s, minAge)
    ensures !CanLoseRow(s, minAge)
  {
    forall steps ensures !Loses(s, steps, minAge) { InvKeeps(s, steps, minAge); }
  }

  lemma LostAlready(s: State, b: Blob, minAge: nat)
    requires b in s.rows && !RowKept(s.rows[b], s.files)
    ensures CanLoseRow(s, minAge)
  {
    assert Loses(s, [], minAge);
  }

  lemma LostAfter(s: State, step: Step, minAge: nat)
    requires Enabled(s, step, minAge) && Harmless(s, step, minAge) && CanLoseRow(Apply(s, step, minAge), minAge)
    ensures CanLoseRow(s, minAge)
  {
    var rest :| Loses(Apply(s, step, minAge), rest, minAge);
    var steps := [step] + rest;
    assert steps[0] == step && steps[1..] == rest;
    assert Loses(s, steps, minAge);
  }

  // ---- a commit in doubt -------------------------------------------------------------------------------------

  /** A commit that the caller is told has failed can lose a row exactly when it inserted one: the abort takes its
      file. */
  lemma DoubtExactly(s: State, c: Id, minAge: nat)
    requires Inv(s, minAge) && CanCommit(s, c)
    ensures CanLoseRow(Apply(s, CommitInDoubt(c), minAge), minAge) <==> s.captures[c].phase.inserts
  {
    var t := To(Recorded(s, c), c, Failed);
    assert Apply(s, CommitInDoubt(c), minAge) == t;
    if s.captures[c].phase.inserts {
      AbortLoses(s, c, minAge);
      LostAfter(t, Abort(c), minAge);
    } else {
      DoubtKeeps(s, c, minAge);
      InvIsSafe(t, minAge);
    }
  }

  lemma AbortLoses(s: State, c: Id, minAge: nat)
    requires Inv(s, minAge) && CanCommit(s, c) && s.captures[c].phase.inserts
    ensures var t := To(Recorded(s, c), c, Failed);
      Enabled(t, Abort(c), minAge) && Harmless(t, Abort(c), minAge) && CanLoseRow(Apply(t, Abort(c), minAge), minAge)
  {
    var t := To(Recorded(s, c), c, Failed);
    var u := Aborted(t, c);
    var b := s.captures[c].phase.blob;
    assert AttachOk(s.captures[c], s.rows, s.nextBlob);
    assert Apply(t, Abort(c), minAge) == u;
    assert b in u.rows && u.rows[b].name == s.captures[c].name && s.captures[c].name !in u.files;
    LostAlready(u, b, minAge);
  }

  // ---- a late commit -----------------------------------------------------------------------------------------

  lemma ExposedLoses(s: State, c: Id, minAge: nat)
    requires CanCommit(s, c) && Exposed(s, c)
    ensures CanLoseRow(Apply(s, Commit(c), minAge), minAge)
  {
    var t, n, b := To(Recorded(s, c), c, Committed), s.captures[c].name, s.captures[c].phase.blob;
    assert Apply(s, Commit(c), minAge) == t && b in t.rows && t.rows[b].name == n;
    if p :| p in s.sweeps && n in s.sweeps[p].doomed {
      TakerLoses(t, c, b, SweepUnlink(p, n), minAge);
    } else {
      LostAlready(t, b, minAge);
    }
  }

  /** A commit can be followed by the loss of a row exactly when it inserts one whose file is missing, not durable or
      about to be unlinked by a sweep, and that is when it poses the hazard. */
  lemma CommitExactly(s: State, c: Id, minAge: nat)
    requires Inv(s, minAge) && CanCommit(s, c)
    ensures CanLoseRow(Apply(s, Commit(c), minAge), minAge) <==> Exposed(s, c)
    ensures Exposed(s, c) <==> Poses(s, Commit(c), minAge, Late)
  {
    if Exposed(s, c) {
      ExposedIsLate(s, c, minAge);
      ExposedLoses(s, c, minAge);
    } else {
      CommitKeeps(s, c, minAge);
      InvIsSafe(To(Recorded(s, c), c, Committed), minAge);
    }
  }

  // What the caller can see beforehand is the age of the capture.

  predicate BySweep(step: Step) {
    step.SweepStart? || step.SweepSee? || step.SweepQuery? || step.SweepUnlink?
  }

  /** Sweeps run, the capture commits, and sweeps run on; a row is then without its file. */
  ghost predicate LosesTo(s: State, c: Id, steps: seq<Step>, minAge: nat)
    decreases |steps|
  {
    if steps == [] then !RowsKept(s.rows, s.files)
    else
      && (steps[0] == Commit(c) || BySweep(steps[0])) && Enabled(s, steps[0], minAge)
      && LosesTo(Apply(s, steps[0], minAge), c, steps[1..], minAge)
  }

  lemma ToSweep(s: State, c: Id, step: Step, rest: seq<Step>, minAge: nat)
    requires (step == Commit(c) || BySweep(step)) && Enabled(s, step, minAge)
    requires LosesTo(Apply(s, step, minAge), c, rest, minAge)
    ensures LosesTo(s, c, [step] + rest, minAge)
  {
    assert ([step] + rest)[1..] == rest;
  }

  lemma SweepsLeave(s: State, step: Step, minAge: nat)
    requires BySweep(step) && CanOther(s, step, minAge)
    ensures var t := Others(s, step, minAge); t.captures == s.captures && t.clock == s.clock
  {
  }

  lemma {:induction false} InTimeKeeps(s: State, c: Id, steps: seq<Step>, minAge: nat)
    requires Inv(s, minAge) && (IsAttached(s, c) ==> !TooLate(s, c, minAge))
    ensures !LosesTo(s, c, steps, minAge)
    decreases |steps|
  {
    if steps != [] && (steps[0] == Commit(c) || BySweep(steps[0])) && Enabled(s, steps[0], minAge) {
      var t := Apply(s, steps[0], minAge);
      StepKeeps(s, steps[0], minAge);
      if BySweep(steps[0]) { SweepsLeave(s, steps[0], minAge); }
      InTimeKeeps(t, c, steps[1..], minAge);
    }
  }

  lemma CommitLoses(s: State, c: Id, minAge: nat)
    requires CanCommit(s, c) && s.captures[c].phase.inserts
    requires s.captures[c].name !in s.files || !s.files[s.captures[c].name].durable
    ensures LosesTo(s, c, [Commit(c)], minAge)
  {
    var t, b := To(Recorded(s, c), c, Committed), s.captures[c].phase.blob;
    assert Apply(s, Commit(c), minAge) == t;
    assert b in t.rows && !RowKept(t.rows[b], t.files);
    assert LosesTo(t, c, [], minAge);
    ToSweep(s, c, Commit(c), [], minAge);
  }

  /** A sweep that has found the file old and without a row unlinks it after the commit. */
  lemma SweepLoses(s: State, c: Id, p: Id, minAge: nat)
    requires CanCommit(s, c) && s.captures[c].phase.inserts && CanSweep(s, p, s.captures[c].name)
    ensures LosesTo(s, c, [Commit(c), SweepUnlink(p, s.captures[c].name)], minAge)
  {
    var n, b := s.captures[c].name, s.captures[c].phase.blob;
    var t := To(Recorded(s, c), c, Committed);
    var u := Swept(t, p, n);
    assert Apply(s, Commit(c), minAge) == t && Enabled(t, SweepUnlink(p, n), minAge);
    assert Apply(t, SweepUnlink(p, n), minAge) == u;
    assert b in u.rows && u.rows[b].name == n && n !in u.files && !RowKept(u.rows[b], u.files);
    assert LosesTo(u, c, [], minAge);
    ToSweep(t, c, SweepUnlink(p, n), [], minAge);
    ToSweep(s, c, Commit(c), [SweepUnlink(p, n)], minAge);
  }

  lemma QueryLoses(s: State, c: Id, p: Id, minAge: nat) returns (steps: seq<Step>)
    requires CanCommit(s, c) && s.captures[c].phase.inserts && NoRowNamed(s.rows, s.captures[c].name)
    requires p in s.sweeps && s.captures[c].name in s.sweeps[p].candidates
    ensures LosesTo(s, c, steps, minAge)
  {
    var n := s.captures[c].name;
    var t := Queried(s, p, {n});
    assert n in t.sweeps[p].doomed;
    SweepLoses(t, c, p, minAge);
    steps := [SweepQuery(p, {n})] + [Commit(c), SweepUnlink(p, n)];
    ToSweep(s, c, SweepQuery(p, {n}), [Commit(c), SweepUnlink(p, n)], minAge);
  }

  lemma SeeLoses(s: State, c: Id, minAge: nat) returns (steps: seq<Step>)
    requires CanCommit(s, c) && s.captures[c].phase.inserts && NoRowNamed(s.rows, s.captures[c].name)
    requires s.captures[c].name in s.files && s.files[s.captures[c].name].since + minAge <= s.clock
    ensures LosesTo(s, c, steps, minAge)
  {
    var n, p := s.captures[c].name, s.nextId;
    var t := s.(sweeps := s.sweeps[p := Sweep({}, {})], nextId := p + 1);
    var u := Seen(t, p, n);
    assert Apply(s, SweepStart, minAge) == t && Enabled(t, SweepSee(p, n), minAge);
    assert Apply(t, SweepSee(p, n), minAge) == u;
    assert CanCommit(u, c);
    var rest := QueryLoses(u, c, p, minAge);
    ToSweep(t, c, SweepSee(p, n), rest, minAge);
    ToSweep(s, c, SweepStart, [SweepSee(p, n)] + rest, minAge);
    steps := [SweepStart] + ([SweepSee(p, n)] + rest);
  }

  lemma LateLoses(s: State, c: Id, minAge: nat) returns (steps: seq<Step>)
    requires Inv(s, minAge) && CanCommit(s, c) && TooLate(s, c, minAge)
    ensures LosesTo(s, c, steps, minAge)
  {
    var k := s.captures[c];
    assert AttachOk(k, s.rows, s.nextBlob) && InFlight(k) && FileOk(k, s.files, s.sweeps, s.clock, minAge);
    if k.name in s.files && s.files[k.name].durable {
      steps := SeeLoses(s, c, minAge);
    } else {
      CommitLoses(s, c, minAge);
      steps := [Commit(c)];
    }
  }

  ghost predicate SweepsCanLose(s: State, c: Id, minAge: nat) {
    exists steps :: LosesTo(s, c, steps, minAge)
  }

  /** If sweeps may also run before it, a commit that inserts a row can lose its file to them exactly when it comes
      later than the age limit. */
  lemma LateExactly(s: State, c: Id, minAge: nat)
    requires Inv(s, minAge) && CanCommit(s, c) && s.captures[c].phase.inserts
    ensures SweepsCanLose(s, c, minAge) <==> TooLate(s, c, minAge)
  {
    if TooLate(s, c, minAge) {
      var steps := LateLoses(s, c, minAge);
    } else {
      forall steps ensures !LosesTo(s, c, steps, minAge) { InTimeKeeps(s, c, steps, minAge); }
    }
  }

  // ---- a name that is not clear ------------------------------------------------------------------------------

  /** The step belongs to somebody else and takes the file of this name. */
  predicate Taker(s: State, step: Step, c: Id, n: Name) {
    Takes(s, step, n) && (step.Abort? || step.DropRedundant? ==> step.c != c)
  }

  /** The capture is on its way to inserting a row, under a name that somebody will unlink. */
  ghost predicate Doomed(s: State, c: Id, taker: Step) {
    && c in s.captures && s.captures[c].owns && s.captures[c].stagedAt == s.clock
    && Taker(s, taker, c, s.captures[c].name)
    && NoRowOf(s.rows, s.captures[c].gen)
  }

  lemma TakerLoses(s: State, c: Id, b: Blob, taker: Step, minAge: nat)
    requires b in s.rows && Taker(s, taker, c, s.rows[b].name)
    ensures CanLoseRow(s, minAge)
  {
    var t := Apply(s, taker, minAge);
    assert s.rows[b].name !in t.files && t.rows == s.rows;
    LostAlready(t, b, minAge);
    LostAfter(s, taker, minAge);
  }

  lemma DoomedCommit(s: State, c: Id, taker: Step, minAge: nat)
    requires Doomed(s, c, taker) && CanCommit(s, c) && s.captures[c].phase.inserts && minAge > 0
    ensures CanLoseRow(s, minAge)
  {
    var t := To(Recorded(s, c), c, Committed);
    assert Apply(s, Commit(c), minAge) == t;
    assert Taker(t, taker, c, s.captures[c].name);
    TakerLoses(t, c, s.captures[c].phase.blob, taker, minAge);
    LostAfter(s, Commit(c), minAge);
  }

  lemma DoomedReference(s: State, c: Id, taker: Step, minAge: nat)
    requires Doomed(s, c, taker) && IsAttached(s, c) && s.captures[c].phase.inserts && minAge > 0
    ensures CanLoseRow(s, minAge)
  {
    var t := To(s, c, s.captures[c].phase.(locked := true));
    assert Apply(s, Reference(c), minAge) == t;
    DoomedCommit(t, c, taker, minAge);
    LostAfter(s, Reference(c), minAge);
  }

  lemma DoomedAttach(s: State, c: Id, taker: Step, minAge: nat)
    requires Doomed(s, c, taker) && InPhase(s, c, Ready) && NoInserterOf(s, s.captures[c].gen) && minAge > 0
    ensures CanLoseRow(s, minAge)
  {
    var t := Joined(s, c, None);
    assert Apply(s, Attach(c, None), minAge) == t;
    DoomedReference(t, c, taker, minAge);
    LostAfter(s, Attach(c, None), minAge);
  }

  lemma DoomedSync(s: State, c: Id, taker: Step, minAge: nat)
    requires Doomed(s, c, taker) && CanSync(s, c) && NoInserterOf(s, s.captures[c].gen) && minAge > 0
    ensures CanLoseRow(s, minAge)
  {
    var t := Synced(s, c);
    assert Apply(s, Sync(c), minAge) == t;
    DoomedAttach(t, c, taker, minAge);
    LostAfter(s, Sync(c), minAge);
  }

  /** At most one open transaction inserts a generation. */
  ghost predicate OneInserter(s: State) {
    forall d, e :: d in s.captures && e in s.captures && d != e && Inserts(s.captures[d]) && Inserts(s.captures[e]) ==>
      !SameGen(s.captures[d].gen, s.captures[e].gen)
  }

  /** If another transaction is inserting the generation, it fails first. */
  lemma DoomedStaged(s: State, c: Id, taker: Step, minAge: nat)
    requires Doomed(s, c, taker) && CanSync(s, c) && OneInserter(s) && minAge > 0
    ensures CanLoseRow(s, minAge)
  {
    if NoInserterOf(s, s.captures[c].gen) {
      DoomedSync(s, c, taker, minAge);
    } else {
      var e :| e in s.captures && Inserts(s.captures[e]) && SameGen(s.captures[e].gen, s.captures[c].gen);
      var t := To(s, e, Failed);
      assert Apply(s, Fail(e), minAge) == t;
      assert NoInserterOf(t, s.captures[c].gen);
      DoomedSync(t, c, taker, minAge);
      LostAfter(s, Fail(e), minAge);
    }
  }

  /** Somebody else may still unlink the name. */
  ghost predicate Contested(s: State, c: Id, n: Name) {
    || (exists d :: d in s.captures && d != c && MayUnlink(s.captures[d]) && s.captures[d].name == n)
    || (exists p :: p in s.removers && s.removers[p] == n)
    || (exists p :: p in s.sweeps && (n in s.sweeps[p].candidates || n in s.sweeps[p].doomed))
  }

  /** A file just written under a name without a row that somebody else may still unlink. */
  ghost predicate Ripe(s: State, c: Id) {
    && CanSync(s, c) && s.captures[c].owns && s.captures[c].stagedAt == s.clock && OneInserter(s)
    && NoRowNamed(s.rows, s.captures[c].name) && RowsDistinct(s.rows) && Contested(s, c, s.captures[c].name)
    && RemoversOld(s.removers, s.nextId)
  }

  /** Another capture under the name: it fails and aborts, or drops its redundant file. */
  lemma HeldLoses(s: State, c: Id, d: Id, minAge: nat)
    requires Ripe(s, c) && NoRowOf(s.rows, s.captures[c].gen) && minAge > 0
    requires d in s.captures && d != c && s.captures[d].name == s.captures[c].name && MayUnlink(s.captures[d])
    ensures CanLoseRow(s, minAge)
  {
    if s.captures[d].phase.Committed? {
      DoomedStaged(s, c, DropRedundant(d), minAge);
    } else if s.captures[d].phase.Failed? {
      DoomedStaged(s, c, Abort(d), minAge);
    } else {
      FailLoses(s, c, d, minAge);
    }
  }

  lemma FailLoses(s: State, c: Id, d: Id, minAge: nat)
    requires Ripe(s, c) && NoRowOf(s.rows, s.captures[c].gen) && minAge > 0
    requires d in s.captures && d != c && s.captures[d].name == s.captures[c].name && MayUnlink(s.captures[d])
    requires !s.captures[d].phase.Committed? && !s.captures[d].phase.Failed?
    ensures CanLoseRow(s, minAge)
  {
    var t := To(s, d, Failed);
    assert Apply(s, Fail(d), minAge) == t;
    DoomedStaged(t, c, Abort(d), minAge);
    LostAfter(s, Fail(d), minAge);
  }

  /** A sweep that has the name: it queries if it has not yet, finds no row, and unlinks. */
  lemma MarkedLoses(s: State, c: Id, p: Id, minAge: nat)
    requires Ripe(s, c) && NoRowOf(s.rows, s.captures[c].gen) && minAge > 0
    requires p in s.sweeps && (s.captures[c].name in s.sweeps[p].candidates || s.captures[c].name in s.sweeps[p].doomed)
    ensures CanLoseRow(s, minAge)
  {
    var n := s.captures[c].name;
    if n in s.sweeps[p].doomed {
      DoomedStaged(s, c, SweepUnlink(p, n), minAge);
    } else {
      var t := Queried(s, p, {n});
      assert Apply(s, SweepQuery(p, {n}), minAge) == t && n in t.sweeps[p].doomed;
      DoomedStaged(t, c, SweepUnlink(p, n), minAge);
      LostAfter(s, SweepQuery(p, {n}), minAge);
    }
  }

  lemma RipeLoses(s: State, c: Id, minAge: nat)
    requires Ripe(s, c) && NoRowOf(s.rows, s.captures[c].gen) && minAge > 0
    ensures CanLoseRow(s, minAge)
  {
    var n := s.captures[c].name;
    if d :| d in s.captures && d != c && MayUnlink(s.captures[d]) && s.captures[d].name == n {
      HeldLoses(s, c, d, minAge);
    } else if p :| p in s.removers && s.removers[p] == n {
      DoomedStaged(s, c, UnlinkRemoved(p), minAge);
    } else {
      var p :| p in s.sweeps && (n in s.sweeps[p].candidates || n in s.sweeps[p].doomed);
      MarkedLoses(s, c, p, minAge);
    }
  }

  // If the generation has a row, that row can go first: its references are released, open transactions fail.

  function Open(s: State): set<Id> {
    set d | d in s.captures && s.captures[d].phase.Attached?
  }

  lemma ReleaseRipe(s: State, c: Id, r: Id)
    requires Ripe(s, c) && r in s.refs
    ensures var t := s.(refs := s.refs - {r}, released := s.released + {r});
      Ripe(t, c) && |t.refs| < |s.refs| && Open(t) == Open(s)
  {
    var t := s.(refs := s.refs - {r}, released := s.released + {r});
    assert t.refs.Keys == s.refs.Keys - {r};
    assert |t.refs| == |t.refs.Keys| && |s.refs| == |s.refs.Keys|;
    assert Contested(t, c, s.captures[c].name);
  }

  lemma FailRipe(s: State, c: Id, d: Id)
    requires Ripe(s, c) && d in Open(s)
    ensures var t := To(s, d, Failed); Ripe(t, c) && |Open(t)| < |Open(s)| && d != c
  {
    var t, n := To(s, d, Failed), s.captures[c].name;
    assert Open(t) == Open(s) - {d};
    assert Contested(t, c, n) by {
      if e :| e in s.captures && e != c && MayUnlink(s.captures[e]) && s.captures[e].name == n {
        assert e in t.captures && MayUnlink(t.captures[e]) && t.captures[e].name == n;
      }
    }
  }

  lemma DeleteRipe(s: State, c: Id, b: Blob)
    requires Ripe(s, c) && b in s.rows && SameGen(s.rows[b].gen, s.captures[c].gen)
    ensures var t := RowDeleted(s, b); c in t.captures && Ripe(t, c) && NoRowOf(t.rows, s.captures[c].gen)
  {
    var t, n := RowDeleted(s, b), s.captures[c].name;
    assert Contested(t, c, n) by {
      if p :| p in s.removers && s.removers[p] == n {
        assert p in t.removers && t.removers[p] == n;
      }
    }
  }

  lemma {:induction false} RowOrNot(s: State, c: Id, minAge: nat)
    requires Ripe(s, c) && minAge > 0
    ensures CanLoseRow(s, minAge)
    decreases |s.refs| + |Open(s)|
  {
    var gen := s.captures[c].gen;
    if b :| b in s.rows && SameGen(s.rows[b].gen, gen) {
      if r :| r in s.refs && s.refs[r] == b {
        var t := s.(refs := s.refs - {r}, released := s.released + {r});
        ReleaseRipe(s, c, r);
        assert Apply(s, Release(r), minAge) == t;
        RowOrNot(t, c, minAge);
        LostAfter(s, Release(r), minAge);
      } else if d :| d in Open(s) {
        var t := To(s, d, Failed);
        FailRipe(s, c, d);
        assert Apply(s, Fail(d), minAge) == t;
        RowOrNot(t, c, minAge);
        LostAfter(s, Fail(d), minAge);
      } else {
        UnreferencedLoses(s, c, b, minAge);
      }
    } else {
      RipeLoses(s, c, minAge);
    }
  }

  lemma UnreferencedLoses(s: State, c: Id, b: Blob, minAge: nat)
    requires Ripe(s, c) && b in s.rows && SameGen(s.rows[b].gen, s.captures[c].gen) && minAge > 0
    requires (forall r :: r in s.refs ==> s.refs[r] != b) && Open(s) == {}
    ensures CanLoseRow(s, minAge)
  {
    forall d | d in s.captures ensures !s.captures[d].phase.Attached? { assert d !in Open(s); }
    DeleteRipe(s, c, b);
    assert Apply(s, DeleteRow(b), minAge) == RowDeleted(s, b);
    RipeLoses(RowDeleted(s, b), c, minAge);
    LostAfter(s, DeleteRow(b), minAge);
  }

  lemma StagedInserter(s: State, c: Id, replace: bool)
    requires AllApart(s.captures) && CanStage(s, c)
    ensures OneInserter(Linked(s, c, replace))
  {
    var t := Linked(s, c, replace);
    forall d, e | d in t.captures && e in t.captures && d != e && Inserts(t.captures[d]) && Inserts(t.captures[e])
      ensures !SameGen(t.captures[d].gen, t.captures[e].gen)
    {
      assert Apart(s.captures[d], s.captures[e]);
    }
  }

  lemma UnclearIsRipe(s: State, c: Id, replace: bool, minAge: nat)
    requires Inv(s, minAge) && CanStage(s, c) && Writes(s, c, replace) && NoRowNamed(s.rows, s.captures[c].name)
    requires !Clear(s, s.captures[c].name)
    ensures Ripe(Linked(s, c, replace), c)
  {
    var n, t := s.captures[c].name, Linked(s, c, replace);
    assert AttachOk(s.captures[c], s.rows, s.nextBlob);
    StagedInserter(s, c, replace);
    assert Contested(t, c, n) by {
      if d :| d in s.captures && MayUnlink(s.captures[d]) && s.captures[d].name == n {
        assert d in t.captures && d != c && MayUnlink(t.captures[d]) && t.captures[d].name == n;
      }
    }
  }

  /** The capture that wrote over a row's file fails and aborts. */
  lemma AbortTakes(s: State, c: Id, b: Blob, minAge: nat)
    requires InPhase(s, c, Staged) && s.captures[c].owns && b in s.rows && s.rows[b].name == s.captures[c].name
    ensures CanLoseRow(s, minAge)
  {
    var t := To(s, c, Failed);
    var u := Aborted(t, c);
    assert Apply(s, Fail(c), minAge) == t && Apply(t, Abort(c), minAge) == u;
    LostAlready(u, b, minAge);
    LostAfter(t, Abort(c), minAge);
    LostAfter(s, Fail(c), minAge);
  }

  /** Writing a file can be followed by the loss of a row exactly when a row has the name, or another capture, a
      removal or a sweep may still unlink it. */
  lemma ReusedExactly(s: State, c: Id, replace: bool, minAge: nat)
    requires Inv(s, minAge) && CanStage(s, c) && Writes(s, c, replace) && minAge > 0
    ensures CanLoseRow(Apply(s, Stage(c, replace), minAge), minAge) <==> !Clear(s, s.captures[c].name)
  {
    var n, t := s.captures[c].name, Linked(s, c, replace);
    assert Apply(s, Stage(c, replace), minAge) == t;
    if Clear(s, n) {
      StageKeeps(s, c, replace, minAge);
      InvIsSafe(t, minAge);
    } else if b :| b in s.rows && s.rows[b].name == n {
      AbortTakes(t, c, b, minAge);
    } else {
      UnclearIsRipe(s, c, replace, minAge);
      RowOrNot(t, c, minAge);
    }
  }
}
