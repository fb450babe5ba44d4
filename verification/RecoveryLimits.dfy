/** The hazards of the recovery store do come up: for each of them a run without any hazard, from the start, to a
    state in which the next step may pose it. RecoveryExact says what follows. */
module RecoveryLimits {
  import opened Wrappers
  import opened Recovery
  import opened RecoverySafety

  /** Some run without hazards from the initial state ends in s. */
  ghost predicate Reached(s: State, minAge: nat, origins: map<Path, nat>) {
    exists run, steps :: IsRun(run, steps, minAge, origins) && Careful(run, steps, minAge) && run[|steps|] == s
  }

  lemma ExtendRun(run: seq<State>, steps: seq<Step>, step: Step, s': State, minAge: nat, origins: map<Path, nat>)
    requires IsRun(run, steps, minAge, origins)
    requires Enabled(run[|steps|], step, minAge) && s' == Apply(run[|steps|], step, minAge)
    ensures IsRun(run + [s'], steps + [step], minAge, origins)
  {
    var run', steps' := run + [s'], steps + [step];
    forall i | 0 <= i < |steps'|
      ensures Enabled(run'[i], steps'[i], minAge) && run'[i + 1] == Apply(run'[i], steps'[i], minAge)
    {
      if i < |steps| { assert steps'[i] == steps[i] && run'[i] == run[i] && run'[i + 1] == run[i + 1]; }
    }
  }

  lemma ExtendCareful(run: seq<State>, steps: seq<Step>, step: Step, s': State, minAge: nat)
    requires Careful(run, steps, minAge) && Harmless(run[|steps|], step, minAge)
    ensures Careful(run + [s'], steps + [step], minAge)
  {
    var run', steps' := run + [s'], steps + [step];
    forall i, h | 0 <= i < |steps'| ensures !Poses(run'[i], steps'[i], minAge, h) {
      if i < |steps| { assert steps'[i] == steps[i] && run'[i] == run[i]; }
    }
  }

  lemma Go(s: State, step: Step, minAge: nat, origins: map<Path, nat>)
    requires Reached(s, minAge, origins) && Enabled(s, step, minAge) && Harmless(s, step, minAge)
    ensures Reached(Apply(s, step, minAge), minAge, origins)
  {
    var s' := Apply(s, step, minAge);
    var run, steps :| IsRun(run, steps, minAge, origins) && Careful(run, steps, minAge) && run[|steps|] == s;
    ExtendRun(run, steps, step, s', minAge, origins);
    ExtendCareful(run, steps, step, s', minAge);
    assert (run + [s'])[|steps + [step]|] == s';
  }

  /** A set of states that such runs do not leave. */
  ghost predicate ClosedUnder(reach: iset<State>) {
    forall s, step {:trigger Apply(s, step, 1)} ::
      s in reach && Enabled(s, step, 1) && Harmless(s, step, 1) ==> Apply(s, step, 1) in reach
  }

  const ORIGINS := map[0 := 7]
  const S0 := State(0, map[], map[], map[], ORIGINS, map[], map[], map[], {}, 0, 0, map[], map[], {}, Contents(ORIGINS))
  const G := Gen(7, true)
  const K := Capture(G, 0, false, 5, Chosen, false, false, 0)
  const HELD := K.(owns := true)
  const FILE := map[5 := File(7, true, 0)]
  const ROW := Row(5, G)

  /** A capture with its file staged. */
  lemma Staging(reach: iset<State>) returns (s: State)
    requires ClosedUnder(reach) && S0 in reach
    ensures s in reach
    ensures s == S0.(files := map[5 := File(7, false, 0)], captures := map[0 := HELD.(phase := Staged)],
                     used := {5}, nextId := 1)
  {
    s := S0;
    s := Apply(s, Lookup(G, 0, false, None, 5), 1);
    assert s == S0.(captures := map[0 := K], used := {5}, nextId := 1);
    s := Apply(s, Stage(0, false), 1);
  }

  lemma Syncing(reach: iset<State>) returns (s: State)
    requires ClosedUnder(reach) && S0 in reach
    ensures s in reach
    ensures s == S0.(files := FILE, captures := map[0 := HELD.(phase := Ready)], used := {5}, nextId := 1)
  {
    s := Staging(reach);
    s := Apply(s, Sync(0), 1);
  }

  /** The capture in its open transaction. */
  lemma Opening(reach: iset<State>) returns (s: State)
    requires ClosedUnder(reach) && S0 in reach
    ensures s in reach
    ensures s == S0.(files := FILE, captures := map[0 := HELD.(phase := Attached(0, true, true))],
                     used := {5}, nextId := 1, nextBlob := 1)
  {
    s := Syncing(reach);
    s := Apply(s, Attach(0, None), 1);
    s := Apply(s, Reference(0), 1);
  }

  lemma Committing(reach: iset<State>) returns (s: State)
    requires ClosedUnder(reach) && S0 in reach
    ensures s in reach
    ensures s == S0.(files := FILE, rows := map[0 := ROW], refs := map[0 := 0], wrote := map[0 := G],
                     captures := map[0 := HELD.(phase := Committed)], used := {5}, nextId := 1, nextBlob := 1)
  {
    s := Opening(reach);
    s := Apply(s, Commit(0), 1);
    assert s.rows == map[0 := ROW];
  }

  /** Two captures find the row of a committed third; the row and its file are then removed. */
  lemma Finding(reach: iset<State>) returns (s: State)
    requires ClosedUnder(reach) && S0 in reach
    ensures s in reach
    ensures s == S0.(files := FILE, rows := map[0 := ROW], refs := map[0 := 0], wrote := map[0 := G],
                     captures := map[0 := HELD.(phase := Committed), 1 := K.(phase := Found), 2 := K.(phase := Found)],
                     used := {5}, nextId := 3, nextBlob := 1)
  {
    s := Committing(reach);
    s := Apply(s, Lookup(G, 0, false, Some(0), 5), 1);
    s := Apply(s, Lookup(G, 0, false, Some(0), 5), 1);
  }

  lemma Deleting(reach: iset<State>) returns (s: State)
    requires ClosedUnder(reach) && S0 in reach
    ensures s in reach
    ensures s == S0.(files := FILE, released := {0}, wrote := map[0 := G], removers := map[3 := 5],
                     captures := map[0 := HELD.(phase := Committed), 1 := K.(phase := Found), 2 := K.(phase := Found)],
                     used := {5}, nextId := 4, nextBlob := 1)
  {
    s := Finding(reach);
    s := Apply(s, Release(0), 1);
    assert s.refs == map[];
    s := Apply(s, DeleteRow(0), 1);
    assert s.removers == map[3 := 5] && s.rows == map[];
  }

  lemma Removing(reach: iset<State>) returns (s: State)
    requires ClosedUnder(reach) && S0 in reach
    ensures s in reach
    ensures s == S0.(released := {0}, wrote := map[0 := G],
                     captures := map[0 := HELD.(phase := Committed), 1 := K.(phase := Found), 2 := K.(phase := Found)],
                     used := {5}, nextId := 4, nextBlob := 1)
  {
    s := Deleting(reach);
    s := Apply(s, UnlinkRemoved(3), 1);
    assert s.files == map[] && s.removers == map[];
  }

  /** Both find the file missing. */
  lemma Missing(reach: iset<State>) returns (s: State)
    requires ClosedUnder(reach) && S0 in reach
    ensures s in reach
    ensures s == S0.(released := {0}, wrote := map[0 := G],
                     captures := map[0 := HELD.(phase := Committed), 1 := K, 2 := K],
                     used := {5}, nextId := 4, nextBlob := 1)
  {
    s := Removing(reach);
    s := Apply(s, CheckFile(1), 1);
    s := Apply(s, CheckFile(2), 1);
  }

  /** The first stages under the row's old name. */
  lemma Restaging(reach: iset<State>) returns (s: State)
    requires ClosedUnder(reach) && S0 in reach
    ensures s in reach
    ensures s == S0.(files := map[5 := File(7, false, 0)], released := {0}, wrote := map[0 := G],
                     captures := map[0 := HELD.(phase := Committed), 1 := HELD.(phase := Staged), 2 := K],
                     used := {5}, nextId := 4, nextBlob := 1)
  {
    s := Missing(reach);
    s := Apply(s, Stage(1, false), 1);
  }

  lemma AllReached() returns (reach: iset<State>)
    ensures reach == iset s | Reached(s, 1, ORIGINS)
    ensures ClosedUnder(reach) && S0 in reach
  {
    reach := iset s | Reached(s, 1, ORIGINS);
    assert IsRun([S0], [], 1, ORIGINS) && Careful([S0], [], 1) && [S0][0] == S0;
    forall t, step | t in reach && Enabled(t, step, 1) && Harmless(t, step, 1) ensures Apply(t, step, 1) in reach {
      Go(t, step, 1, ORIGINS);
    }
  }

  /** The transaction is still open when the sweep's age limit has passed and a sweep finds the file without a row. */
  lemma Aging(reach: iset<State>) returns (s: State)
    requires ClosedUnder(reach) && S0 in reach
    ensures s in reach
    ensures s == S0.(files := FILE, captures := map[0 := HELD.(phase := Attached(0, true, true))], clock := 1,
                     sweeps := map[1 := Sweep({}, {})], used := {5}, nextId := 2, nextBlob := 1)
  {
    s := Opening(reach);
    s := Apply(s, Tick, 1);
    s := Apply(s, SweepStart, 1);
  }

  lemma Waiting(reach: iset<State>) returns (s: State)
    requires ClosedUnder(reach) && S0 in reach
    ensures s in reach && Enabled(s, Commit(0), 1) && Poses(s, Commit(0), 1, Late)
  {
    s := Aging(reach);
    s := Apply(s, SweepSee(1, 5), 1);
    s := Apply(s, SweepQuery(1, {5}), 1);
    assert 5 in s.sweeps[1].doomed;
  }

  /** Every hazard can come up at the end of a run without hazards. */
  lemma HazardsComeUp(h: Hazard)
    ensures exists s, step :: Reached(s, 1, ORIGINS) && Enabled(s, step, 1) && Poses(s, step, 1, h)
  {
    var reach := AllReached();
    match h
    case InDoubt =>
      var s := Opening(reach);
      assert Enabled(s, CommitInDoubt(0), 1) && Poses(s, CommitInDoubt(0), 1, h);
    case Late =>
      var s := Waiting(reach);
      assert Enabled(s, Commit(0), 1) && Poses(s, Commit(0), 1, h);
    case Reused =>
      var s := Restaging(reach);
      assert s.captures[1].name == 5 && MayUnlink(s.captures[1]);
      assert Enabled(s, Stage(2, true), 1) && Poses(s, Stage(2, true), 1, h);
  }
}
