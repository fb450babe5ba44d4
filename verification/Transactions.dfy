/** Transactions::exec and Transactions::read (core/include/db/Transactions.hpp) over a pool and one database. What
    libpqxx and the server do is a script: which calls fail, and how. */
module Transactions {
  import opened Wrappers
  import opened PoolRuns
  import opened Pool

  /** An exception from libpqxx: whether it poisons the session, whether the session is seen to be gone, and whether it
      is a broken_connection. */
  datatype Fault = Fault(poisons: bool, drops: bool, broken: bool)

  /** How the caller's function ends. */
  datatype Work = Done | Refused | Threw(fault: Fault) | Foreign

  /** How COMMIT ends: an error may hide that it took effect. */
  datatype Commit = Committed | Lost(applied: bool, fault: Fault)

  datatype Script = Script(
    acquire: Reconnect,
    begin: Option<Fault>,
    repair: Reconnect,
    again: Option<Fault>,
    work: Work,
    commit: Commit)

  datatype Outcome =
    | Ok
    | NotInitialized
    | NoLease(refusal: Refusal)
    | BeginFailed
    | RepairFailed
    | WorkFailed
    | CommitFailed

  /** What the server has applied, and how often the caller's function ran and a transaction was begun. */
  class Database {
    var applied: seq<nat>
    var runs: nat
    var begins: nat
    constructor () ensures applied == [] && runs == 0 && begins == 0 { applied, runs, begins := [], 0, 0; }
  }

  /** What the session does: it is seen to be gone, or stays open. */
  method Happen(conn: Connection, fault: Fault)
    modifies conn`healthy
    ensures conn.healthy == (old(conn.healthy) && !fault.drops)
  {
    if fault.drops { conn.healthy := false; }
  }

  /** What the caller does about it: an error that poisons the session is remembered. */
  method Mark(conn: Connection, fault: Fault)
    modifies conn`healthy
    ensures conn.healthy == (old(conn.healthy) && !fault.poisons)
  {
    if fault.poisons { conn.healthy := false; }
  }

  /** The session is not trusted after this. */
  predicate Ends(fault: Fault) {
    fault.poisons || fault.drops
  }

  method Begin(db: Database, conn: Connection, fault: Option<Fault>) returns (begun: bool)
    modifies db`begins, conn`inTransaction, conn`healthy
    ensures begun == fault.None? && db.begins == old(db.begins) + 1
    ensures begun ==> conn.inTransaction && conn.healthy == old(conn.healthy)
    ensures !begun ==> conn.inTransaction == old(conn.inTransaction)
    ensures !begun ==> conn.healthy == (old(conn.healthy) && !fault.value.drops)
  {
    db.begins := db.begins + 1;
    if fault.None? { conn.inTransaction := true; return true; }
    Happen(conn, fault.value);
    begun := false;
  }

  /** The error of libpqxx that the function or COMMIT ends with. */
  function WorkFault(work: Work, commit: Commit): Option<Fault> {
    match work
    case Threw(fault) => Some(fault)
    case Done => if commit.Lost? then Some(commit.fault) else None
    case _ => None
  }

  /** The caller's function and COMMIT on an open transaction, which is over afterwards. */
  method RunWork(db: Database, conn: Connection, op: nat, work: Work, commit: Commit) returns (r: Outcome)
    requires conn.inTransaction
    modifies db`runs, db`applied, conn`inTransaction, conn`healthy
    ensures !conn.inTransaction && db.runs == old(db.runs) + 1
    ensures r == Ok <==> work.Done? && commit.Committed?
    ensures r == CommitFailed <==> work.Done? && commit.Lost?
    ensures r == WorkFailed <==> !work.Done?
    ensures db.applied == old(db.applied) + if work.Done? && (commit.Committed? || commit.applied) then [op] else []
    ensures var fault := WorkFault(work, commit);
      conn.healthy == (old(conn.healthy) && (fault.None? || !Ends(fault.value)))
  {
    db.runs := db.runs + 1;
    match work {
      case Refused => r := WorkFailed;
      case Foreign => r := WorkFailed;
      case Threw(fault) =>
        Happen(conn, fault);
        Mark(conn, fault);
        r := WorkFailed;
      case Done =>
        if commit.Committed? || commit.applied { db.applied := db.applied + [op]; }
        if commit.Lost? {
          Happen(conn, commit.fault);
          Mark(conn, commit.fault);
        }
        r := if commit.Lost? then CommitFailed else Ok;
    }
    conn.inTransaction := false;
  }

  /** The slot that a call leased is at the back of the pool again and nothing else moved. */
  ghost predicate Rotated(now: seq<Connection>, before: seq<Connection>) {
    if before == [] then now == [] else now == before[1..] + [before[0]]
  }

  /** The session is replaced after BEGIN failed on it. */
  predicate Replaced(script: Script, notBefore: nat) {
    && script.begin.Some? && Ends(script.begin.value)
    && notBefore <= script.repair.now && script.repair.opens
  }

  /** BEGIN gets through: at once, or after the session was found dead and replaced. */
  predicate Begins(script: Script, notBefore: nat) {
    script.begin.None? || (Replaced(script, notBefore) && script.again.None?)
  }

  /** The last error on the session that is given back. */
  function LastFault(script: Script, notBefore: nat): Option<Fault> {
    if Begins(script, notBefore) then WorkFault(script.work, script.commit)
    else if Replaced(script, notBefore) then script.again
    else script.begin
  }

  /** That session counts as healthy exactly when its last error does not end it, or was met by the second BEGIN, where
      nobody remembers that it poisons. */
  predicate Trusted(script: Script, notBefore: nat) {
    var fault := LastFault(script, notBefore);
    || fault.None? || !Ends(fault.value)
    || (Replaced(script, notBefore) && script.again.Some? && !fault.value.drops)
  }

  /** What happens between taking the lease and giving it back. */
  method ExecOn(pool: DBPool, conn: Connection, db: Database, op: nat, script: Script) returns (r: Outcome)
    requires pool.Valid() && conn in pool.leased && conn !in pool.idle
    requires conn.healthy && !conn.inTransaction
    modifies db, conn, pool`reconnects, pool`reconnectFailures, pool`failures, pool`notBefore
    ensures pool.Valid() && !conn.inTransaction
    ensures db.runs == old(db.runs) + if Begins(script, old(pool.notBefore)) then 1 else 0
    ensures db.begins <= old(db.begins) + 2
    ensures db.begins == old(db.begins) + 2 ==> script.begin.Some? && Ends(script.begin.value)
    ensures db.applied == old(db.applied) || db.applied == old(db.applied) + [op]
    ensures r == Ok <==> Begins(script, old(pool.notBefore)) && script.work.Done? && script.commit.Committed?
    ensures r == CommitFailed <==> Begins(script, old(pool.notBefore)) && script.work.Done? && script.commit.Lost?
    ensures r == Ok ==> db.applied == old(db.applied) + [op]
    ensures r != Ok && r != CommitFailed ==> db.applied == old(db.applied)
    ensures conn.healthy == Trusted(script, old(pool.notBefore))
  {
    var begun := Begin(db, conn, script.begin);
    if !begun {
      Mark(conn, script.begin.value);
      if conn.healthy { return BeginFailed; }
      var repaired := pool.ReplaceBroken(conn, script.repair);
      if !repaired { return RepairFailed; }
      begun := Begin(db, conn, script.again);
      if !begun { return BeginFailed; }
    }
    r := RunWork(db, conn, op, script.work, script.commit);
  }

  /** exec: the caller's function runs at most once, BEGIN is sent at most twice and again only before the function
      has run; the operation is applied at most once, exactly when the call returns normally unless COMMIT itself
      failed; the transaction is over before the connection is back, and on every path it is back, counted as healthy
      exactly if `Trusted`. */
  method Exec(pool: DBPool?, db: Database, op: nat, script: Script) returns (r: Outcome)
    requires pool != null ==> pool.Valid()
    modifies db, pool, if pool != null then pool.idle else []
    ensures pool == null ==> r == NotInitialized && unchanged(db)
    ensures pool != null ==> pool.Valid() && pool.leased == old(pool.leased) && Rotated(pool.idle, old(pool.idle))
    ensures db.runs <= old(db.runs) + 1 && db.begins <= old(db.begins) + 2
    ensures db.begins == old(db.begins) + 2 ==> script.begin.Some? && Ends(script.begin.value)
    ensures db.applied == old(db.applied) || db.applied == old(db.applied) + [op]
    ensures r == Ok ==> db.runs == old(db.runs) + 1 && db.applied == old(db.applied) + [op]
    ensures r != Ok && r != CommitFailed ==> db.applied == old(db.applied)
    ensures pool != null && old(pool.idle) != [] && old(pool.idle[0].healthy) ==>
      (r == Ok <==> Begins(script, old(pool.notBefore)) && script.work.Done? && script.commit.Committed?)
    ensures pool != null && old(pool.idle) != [] && !r.NoLease? ==>
      var notBefore := if old(pool.idle[0].healthy) then old(pool.notBefore) else 0;
      pool.idle[|pool.idle| - 1].healthy == Trusted(script, notBefore)
  {
    if pool == null { return NotInitialized; }
    var lease, refusal := pool.Acquire(script.acquire);
    if lease == null { return NoLease(refusal); }
    assert lease.conn !in pool.idle;
    r := ExecOn(pool, lease.conn, db, op, script);
    lease.Reset();
  }

  /** The first try met a broken connection that is not healthy and can be replaced. */
  predicate Retries(first: Option<Fault>, notBefore: nat, repair: Reconnect) {
    && first.Some? && first.value.broken && Ends(first.value)
    && notBefore <= repair.now && repair.opens
  }

  method ReadOn(pool: DBPool, conn: Connection, db: Database, tries: seq<Option<Fault>>, repair: Reconnect)
    returns (r: Outcome, attempts: nat)
    requires pool.Valid() && conn in pool.leased && conn !in pool.idle
    requires conn.healthy && !conn.inTransaction && |tries| == 2
    modifies db`runs, conn`healthy, pool`reconnects, pool`reconnectFailures, pool`failures, pool`notBefore
    ensures pool.Valid() && 1 <= attempts <= 2 && db.runs == old(db.runs) + attempts
    ensures attempts == 2 <==> Retries(tries[0], old(pool.notBefore), repair)
    ensures conn.healthy == (tries[attempts - 1].None? || !Ends(tries[attempts - 1].value))
    ensures r == Ok <==> tries[attempts - 1].None?
  {
    attempts := 0;
    while true
      invariant attempts < 2 && db.runs == old(db.runs) + attempts && pool.Valid() && conn.healthy
      invariant attempts == 0 ==> pool.notBefore == old(pool.notBefore)
      invariant attempts == 1 ==> Retries(tries[0], old(pool.notBefore), repair)
      decreases 2 - attempts
    {
      db.runs := db.runs + 1;
      attempts := attempts + 1;
      match tries[attempts - 1]
      case None => return Ok, attempts;
      case Some(fault) =>
        Happen(conn, fault);
        Mark(conn, fault);
        if !fault.broken || attempts > 1 || conn.healthy { return WorkFailed, attempts; }
        var repaired := pool.ReplaceBroken(conn, repair);
        if !repaired { return RepairFailed, attempts; }
    }
  }

  /** read: the function is tried again exactly when its first try met a broken connection that is not healthy and could
      be replaced, and never a third time; the slot is back on every path. */
  method Read(pool: DBPool?, db: Database, acquire: Reconnect, tries: seq<Option<Fault>>, repair: Reconnect)
    returns (r: Outcome, attempts: nat)
    requires pool != null ==> pool.Valid()
    requires |tries| == 2
    modifies db`runs, pool, if pool != null then pool.idle else []
    ensures pool != null ==> pool.Valid() && pool.leased == old(pool.leased) && Rotated(pool.idle, old(pool.idle))
    ensures attempts <= 2 && db.runs == old(db.runs) + attempts
    ensures attempts == 2 ==> tries[0].Some? && tries[0].value.broken && Ends(tries[0].value) && repair.opens
    ensures r == Ok <==> attempts > 0 && tries[attempts - 1].None?
    ensures pool != null && attempts > 0 ==>
      && pool.idle != []
      && pool.idle[|pool.idle| - 1].healthy == (tries[attempts - 1].None? || !Ends(tries[attempts - 1].value))
  {
    if pool == null { return NotInitialized, 0; }
    var lease, refusal := pool.Acquire(acquire);
    if lease == null { return NoLease(refusal), 0; }
    assert lease.conn !in pool.idle;
    r, attempts := ReadOn(pool, lease.conn, db, tries, repair);
    lease.Reset();
  }
}
