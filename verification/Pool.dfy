/** The connection pool as an object (core/include/db/DBPool.hpp, core/src/db/DBPool.cpp). Each method runs to its end;
    PoolRuns has the critical sections interleaved. The clock and whether a reconnect succeeds are parameters. */
module Pool {
  import opened PoolRuns

  datatype Refusal = AcquireTimeout | Unavailable

  class Connection {
    var healthy: bool
    var inTransaction: bool

    constructor ()
      ensures healthy && !inTransaction
    {
      healthy, inTransaction := true, false;
    }
  }

  /** The clock where the backoff window is read and where a failure is noted, and whether the server can be reached. */
  datatype Reconnect = Reconnect(now: nat, later: nat, opens: bool)

  class DBPool {
    const size: nat
    var idle: seq<Connection>
    var reconnects: nat
    var reconnectFailures: nat
    var failures: nat
    var notBefore: nat
    var timeouts: nat
    ghost var leased: set<Connection>

    ghost predicate Apart()
      reads this, idle
    {
      && (forall i, j :: 0 <= i < j < |idle| ==> idle[i] != idle[j])
      && (forall c :: c in idle ==> c !in leased && !c.inTransaction)
    }

    /** Every connection is idle once or leased, none idle is in a transaction, and none is missing. */
    ghost predicate Valid()
      reads this, idle
    {
      Apart() && |idle| + |leased| == size
    }

    constructor (n: nat)
      ensures Valid() && size == n && |idle| == n && leased == {} && fresh(idle)
      ensures forall c :: c in idle ==> c.healthy
      ensures reconnects == reconnectFailures == failures == notBefore == timeouts == 0
    {
      size := n;
      idle, leased := [], {};
      reconnects, reconnectFailures, failures, notBefore, timeouts := 0, 0, 0, 0, 0;
      new;
      for i := 0 to n
        invariant |idle| == i && Apart() && leased == {} && fresh(idle)
        invariant forall c :: c in idle ==> c.healthy
        invariant reconnects == reconnectFailures == failures == notBefore == timeouts == 0
      {
        var c := new Connection();
        idle := idle + [c];
      }
    }

    /** Replaces the session of a leased connection. Inside the backoff window nothing is tried; a failure opens the
        next window, a success closes it. The connection stays leased either way. */
    method ReplaceBroken(conn: Connection, world: Reconnect) returns (ok: bool)
      requires Valid() && conn in leased
      modifies this`reconnects, this`reconnectFailures, this`failures, this`notBefore, conn`healthy
      ensures Valid()
      ensures ok <==> old(notBefore) <= world.now && world.opens
      ensures ok ==> conn.healthy && reconnects == old(reconnects) + 1 && failures == 0 && notBefore == 0
      ensures ok ==> reconnectFailures == old(reconnectFailures)
      ensures old(notBefore) > world.now ==>
        && conn.healthy == old(conn.healthy)
        && reconnects == old(reconnects) && reconnectFailures == old(reconnectFailures)
        && failures == old(failures) && notBefore == old(notBefore)
      ensures old(notBefore) <= world.now && !world.opens ==>
        && !conn.healthy && reconnects == old(reconnects) && reconnectFailures == old(reconnectFailures) + 1
        && failures == (old(failures) + 1) % TWO_TO_THE_32 && notBefore == world.later + Backoff(failures)
    {
      if world.now < notBefore { return false; }
      if !world.opens {
        conn.healthy := false;
        reconnectFailures := reconnectFailures + 1;
        failures := (failures + 1) % TWO_TO_THE_32;
        var shift := if failures == 0 then TWO_TO_THE_32 - 1 else failures - 1;
        var factor, k := BACKOFF_BASE, 0;
        while k < Min(shift, 5)
          invariant k <= Min(shift, 5) && factor == Doubled(BACKOFF_BASE, k)
        {
          factor, k := 2 * factor, k + 1;
        }
        notBefore := world.later + Min(BACKOFF_MAX, factor);
        return false;
      }
      reconnects := reconnects + 1;
      failures, notBefore := 0, 0;
      conn.healthy := true;
      ok := true;
    }

    /** Hands out the connection that has been idle longest. Whatever goes wrong, it is back in the pool. */
    method Acquire(world: Reconnect) returns (lease: Lease?, refusal: Refusal)
      requires Valid()
      modifies this, idle
      ensures Valid()
      ensures lease != null ==>
        && fresh(lease) && old(idle) != [] && lease.pool == this && lease.conn == old(idle)[0] && old(idle)[0].healthy
        && !old(idle)[0].inTransaction && idle == old(idle)[1..] && leased == old(leased) + {old(idle)[0]}
      ensures lease == null && old(idle) == [] ==>
        refusal == AcquireTimeout && timeouts == old(timeouts) + 1 && idle == [] && leased == old(leased)
      ensures lease == null && old(idle) != [] ==>
        && refusal == Unavailable && !old(idle)[0].healthy
        && idle == old(idle)[1..] + [old(idle)[0]] && leased == old(leased)
      ensures lease != null <==>
        old(idle) != [] && (old(idle[0].healthy) || (old(notBefore) <= world.now && world.opens))
      ensures forall c :: c in old(idle) && c != old(idle)[0] ==> c.healthy == old(c.healthy)
      ensures old(idle) != [] && old(idle[0].healthy) ==>
        notBefore == old(notBefore) && failures == old(failures) && reconnects == old(reconnects)
      ensures old(idle) != [] && !old(idle[0].healthy) && lease != null ==>
        notBefore == 0 && failures == 0 && reconnects == old(reconnects) + 1
      ensures old(idle) != [] ==> timeouts == old(timeouts)
    {
      if idle == [] {
        timeouts := timeouts + 1;
        return null, AcquireTimeout;
      }
      var conn := idle[0];
      assert conn !in idle[1..];
      idle := idle[1..];
      leased := leased + {conn};
      if !conn.healthy {
        var ok := ReplaceBroken(conn, world);
        if !ok {
          Release(conn);
          return null, Unavailable;
        }
      }
      lease := new Lease(this, conn);
      refusal := AcquireTimeout;
    }

    /** Puts a leased connection back, healthy or not. */
    method Release(conn: Connection)
      requires Valid() && conn in leased && !conn.inTransaction && conn !in idle
      modifies this`idle, this`leased
      ensures Valid() && idle == old(idle) + [conn] && leased == old(leased) - {conn}
    {
      idle := idle + [conn];
      leased := leased - {conn};
    }

    /** The places of broken connections among the first k idle ones. */
    ghost function Broken(k: nat): set<int>
      requires k <= |idle|
      reads this, idle
    {
      set i | 0 <= i < k && !idle[i].healthy
    }

    lemma BrokenNext(k: nat)
      requires k < |idle|
      ensures |Broken(k + 1)| == |Broken(k)| + if idle[k].healthy then 0 else 1
    {
      assert Broken(k + 1) == Broken(k) + if idle[k].healthy then {} else {k};
    }

    method Stats() returns (total: nat, free: nat, inUse: nat, brokenIdle: nat)
      requires Valid()
      ensures total == size && free == |idle| && inUse == |leased|
      ensures brokenIdle == |Broken(|idle|)|
    {
      total, free, inUse, brokenIdle := size, |idle|, size - |idle|, 0;
      for k := 0 to |idle|
        invariant brokenIdle == |Broken(k)|
      {
        BrokenNext(k);
        if !idle[k].healthy { brokenIdle := brokenIdle + 1; }
      }
    }
  }

  class Lease {
    var pool: DBPool?
    var conn: Connection?

    ghost predicate Valid()
      reads this, pool, if pool != null then pool.idle else [], conn
    {
      && (pool == null <==> conn == null)
      && (pool != null ==> pool.Valid() && conn in pool.leased && conn !in pool.idle && !conn.inTransaction)
    }

    constructor (p: DBPool, c: Connection)
      ensures pool == p && conn == c
    {
      pool, conn := p, c;
    }

    /** Returns the connection, once: a second reset does nothing. */
    method Reset()
      requires Valid()
      modifies this, pool
      ensures pool == null && conn == null
      ensures old(pool) != null ==>
        && old(pool).Valid()
        && old(pool).idle == old(pool.idle) + [old(conn)] && old(pool).leased == old(pool.leased) - {old(conn)}
    {
      if pool != null && conn != null { pool.Release(conn); }
      pool, conn := null, null;
    }

    /** Move assignment: what this lease held goes back, what the other held is held here, and by nobody else. */
    method MoveFrom(other: Lease)
      requires Valid() && other.Valid() && (other != this && conn != null ==> other.conn != conn)
      modifies this, other, pool
      ensures Valid() && (other != this ==> other.Valid() && other.pool == null)
      ensures conn == old(other.conn) && pool == old(other.pool)
      ensures other != this && old(pool) != null ==>
        && old(pool).Valid()
        && old(pool).idle == old(pool.idle) + [old(conn)] && old(pool).leased == old(pool.leased) - {old(conn)}
      ensures other == this && old(pool) != null ==>
        old(pool).idle == old(pool.idle) && old(pool).leased == old(pool.leased)
    {
      if other != this {
        Reset();
        pool, conn := other.pool, other.conn;
        other.pool, other.conn := null, null;
      }
    }
  }
}
