/**
 * The leader lease (core/src/ha.rs): one row with an owner and a heartbeat, refreshed by
 * its owner and taken over by another node once it is older than 45 seconds of that
 * node's own clock. Each heartbeat is one conditional upsert; the heartbeats of all
 * nodes reach the row as one sequence.
 */
module Lease {
  import opened Common

  type NodeId = string

  const TTL_SECS: int := 45

  datatype Lock = Lock(owner: NodeId, heartbeat: int)

  /**
   * What the database does with a heartbeat: Served; Lost when the row was written but the
   * answer was an error; Failed when nothing was written; NoTable on an old database.
   */
  datatype Database = Served | Lost | Failed | NoTable

  /** A heartbeat, with the node's clock in seconds and the true time at that moment. */
  datatype Beat = Beat(node: NodeId, now: int, at: real, db: Database)

  /** ON CONFLICT ... WHERE owner = ?1 OR heartbeat < now - TTL */
  predicate MayWrite(row: Option<Lock>, node: NodeId, now: int) {
    row.None? || row.value.owner == node || row.value.heartbeat < now - TTL_SECS
  }

  function After(row: Option<Lock>, beat: Beat): Option<Lock> {
    if (beat.db.Served? || beat.db.Lost?) && MayWrite(row, beat.node, beat.now) then Some(Lock(beat.node, beat.now)) else row
  }

  /** The row was written and the node knows it. */
  predicate Acquires(row: Option<Lock>, beat: Beat) {
    beat.db.Served? && MayWrite(row, beat.node, beat.now)
  }

  /** What heartbeat answers; without the table every node counts as the only one. */
  predicate Reports(row: Option<Lock>, beat: Beat) {
    Acquires(row, beat) || beat.db.NoTable?
  }

  /** What is_leader answers; a query that fails reads as no row. */
  predicate IsLeader(row: Option<Lock>, node: NodeId, now: int) {
    row.Some? ==> row.value.owner == node && now - row.value.heartbeat < TTL_SECS
  }

  function RowAfter(row: Option<Lock>, trace: seq<Beat>): Option<Lock> {
    if trace == [] then row else After(RowAfter(row, trace[..|trace| - 1]), trace[|trace| - 1])
  }

  /** The row as the i-th heartbeat finds it. */
  function RowBefore(row: Option<Lock>, trace: seq<Beat>, i: nat): Option<Lock>
    requires i <= |trace|
  {
    RowAfter(row, trace[..i])
  }

  lemma RowStep(row: Option<Lock>, trace: seq<Beat>, i: nat)
    requires i < |trace|
    ensures RowBefore(row, trace, i + 1) == After(RowBefore(row, trace, i), trace[i])
  {
    assert trace[..i + 1][..i] == trace[..i];
  }

  /** No node's own clock goes back. */
  predicate ClocksForward(trace: seq<Beat>) {
    forall i, j :: 0 <= i < j < |trace| && trace[i].node == trace[j].node ==> trace[i].now <= trace[j].now
  }

  // ---------------------------------------------------------------- safety

  /** After a node wrote its lease at clock t the row is its own and no older, or younger by more than the TTL. */
  predicate Follows(row: Option<Lock>, node: NodeId, t: int) {
    row.Some? && ((row.value.owner == node && row.value.heartbeat >= t) || row.value.heartbeat > t + TTL_SECS)
  }

  /** The row was written by a heartbeat between i and j. */
  ghost predicate WrittenSince(row: Option<Lock>, trace: seq<Beat>, i: nat, j: nat)
    requires j <= |trace|
  {
    row.Some? && exists k :: i <= k < j && trace[k].node == row.value.owner && trace[k].now == row.value.heartbeat
  }

  /** From a row on, later rows are the same owner's and no older, or younger by more than the TTL and their owner's clock has passed them. */
  lemma {:induction false} HeldUntil(row: Option<Lock>, trace: seq<Beat>, m: nat, j: nat, held: Lock)
    requires m <= j <= |trace| && ClocksForward(trace) && RowBefore(row, trace, m) == Some(held)
    requires exists k :: 0 <= k < m && trace[k].node == held.owner && trace[k].now == held.heartbeat
    ensures Follows(RowBefore(row, trace, j), held.owner, held.heartbeat)
    ensures WrittenSince(RowBefore(row, trace, j), trace, 0, j)
    decreases j
  {
    if m < j {
      HeldUntil(row, trace, m, j - 1, held);
      RowStep(row, trace, j - 1);
      var before, beat := RowBefore(row, trace, j - 1), trace[j - 1];
      var k :| 0 <= k < j - 1 && trace[k].node == before.value.owner && trace[k].now == before.value.heartbeat;
      assert beat.node == before.value.owner ==> trace[k].now <= beat.now;
      if RowBefore(row, trace, j) == before {
        assert trace[k].node == before.value.owner;
      } else {
        assert trace[j - 1].node == RowBefore(row, trace, j).value.owner;
      }
    }
  }

  lemma LeaseFollows(row: Option<Lock>, trace: seq<Beat>, i: nat, j: nat)
    requires i < j <= |trace| && ClocksForward(trace) && Acquires(RowBefore(row, trace, i), trace[i])
    ensures Follows(RowBefore(row, trace, j), trace[i].node, trace[i].now)
    ensures WrittenSince(RowBefore(row, trace, j), trace, 0, j)
  {
    RowStep(row, trace, i);
    assert trace[i].node == RowBefore(row, trace, i + 1).value.owner;
    HeldUntil(row, trace, i + 1, j, Lock(trace[i].node, trace[i].now));
  }

  /** Two nodes that are both told they lead, by a database with the table, are told so more than 45 seconds of clock apart. */
  lemma LeaseExcludes(row: Option<Lock>, trace: seq<Beat>, i: nat, j: nat)
    requires i < j < |trace| && ClocksForward(trace) && trace[i].node != trace[j].node
    requires Reports(RowBefore(row, trace, i), trace[i]) && Reports(RowBefore(row, trace, j), trace[j])
    requires !trace[i].db.NoTable? && !trace[j].db.NoTable?
    ensures trace[j].now > trace[i].now + TTL_SECS
  {
    LeaseFollows(row, trace, i, j);
    var before := RowBefore(row, trace, j);
    var k :| 0 <= k < j && trace[k].node == before.value.owner && trace[k].now == before.value.heartbeat;
    assert trace[k].node == trace[j].node ==> trace[k].now <= trace[j].now;
  }

  /** Every clock is within e of true time whenever it is read. */
  predicate Synchronised(trace: seq<Beat>, e: real) {
    forall i :: 0 <= i < |trace| ==> -e <= trace[i].now as real - trace[i].at <= e
  }

  /** With clocks within e of true time: more than 45 - 2e seconds apart, so leases overlap by less than 2e. */
  lemma LeaseExcludesInTrueTime(row: Option<Lock>, trace: seq<Beat>, i: nat, j: nat, e: real)
    requires i < j < |trace| && ClocksForward(trace) && trace[i].node != trace[j].node
    requires Reports(RowBefore(row, trace, i), trace[i]) && Reports(RowBefore(row, trace, j), trace[j])
    requires !trace[i].db.NoTable? && !trace[j].db.NoTable?
    requires Synchronised(trace, e)
    ensures trace[j].at - trace[i].at > TTL_SECS as real - 2.0 * e
  {
    LeaseExcludes(row, trace, i, j);
    assert -e <= trace[i].now as real - trace[i].at <= e;
    assert -e <= trace[j].now as real - trace[j].at <= e;
  }

  /** A node that acquired the lease and is still told it leads: until the clock it asked at, nobody else acquires. */
  lemma LeaderIsAlone(row: Option<Lock>, trace: seq<Beat>, i: nat, m: nat, j: nat, now: int)
    requires i < m <= j < |trace| && ClocksForward(trace) && trace[i].node != trace[j].node
    requires Reports(RowBefore(row, trace, i), trace[i]) && IsLeader(RowBefore(row, trace, m), trace[i].node, now)
    requires Reports(RowBefore(row, trace, j), trace[j]) && !trace[i].db.NoTable? && !trace[j].db.NoTable?
    ensures trace[j].now > now
  {
    LeaseFollows(row, trace, i, m);
    var held := RowBefore(row, trace, m);
    var k :| 0 <= k < m && trace[k].node == held.value.owner && trace[k].now == held.value.heartbeat;
    HeldUntil(row, trace, m, j, held.value);
    var before := RowBefore(row, trace, j).value;
    if before.owner == trace[j].node {
      assert before != held.value;
    }
  }

  // ---------------------------------------------------------------- when a node leads

  /**
   * What one heartbeat answers and leaves: a served one takes the lease exactly if there is
   * no row, the row is the node's own, or it is more than 45 seconds of the node's clock
   * old. A lost one does the same and answers no; the others leave the row alone.
   */
  lemma HeartbeatExactly(row: Option<Lock>, beat: Beat)
    ensures var free := row == None || row.value.owner == beat.node || beat.now - row.value.heartbeat > 45;
            match beat.db
            case Served => (Reports(row, beat) <==> free) && After(row, beat) == (if free then Some(Lock(beat.node, beat.now)) else row)
            case Lost => !Reports(row, beat) && After(row, beat) == (if free then Some(Lock(beat.node, beat.now)) else row)
            case Failed => !Reports(row, beat) && After(row, beat) == row
            case NoTable => Reports(row, beat) && After(row, beat) == row
  {
  }

  /** A node that just took the lease is told it leads for less than 45 seconds of clock, and no other node is told so on that row. */
  lemma LeadsAfterHeartbeat(row: Option<Lock>, beat: Beat, node: NodeId, now: int)
    requires beat.db.Served? && Reports(row, beat)
    ensures IsLeader(After(row, beat), node, now) <==> node == beat.node && now - beat.now < 45
  {
  }

  /** Nobody else comes later than 45 seconds after the row was last renewed. */
  ghost predicate InTime(trace: seq<Beat>, m: nat, j: nat, held: Lock)
    requires m <= j < |trace|
  {
    trace[j].now - held.heartbeat <= 45
    || exists i :: m <= i < j && trace[i].node == held.owner && trace[i].db.Served? && trace[j].now - trace[i].now <= 45
  }

  /** An owner that renews its lease in time keeps it through any heartbeats of others, and each of its served heartbeats is answered yes. */
  lemma {:induction false} RenewedLeaseIsKept(row: Option<Lock>, trace: seq<Beat>, m: nat, n: nat, held: Lock)
    requires m <= n <= |trace| && ClocksForward(trace) && RowBefore(row, trace, m) == Some(held)
    requires forall j :: m <= j < n && trace[j].node == held.owner ==> held.heartbeat <= trace[j].now
    requires forall j :: m <= j < n && trace[j].node != held.owner ==> InTime(trace, m, j, held)
    ensures RowBefore(row, trace, n).Some? && RowBefore(row, trace, n).value.owner == held.owner
    ensures held.heartbeat <= RowBefore(row, trace, n).value.heartbeat
    ensures forall i :: m <= i < n && trace[i].node == held.owner && trace[i].db.Served? ==>
              trace[i].now <= RowBefore(row, trace, n).value.heartbeat && Reports(RowBefore(row, trace, i), trace[i])
    ensures RowBefore(row, trace, n) == Some(held)
            || exists i :: m <= i < n && trace[i].node == held.owner && trace[i].now == RowBefore(row, trace, n).value.heartbeat
    decreases n
  {
    hide RowBefore;
    if m < n {
      RenewedLeaseIsKept(row, trace, m, n - 1, held);
      RowStep(row, trace, n - 1);
      var before, beat := RowBefore(row, trace, n - 1), trace[n - 1];
      HeartbeatExactly(before, beat);
      if beat.node != held.owner {
        assert InTime(trace, m, n - 1, held);
        assert beat.now - before.value.heartbeat <= 45;
      } else {
        assert trace[n - 1].node == held.owner;
      }
    }
  }

  // ---------------------------------------------------------------- where the answers are not exclusive

  /** is_leader excludes a second leader at every pair of clocks exactly when there is a row to read. */
  lemma IsLeaderExclusiveExactly(row: Option<Lock>, a: NodeId, b: NodeId)
    requires a != b
    ensures (forall s: int, t: int :: !(IsLeader(row, a, s) && IsLeader(row, b, t))) <==> row.Some?
  {
    if row.None? {
      assert IsLeader(row, a, 0) && IsLeader(row, b, 0);
    }
  }

  /** Without the table two nodes are both told they lead at the same second. */
  lemma NoTableMeansTwoLeaders()
    ensures var trace := [Beat("a", 0, 0.0, NoTable), Beat("b", 0, 0.0, NoTable)];
            && ClocksForward(trace) && Synchronised(trace, 0.0)
            && Reports(RowBefore(None, trace, 0), trace[0]) && Reports(RowBefore(None, trace, 1), trace[1])
  {
  }

  /** No run of heartbeats, on databases that may lack the table only if `noTable`, tells two nodes within 45 seconds that they lead. */
  ghost predicate Exclusive(noTable: bool) {
    forall row: Option<Lock>, trace: seq<Beat>, i: nat, j: nat ::
      i < j < |trace| && ClocksForward(trace) && trace[i].node != trace[j].node && (forall b :: b in trace ==> b.db.NoTable? ==> noTable)
      && Reports(RowBefore(row, trace, i), trace[i]) && Reports(RowBefore(row, trace, j), trace[j]) ==>
        trace[j].now > trace[i].now + TTL_SECS
  }

  /** The lease excludes a second leader in every run exactly when every database has the table. */
  lemma {:induction false} ExclusiveExactly(noTable: bool)
    ensures Exclusive(noTable) <==> !noTable
  {
    hide RowBefore, Reports, ClocksForward;
    if noTable {
      NoTableMeansTwoLeaders();
      var trace := [Beat("a", 0, 0.0, NoTable), Beat("b", 0, 0.0, NoTable)];
      assert Reports(RowBefore(None, trace, 0), trace[0]) && Reports(RowBefore(None, trace, 1), trace[1]);
      assert trace[1].now <= trace[0].now + TTL_SECS;
    } else {
      forall row: Option<Lock>, trace: seq<Beat>, i: nat, j: nat |
        i < j < |trace| && ClocksForward(trace) && trace[i].node != trace[j].node && (forall b :: b in trace ==> b.db.NoTable? ==> noTable)
        && Reports(RowBefore(row, trace, i), trace[i]) && Reports(RowBefore(row, trace, j), trace[j])
        ensures trace[j].now > trace[i].now + TTL_SECS
      {
        assert trace[i] in trace && trace[j] in trace;
        LeaseExcludes(row, trace, i, j);
      }
    }
  }

  // ---------------------------------------------------------------- the lock object

  /** The leader_lock table, with the heartbeats that reached it. */
  class LeaderLock {
    var row: Option<Lock>
    ghost var origin: Option<Lock>
    ghost var trace: seq<Beat>

    ghost predicate Valid()
      reads this
    {
      row == RowAfter(origin, trace)
    }

    constructor (found: Option<Lock>)
      ensures Valid() && origin == found && trace == []
    {
      row, origin, trace := found, found, [];
    }

    method Heartbeat(beat: Beat) returns (leader: bool)
      requires Valid()
      modifies this
      ensures Valid() && origin == old(origin) && trace == old(trace) + [beat]
      ensures leader == Reports(old(row), beat)
    {
      assert (trace + [beat])[..|trace|] == trace;
      trace := trace + [beat];
      match beat.db {
        case NoTable => return true;
        case Failed => return false;
        case _ =>
      }
      var affected := false;
      if row.None? || row.value.owner == beat.node || row.value.heartbeat < beat.now - TTL_SECS {
        row := Some(Lock(beat.node, beat.now));
        affected := true;
      }
      return affected && beat.db.Served?;
    }

    /** A failed query is treated as if there were no row. */
    method AskLeader(node: NodeId, now: int, answered: bool) returns (leader: bool)
      requires Valid()
      ensures leader == IsLeader(if answered then row else None, node, now)
    {
      if !answered || row.None? {
        return true;
      }
      return row.value.owner == node && now - row.value.heartbeat < TTL_SECS;
    }
  }
}
