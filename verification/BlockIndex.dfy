/**
 * The blocks table of the index (core/src/index/mod.rs:58-119, 245-257) under any
 * interleaving of calls. Every call is one transaction, so the calls of any number of
 * threads reach the table as one sequence of operations: a trace.
 */
module BlockTable {
  import opened Common
  import opened Codec
  import Vault

  datatype Row = Row(size: nat, refcount: int)

  type Rows = map<Hash, Row>

  datatype Op = Add(id: Hash, size: nat) | Remove(id: Hash)

  /** The new table and whether the call answered that the block was freed. */
  function Exec(rows: Rows, op: Op): (Rows, bool) {
    match op
    case Add(id, size) =>
      (rows[id := if id in rows then rows[id].(refcount := rows[id].refcount + 1) else Row(size, 1)], false)
    case Remove(id) =>
      if id !in rows || rows[id].refcount <= 0 then (rows, false)
      else if rows[id].refcount == 1 then (rows - {id}, true)
      else (rows[id := rows[id].(refcount := rows[id].refcount - 1)], false)
  }

  function ExecAll(rows: Rows, trace: seq<Op>): Rows
    decreases |trace|
  {
    if trace == [] then rows else ExecAll(Exec(rows, trace[0]).0, trace[1..])
  }

  /** A present row has a positive refcount. */
  predicate Positive(rows: Rows) {
    forall id :: id in rows ==> rows[id].refcount > 0
  }

  lemma {:induction false} StaysPositive(rows: Rows, trace: seq<Op>)
    requires Positive(rows)
    ensures Positive(ExecAll(rows, trace))
    decreases |trace|
  {
    if trace != [] {
      StaysPositive(Exec(rows, trace[0]).0, trace[1..]);
    }
  }

  /** While a block is not freed its row keeps the size of the add that created it. */
  lemma {:induction false} SizeStays(rows: Rows, trace: seq<Op>, id: Hash)
    requires id in rows && Freed(rows, trace, id) == 0
    ensures id in ExecAll(rows, trace) && ExecAll(rows, trace)[id].size == rows[id].size
    decreases |trace|
  {
    if trace != [] {
      SizeStays(Exec(rows, trace[0]).0, trace[1..], id);
    }
  }

  /** The counters alone, as the server's durable state has them. */
  ghost function Counters(rows: Rows): map<Hash, nat>
    requires Positive(rows)
  {
    map id | id in rows :: rows[id].refcount
  }

  /** On counters the calls are the reference steps of the backup server, answer included. */
  lemma CallsAreSteps(rows: Rows, id: Hash, size: nat)
    requires Positive(rows)
    ensures Positive(Exec(rows, Add(id, size)).0) && Positive(Exec(rows, Remove(id)).0)
    ensures Counters(Exec(rows, Add(id, size)).0) == Vault.Added(Counters(rows), id)
    ensures Counters(Exec(rows, Remove(id)).0) == Vault.Removed(Counters(rows), id)
    ensures Exec(rows, Remove(id)).1 <==> Vault.Frees(Counters(rows), id)
  {
    assert Counters(Exec(rows, Remove(id)).0) == Vault.Removed(Counters(rows), id);
  }

  // ---------------------------------------------------------------- counting calls

  function RefCount(rows: Rows, id: Hash): int {
    if id in rows then rows[id].refcount else 0
  }

  function One(b: bool): nat {
    if b then 1 else 0
  }

  /** Calls of the trace that add the block. */
  function Adds(trace: seq<Op>, id: Hash): nat {
    if trace == [] then 0 else One(trace[0].Add? && trace[0].id == id) + Adds(trace[1..], id)
  }

  /** Calls of the trace that remove the block, with or without effect. */
  function Removes(trace: seq<Op>, id: Hash): nat {
    if trace == [] then 0 else One(trace[0] == Remove(id)) + Removes(trace[1..], id)
  }

  /** Removes that decremented a counter, of one block or of any. */
  function Decrements(rows: Rows, trace: seq<Op>, id: Option<Hash>): nat
    decreases |trace|
  {
    if trace == [] then 0
    else
      One(trace[0].Remove? && RefCount(rows, trace[0].id) > 0 && (id.None? || id.value == trace[0].id)) +
      Decrements(Exec(rows, trace[0]).0, trace[1..], id)
  }

  /** Calls that answered "freed" for the block. */
  function Freed(rows: Rows, trace: seq<Op>, id: Hash): nat
    decreases |trace|
  {
    if trace == [] then 0
    else One(trace[0].id == id && Exec(rows, trace[0]).1) + Freed(Exec(rows, trace[0]).0, trace[1..], id)
  }

  /** Adds that found no row and so created one. */
  function Created(rows: Rows, trace: seq<Op>, id: Hash): nat
    decreases |trace|
  {
    if trace == [] then 0
    else One(trace[0].Add? && trace[0].id == id && id !in rows) + Created(Exec(rows, trace[0]).0, trace[1..], id)
  }

  // ---------------------------------------------------------------- laws of every trace

  /** Each counter is what it was, plus the adds, minus the effective removes. */
  lemma {:induction false} CounterBalance(rows: Rows, trace: seq<Op>, id: Hash)
    requires Positive(rows)
    ensures RefCount(ExecAll(rows, trace), id) == RefCount(rows, id) + Adds(trace, id) - Decrements(rows, trace, Some(id))
    decreases |trace|
  {
    if trace != [] {
      CounterBalance(Exec(rows, trace[0]).0, trace[1..], id);
    }
  }

  /** Every creation of a row is matched by one "freed" answer, except the last if the row is still there. */
  lemma {:induction false} FreedMatchesCreated(rows: Rows, trace: seq<Op>, id: Hash)
    requires Positive(rows)
    ensures Freed(rows, trace, id) + One(id in ExecAll(rows, trace)) == Created(rows, trace, id) + One(id in rows)
    decreases |trace|
  {
    if trace != [] {
      FreedMatchesCreated(Exec(rows, trace[0]).0, trace[1..], id);
    }
  }

  lemma {:induction false} ExecConcat(rows: Rows, a: seq<Op>, b: seq<Op>, id: Hash)
    ensures ExecAll(rows, a + b) == ExecAll(ExecAll(rows, a), b)
    ensures Freed(rows, a + b, id) == Freed(rows, a, id) + Freed(ExecAll(rows, a), b, id)
    decreases |a|
  {
    if a == [] {
      assert a + b == b;
    } else {
      assert (a + b)[0] == a[0] && (a + b)[1..] == a[1..] + b;
      ExecConcat(Exec(rows, a[0]).0, a[1..], b, id);
    }
  }

  /** While nobody removes the block, its counter grows by one with every add. */
  lemma {:induction false} OnlyAdded(rows: Rows, trace: seq<Op>, id: Hash)
    requires Positive(rows) && Removes(trace, id) == 0
    ensures RefCount(ExecAll(rows, trace), id) == RefCount(rows, id) + Adds(trace, id) && Freed(rows, trace, id) == 0
    decreases |trace|
  {
    if trace != [] {
      OnlyAdded(Exec(rows, trace[0]).0, trace[1..], id);
    }
  }

  /** While nobody adds the block, it is freed once, by the remove that takes the last reference. */
  lemma {:induction false} OnlyRemoved(rows: Rows, trace: seq<Op>, id: Hash)
    requires Positive(rows) && Adds(trace, id) == 0
    ensures Freed(rows, trace, id) == One(id in rows && Removes(trace, id) >= rows[id].refcount)
    decreases |trace|
  {
    if trace != [] {
      OnlyRemoved(Exec(rows, trace[0]).0, trace[1..], id);
    }
  }

  /**
   * Double deletes are idempotent: n adds of an absent block, then removes of it, both
   * interleaved with any other calls: "freed" is answered exactly once if there are at
   * least n removes, and never if there are fewer.
   */
  lemma {:induction false} FreedExactlyOnce(rows: Rows, adding: seq<Op>, removing: seq<Op>, id: Hash)
    requires Positive(rows) && id !in rows
    requires Removes(adding, id) == 0 && Adds(removing, id) == 0 && Adds(adding, id) > 0
    ensures Freed(rows, adding + removing, id) == One(Removes(removing, id) >= Adds(adding, id))
  {
    OnlyAdded(rows, adding, id);
    StaysPositive(rows, adding);
    OnlyRemoved(ExecAll(rows, adding), removing, id);
    ExecConcat(rows, adding, removing, id);
  }

  // ---------------------------------------------------------------- totals

  /** The sum of a column over some of the rows. */
  ghost function Sum(rows: Rows, ids: set<Hash>, column: Row -> int): int
    decreases |ids|
  {
    if ids == {} then 0
    else
      var id :| id in ids;
      (if id in rows then column(rows[id]) else 0) + Sum(rows, ids - {id}, column)
  }

  lemma {:induction false} SumSplit(rows: Rows, ids: set<Hash>, column: Row -> int, id: Hash)
    requires id in ids
    ensures Sum(rows, ids, column) == (if id in rows then column(rows[id]) else 0) + Sum(rows, ids - {id}, column)
    decreases |ids|
  {
    var first :| first in ids && Sum(rows, ids, column) ==
                 (if first in rows then column(rows[first]) else 0) + Sum(rows, ids - {first}, column);
    if first != id {
      SumSplit(rows, ids - {first}, column, id);
      SumSplit(rows, ids - {id}, column, first);
      assert ids - {first} - {id} == ids - {id} - {first};
    }
  }

  lemma {:induction false} SumAgrees(a: Rows, b: Rows, ids: set<Hash>, column: Row -> int)
    requires forall id :: id in ids ==> (id in a <==> id in b) && (id in a ==> a[id] == b[id])
    ensures Sum(a, ids, column) == Sum(b, ids, column)
    decreases |ids|
  {
    if ids != {} {
      var id :| id in ids;
      SumSplit(a, ids, column, id);
      SumSplit(b, ids, column, id);
      SumAgrees(a, b, ids - {id}, column);
    }
  }

  function Refcounts(): Row -> int {
    (row: Row) => row.refcount
  }

  function ReferencedBytes(): Row -> int {
    (row: Row) => row.size * row.refcount
  }

  /** SELECT SUM(refcount) */
  ghost function TotalRefs(rows: Rows): int {
    Sum(rows, rows.Keys, Refcounts())
  }

  lemma {:induction false} SumOfOneChange(a: Rows, b: Rows, id: Hash, column: Row -> int)
    requires b == a - {id} || (id in b && b == a[id := b[id]])
    ensures Sum(b, b.Keys, column) - (if id in b then column(b[id]) else 0) == Sum(a, a.Keys, column) - (if id in a then column(a[id]) else 0)
  {
    assert a.Keys - {id} == b.Keys - {id};
    SumAgrees(a, b, a.Keys - {id}, column);
    if id in a {
      SumSplit(a, a.Keys, column, id);
    } else {
      assert a.Keys - {id} == a.Keys;
    }
    if id in b {
      SumSplit(b, b.Keys, column, id);
    } else {
      assert b.Keys - {id} == b.Keys;
    }
  }

  function AllAdds(trace: seq<Op>): nat {
    if trace == [] then 0 else One(trace[0].Add?) + AllAdds(trace[1..])
  }

  lemma OneCallCounts(rows: Rows, op: Op)
    requires Positive(rows)
    ensures TotalRefs(Exec(rows, op).0) == TotalRefs(rows) + One(op.Add?) - One(op.Remove? && RefCount(rows, op.id) > 0)
  {
    var after := Exec(rows, op).0;
    if op.Add? || RefCount(rows, op.id) > 0 {
      SumOfOneChange(rows, after, op.id, Refcounts());
    }
  }

  /** The sum of all counters is what it was, plus all adds, minus all effective removes. */
  lemma {:induction false} TotalBalance(rows: Rows, trace: seq<Op>)
    requires Positive(rows)
    ensures TotalRefs(ExecAll(rows, trace)) == TotalRefs(rows) + AllAdds(trace) - Decrements(rows, trace, None)
    decreases |trace|
  {
    if trace != [] {
      OneCallCounts(rows, trace[0]);
      TotalBalance(Exec(rows, trace[0]).0, trace[1..]);
    }
  }

  // ---------------------------------------------------------------- the index object

  class BlockIndex {
    var rows: Rows
    /** The calls so far; not part of the index, only of what is said about it. */
    ghost var trace: seq<Op>

    ghost predicate Valid()
      reads this
    {
      rows == ExecAll(map[], trace)
    }

    constructor ()
      ensures Valid() && rows == map[] && trace == []
    {
      rows := map[];
      trace := [];
    }

    method BlockExists(id: Hash) returns (found: bool)
      requires Valid()
      ensures found <==> RefCount(rows, id) > 0
    {
      StaysPositive(map[], trace);
      found := id in rows;
    }

    /** INSERT, or refcount + 1 when the row is there; the size of the first insert stays. */
    method AddBlock(id: Hash, size: nat)
      requires Valid()
      modifies this
      ensures Valid() && trace == old(trace) + [Add(id, size)]
    {
      ExecConcat(map[], trace, [Add(id, size)], id);
      assert [Add(id, size)][1..] == [];
      trace := trace + [Add(id, size)];
      rows := rows[id := if id in rows then rows[id].(refcount := rows[id].refcount + 1) else Row(size, 1)];
    }

    /** The guarded decrement, then the sweep of rows at or below zero, in one transaction. */
    method RemoveBlock(id: Hash) returns (freed: bool)
      requires Valid()
      modifies this
      ensures Valid() && trace == old(trace) + [Remove(id)]
      ensures freed <==> Freed(map[], trace, id) == Freed(map[], old(trace), id) + 1
    {
      ExecConcat(map[], trace, [Remove(id)], id);
      assert [Remove(id)][1..] == [];
      trace := trace + [Remove(id)];
      freed := false;
      if id in rows && rows[id].refcount > 0 {
        rows := rows[id := rows[id].(refcount := rows[id].refcount - 1)];
        if rows[id].refcount <= 0 {
          rows := rows - {id};
          freed := true;
        }
      }
    }

    /** References, rows and referenced bytes. */
    method DedupStats() returns (totalRefs: int, unique: nat, totalSize: int)
      requires Valid()
      ensures unique == |rows| && totalRefs == AllAdds(trace) - Decrements(map[], trace, None)
      ensures totalSize == Sum(rows, rows.Keys, ReferencedBytes())
    {
      totalRefs, totalSize := 0, 0;
      var todo := rows.Keys;
      while todo != {}
        invariant todo <= rows.Keys
        invariant totalRefs + Sum(rows, todo, Refcounts()) == TotalRefs(rows)
        invariant totalSize + Sum(rows, todo, ReferencedBytes()) == Sum(rows, rows.Keys, ReferencedBytes())
        decreases |todo|
      {
        var id :| id in todo;
        SumSplit(rows, todo, Refcounts(), id);
        SumSplit(rows, todo, ReferencedBytes(), id);
        totalRefs := totalRefs + rows[id].refcount;
        totalSize := totalSize + rows[id].size * rows[id].refcount;
        todo := todo - {id};
      }
      unique := |rows|;
      TotalBalance(map[], trace);
    }
  }
}
