/**
 * When the store holds exactly the blocks the index lists (core/src/pipeline/mod.rs and
 * core/src/job/mod.rs together).
 *
 * A crash between two steps can leave a stored block that no row lists. The main result:
 * operations that run to their end leave none behind, if every freed block can be deleted.
 */
module Leaks {
  import opened Common
  import opened Codec
  import opened Vault
  import opened Backup
  import opened Lifecycle
  import opened History
  import opened Accounting

  /** No stored block is without an index row, and none is missing. */
  predicate Packed(v: State) {
    v.store.Keys == v.refs.Keys
  }

  predicate Positive(refs: map<Hash, nat>) {
    forall id :: id in refs ==> refs[id] > 0
  }

  // ---------------------------------------------------------------- backups

  lemma {:induction false} RunPacks(server: Server, job: Job, nonces: Nonces, v: State, es: seq<Extent>)
    requires Packed(v) && Positive(v.refs)
    ensures var w := ApplyAll(v, RunSteps(server, job, nonces, v, es));
            Packed(w) && Positive(w.refs)
    decreases |es|
  {
    hide Encode, Id;
    if es != [] {
      var n := |es| - 1;
      RunPacks(server, job, nonces, v, es[..n]);
      var before := RunSteps(server, job, nonces, v, es[..n]);
      var w := ApplyAll(v, before);
      var steps := ChunkSteps(server, job, nonces(n), w.refs, es[n]);
      ApplyConcat(v, before, steps);
      if steps != [] {
        TwoSteps(u => true, w, steps[0], steps[1]);
      }
    }
  }

  lemma {:induction false} BackupPacks(server: Server, job: Job, nonces: Nonces, v: State, snap: SnapId, es: seq<Extent>)
    requires Packed(v) && Positive(v.refs)
    ensures var w := ApplyAll(v, BackupSteps(server, job, nonces, v, snap, es));
            Packed(w) && Positive(w.refs)
  {
    hide RunSteps, Packed, Positive, Apply;
    RunPacks(server, job, nonces, v, es);
    var run, m := RunSteps(server, job, nonces, v, es), ManifestOf(server, es);
    var record := [SaveManifest(snap, m), AddEntry(snap), InsertRow(snap)];
    ApplyConcat(v, run, record);
    RecordsLeaveBlocks(ApplyAll(v, run), record);
  }

  lemma {:induction false} ApplyNothing(v: State)
    ensures ApplyAll(v, []) == v
  {
  }

  lemma {:induction false} StoppedConcat(v: State, a: seq<Step>, b: seq<Step>, k: nat)
    requires k <= |a| + |b|
    ensures ApplyAll(v, (a + b)[..k]) == if k <= |a| then ApplyAll(v, a[..k]) else ApplyAll(ApplyAll(v, a), b[..k - |a|])
  {
    if k <= |a| {
      assert (a + b)[..k] == a[..k];
    } else {
      assert (a + b)[..k] == a + b[..k - |a|];
      ApplyConcat(v, a, b[..k - |a|]);
    }
  }

  /** A run writes in pairs: stopped between the two writes of a pair, and only there, it has stored a block without a row. */
  lemma {:induction false} RunStoppedPacksExactly(server: Server, job: Job, nonces: Nonces, v: State, es: seq<Extent>, k: nat)
    requires Packed(v) && Positive(v.refs) && k <= |RunSteps(server, job, nonces, v, es)|
    ensures |RunSteps(server, job, nonces, v, es)| % 2 == 0
    ensures Packed(ApplyAll(v, RunSteps(server, job, nonces, v, es)[..k])) <==> k % 2 == 0
    decreases |es|
  {
    hide ChunkSteps, ApplyAll, Packed, Positive;
    if es == [] {
      assert RunSteps(server, job, nonces, v, es)[..k] == [];
      ApplyNothing(v);
    } else {
      var n := |es| - 1;
      var before := RunSteps(server, job, nonces, v, es[..n]);
      var w := ApplyAll(v, before);
      var steps := ChunkSteps(server, job, nonces(n), w.refs, es[n]);
      RunPacks(server, job, nonces, v, es[..n]);
      RunStoppedPacksExactly(server, job, nonces, v, es[..n], Min(k, |before|));
      ChunkStoppedPacksExactly(server, job, nonces(n), w, es[n], Max(k - |before|, 0));
      StoppedConcat(v, before, steps, k);
    }
  }

  lemma {:induction false} ChunkStoppedPacksExactly(server: Server, job: Job, nonce: bytes, v: State, e: Extent, j: nat)
    requires Packed(v) && j <= |ChunkSteps(server, job, nonce, v.refs, e)|
    ensures |ChunkSteps(server, job, nonce, v.refs, e)| in {0, 2}
    ensures Packed(ApplyAll(v, ChunkSteps(server, job, nonce, v.refs, e)[..j])) <==> j % 2 == 0
  {
    hide Encode, Id;
    var steps := ChunkSteps(server, job, nonce, v.refs, e);
    if j == 1 {
      assert steps[..1] == [steps[0]] && [steps[0]][1..] == [];
      assert ApplyAll(v, [steps[0]]) == ApplyAll(Apply(v, steps[0]), []) == Apply(v, steps[0]);
      assert Id(server, e) in Apply(v, steps[0]).store.Keys;
    } else if j == 2 {
      assert steps[..2] == steps;
      TwoSteps(u => true, v, steps[0], steps[1]);
    }
  }

  /** A backup stopped after k steps leaves a stored block without a row exactly when k is odd and its run was not over. */
  lemma {:induction false} BackupStoppedPacksExactly(server: Server, job: Job, nonces: Nonces, v: State, snap: SnapId, es: seq<Extent>, k: nat)
    requires Packed(v) && Positive(v.refs) && k <= |BackupSteps(server, job, nonces, v, snap, es)|
    ensures Packed(ApplyAll(v, BackupSteps(server, job, nonces, v, snap, es)[..k])) <==>
            k % 2 == 0 || |RunSteps(server, job, nonces, v, es)| <= k
  {
    hide RunSteps, Packed, Positive, Apply;
    var run, m := RunSteps(server, job, nonces, v, es), ManifestOf(server, es);
    var record := [SaveManifest(snap, m), AddEntry(snap), InsertRow(snap)];
    RunPacks(server, job, nonces, v, es);
    RunStoppedPacksExactly(server, job, nonces, v, es, Min(k, |run|));
    StoppedConcat(v, run, record, k);
    assert run[..|run|] == run;
    if |run| < k {
      RecordsLeaveBlocks(ApplyAll(v, run), record[..k - |run|]);
    }
  }

  lemma {:induction false} RecordsLeaveBlocks(v: State, steps: seq<Step>)
    requires forall s :: s in steps ==> s.SaveManifest? || s.AddEntry? || s.InsertRow? || s.DropManifest? || s.DropEntry?
    ensures ApplyAll(v, steps).store == v.store && ApplyAll(v, steps).refs == v.refs
    ensures Packed(ApplyAll(v, steps)) <==> Packed(v)
    decreases |steps|
  {
    if steps != [] {
      assert steps[0] in steps;
      RecordsLeaveBlocks(Apply(v, steps[0]), steps[1..]);
    }
  }

  // ---------------------------------------------------------------- deletions

  lemma {:induction false} RemovalsStayPositive(refs: map<Hash, nat>, ids: seq<Hash>)
    requires Positive(refs)
    ensures Positive(AfterRemovals(refs, ids))
    decreases |ids|
  {
    if ids != [] {
      RemovalsStayPositive(Removed(refs, ids[0]), ids[1..]);
    }
  }

  /** The rows a removal list takes are those of the blocks it reports freed. */
  lemma {:induction false} RemovedAreFreed(refs: map<Hash, nat>, ids: seq<Hash>, id: Hash)
    requires Positive(refs)
    ensures id in AfterRemovals(refs, ids) <==> id in refs && id !in Orphans(refs, ids)
  {
    hide AfterRemovals, Orphans;
    RemovalsStayPositive(refs, ids);
    RemovalsSubtract(refs, ids, id);
    OrphansExactly(refs, ids, id);
    assert id in Orphans(refs, ids) <==> multiset(Orphans(refs, ids))[id] > 0;
  }

  /** A completed deletion leaves no stored block without a row exactly when every freed block can be deleted. */
  lemma {:induction false} DeletionPacksExactly(v: State, snap: SnapId, deletable: set<Hash>)
    requires Packed(v) && Positive(v.refs)
    ensures var w := ApplyAll(v, DeleteSteps(v, snap, deletable));
            && Positive(w.refs)
            && (Packed(w) <==> forall id :: id in Orphans(v.refs, ManifestIds(v, snap)) ==> id in deletable)
  {
    hide DeleteSteps, AfterRemovals, Orphans, ManifestIds, Positive;
    var ids := ManifestIds(v, snap);
    DeleteOutcome(v, snap, deletable);
    RemovalsStayPositive(v.refs, ids);
    var w := ApplyAll(v, DeleteSteps(v, snap, deletable));
    OrphansAreGone(v.refs, ids);
    forall id
      ensures id in w.refs <==> id in v.refs && id !in Orphans(v.refs, ids)
      ensures id in w.store <==> id in v.refs && !(id in Orphans(v.refs, ids) && id in deletable)
      ensures id in Orphans(v.refs, ids) ==> id in v.refs
    {
      RemovedAreFreed(v.refs, ids, id);
      OrphansExactly(v.refs, ids, id);
      assert id in Orphans(v.refs, ids) <==> multiset(Orphans(v.refs, ids))[id] > 0;
    }
    assert forall id :: id in w.store <==> id in w.store.Keys;
  }

  // ---------------------------------------------------------------- reconciliations

  lemma {:induction false} ReconcileDrops(rows: set<SnapId>, listing: seq<SnapId>, drops: Drops)
    ensures forall s :: s in ReconcileSteps(rows, listing, drops) ==> s.DropManifest? || s.DropEntry?
    decreases |listing|
  {
    if listing != [] {
      ReconcileDrops(rows, listing[1..], drops);
    }
  }

  // ---------------------------------------------------------------- histories without crashes

  /** The operation runs to its end, and every block it frees can be deleted. */
  predicate Unhindered(server: Server, v: State, e: Event) {
    && |StepsOf(server, v, e.op)| <= e.reached
    && match e.op
       case DeleteOp(snap, deletable) => forall id :: id in Orphans(v.refs, ManifestIds(v, snap)) ==> id in deletable
       case _ => true
  }

  predicate UnhinderedHistory(server: Server, v: State, events: seq<Event>)
    decreases |events|
  {
    events == [] || (Unhindered(server, v, events[0]) && UnhinderedHistory(server, Occur(server, v, events[0]), events[1..]))
  }

  lemma {:induction false} UnhinderedPacks(server: Server, v: State, e: Event)
    requires Packed(v) && Positive(v.refs) && Unhindered(server, v, e)
    ensures Packed(Occur(server, v, e)) && Positive(Occur(server, v, e).refs)
  {
    hide ApplyAll, BackupSteps, DeleteSteps, ReconcileSteps, Positive;
    var steps := StepsOf(server, v, e.op);
    assert Reached(steps, e.reached) == steps;
    match e.op
    case BackupOp(job, nonces, snap, es) =>
      BackupPacks(server, job, nonces, v, snap, es);
    case DeleteOp(snap, deletable) =>
      DeletionPacksExactly(v, snap, deletable);
    case ReconcileOp(listing, drops) =>
      ReconcileDrops(v.rows, listing, drops);
      RecordsLeaveBlocks(v, steps);
  }

  /** Only crashes and failed deletions leak: after a history without them the store holds exactly the blocks of the index. */
  lemma {:induction false} NothingLeaks(server: Server, v: State, events: seq<Event>)
    requires Packed(v) && Positive(v.refs) && UnhinderedHistory(server, v, events)
    ensures Packed(Replay(server, v, events)) && Positive(Replay(server, v, events).refs)
    decreases |events|
  {
    hide Occur, Unhindered, Packed, Positive;
    if events != [] {
      UnhinderedPacks(server, v, events[0]);
      NothingLeaks(server, Occur(server, v, events[0]), events[1..]);
    }
  }
}
