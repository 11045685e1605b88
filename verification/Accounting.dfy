/**
 * What backups and deletions do to the refcounts (add_block and remove_block in
 * core/src/index/mod.rs as the pipeline and the garbage collector call them).
 *
 * A dedup hit does not count, so "refcounts cover the references" is not kept by every
 * backup. The main results say exactly when a backup keeps it, show the loss when it
 * does not, and carry it through every history in which it does.
 */
module Accounting {
  import opened Common
  import opened Codec
  import opened Vault
  import opened Backup
  import opened Lifecycle
  import opened Restore
  import opened History

  // ---------------------------------------------------------------- what a removal list does

  /** Removing a list of ids takes each refcount down by its occurrences, to zero at most. */
  lemma {:induction false} RemovalsSubtract(refs: map<Hash, nat>, ids: seq<Hash>, id: Hash)
    ensures RefCount(AfterRemovals(refs, ids), id) == Max(RefCount(refs, id) - multiset(ids)[id], 0)
    decreases |ids|
  {
    if ids != [] {
      RemovalsSubtract(Removed(refs, ids[0]), ids[1..], id);
      assert ids == [ids[0]] + ids[1..];
    }
  }

  /** A block is freed, once, exactly when the list mentions it at least as often as it is counted. */
  lemma {:induction false} OrphansExactly(refs: map<Hash, nat>, ids: seq<Hash>, id: Hash)
    ensures multiset(Orphans(refs, ids))[id] == if 0 < RefCount(refs, id) <= multiset(ids)[id] then 1 else 0
    decreases |ids|
  {
    if ids != [] {
      var rest := Orphans(Removed(refs, ids[0]), ids[1..]);
      OrphansExactly(Removed(refs, ids[0]), ids[1..], id);
      assert ids == [ids[0]] + ids[1..];
      assert multiset([ids[0]] + rest) == multiset{ids[0]} + multiset(rest);
    }
  }

  // ---------------------------------------------------------------- what a backup does

  function Ids(server: Server, es: seq<Extent>): (ids: seq<Hash>)
    ensures |ids| == |es| && forall i :: 0 <= i < |ids| ==> ids[i] == Id(server, es[i])
  {
    if es == [] then [] else Ids(server, es[..|es| - 1]) + [Id(server, es[|es| - 1])]
  }

  lemma {:induction false} ManifestHashes(server: Server, es: seq<Extent>)
    ensures HashesOf(ManifestOf(server, es)) == Ids(server, es)
  {
  }

  /** A run adds one reference per block it did not know, however often the block occurs. */
  lemma {:induction false} RunRefs(server: Server, job: Job, nonces: Nonces, v: State, es: seq<Extent>, id: Hash)
    ensures RefCount(ApplyAll(v, RunSteps(server, job, nonces, v, es)).refs, id)
         == RefCount(v.refs, id) + if id !in v.refs && id in Ids(server, es) then 1 else 0
    ensures id in ApplyAll(v, RunSteps(server, job, nonces, v, es)).refs <==> id in v.refs || id in Ids(server, es)
    decreases |es|
  {
    hide Encode, Id;
    if es != [] {
      var n := |es| - 1;
      RunRefs(server, job, nonces, v, es[..n], id);
      var before := RunSteps(server, job, nonces, v, es[..n]);
      var w := ApplyAll(v, before);
      var steps := ChunkSteps(server, job, nonces(n), w.refs, es[n]);
      ApplyConcat(v, before, steps);
      RunRefs(server, job, nonces, v, es[..n], Id(server, es[n]));
      if steps != [] {
        TwoSteps(u => true, w, steps[0], steps[1]);
      }
    }
  }

  lemma {:induction false} BackupOutcome(server: Server, job: Job, nonces: Nonces, v: State, snap: SnapId, es: seq<Extent>)
    ensures var w := ApplyAll(v, BackupSteps(server, job, nonces, v, snap, es));
            && w.rows == v.rows + {snap}
            && w.manifests == v.manifests[snap := ManifestOf(server, es)]
            && w.refs == ApplyAll(v, RunSteps(server, job, nonces, v, es)).refs
  {
    var run := RunSteps(server, job, nonces, v, es);
    var m := ManifestOf(server, es);
    RunFrame(server, job, nonces, v, es);
    ApplyConcat(v, run, [SaveManifest(snap, m), AddEntry(snap), InsertRow(snap)]);
    ThreeSteps(u => true, ApplyAll(v, run), SaveManifest(snap, m), AddEntry(snap), InsertRow(snap));
  }

  lemma LiveAfterBackup(rows: set<SnapId>, ms: map<SnapId, Manifest>, snap: SnapId, m: Manifest, id: Hash)
    requires snap !in rows
    ensures Live(rows + {snap}, ms[snap := m], id) == Live(rows, ms, id) + multiset(HashesOf(m))[id]
  {
    LiveWithout(rows + {snap}, ms[snap := m], snap, id);
    assert rows + {snap} - {snap} == rows;
    LiveFrame(rows, ms, ms[snap := m], id);
  }

  /** Checked before the run: each block has, with the reference a new block gets, enough references to spare. */
  ghost predicate Affordable(server: Server, v: State, es: seq<Extent>) {
    forall id :: Live(v.rows, v.manifests, id) + multiset(Ids(server, es))[id]
              <= RefCount(v.refs, id) + if id !in v.refs && id in Ids(server, es) then 1 else 0
  }

  /** A completed backup leaves refcounts covering the references exactly when it was affordable. */
  lemma {:induction false} BackupCountedExactly(server: Server, job: Job, nonces: Nonces, v: State, snap: SnapId, es: seq<Extent>)
    requires snap !in v.rows
    ensures Counted(ApplyAll(v, BackupSteps(server, job, nonces, v, snap, es))) <==> Affordable(server, v, es)
  {
    hide Live, HashesOf, Ids, ManifestOf, RunSteps, BackupSteps, RefCount;
    var w := ApplyAll(v, BackupSteps(server, job, nonces, v, snap, es));
    BackupOutcome(server, job, nonces, v, snap, es);
    ManifestHashes(server, es);
    forall id
      ensures Live(w.rows, w.manifests, id) + multiset{}[id] <= RefCount(w.refs, id) <==>
              Live(v.rows, v.manifests, id) + multiset(Ids(server, es))[id]
              <= RefCount(v.refs, id) + if id !in v.refs && id in Ids(server, es) then 1 else 0
    {
      LiveAfterBackup(v.rows, v.manifests, snap, ManifestOf(server, es), id);
      RunRefs(server, job, nonces, v, es, id);
    }
  }

  // ---------------------------------------------------------------- dedup hits

  /** How many chunks of a run are already known when their turn comes (blocks_deduped). */
  function Hits(server: Server, refs: set<Hash>, es: seq<Extent>): nat {
    if es == [] then 0
    else
      var n := |es| - 1;
      Hits(server, refs, es[..n]) + if Id(server, es[n]) in refs || Id(server, es[n]) in Ids(server, es[..n]) then 1 else 0
  }

  /** Chunks that are not hits are, counted, the new blocks (blocks_unique). */
  lemma {:induction false} UniqueAreNew(server: Server, refs: set<Hash>, es: seq<Extent>)
    ensures Hits(server, refs, es) + |(set id | id in Ids(server, es)) - refs| == |es|
    decreases |es|
  {
    hide Id;
    if es != [] {
      var n := |es| - 1;
      UniqueAreNew(server, refs, es[..n]);
      var before, last := (set id | id in Ids(server, es[..n])), Id(server, es[n]);
      assert (set id | id in Ids(server, es)) == before + {last};
      if last in refs || last in before {
        assert (before + {last}) - refs == before - refs;
      } else {
        assert (before + {last}) - refs == (before - refs) + {last};
      }
    }
  }

  predicate Distinct(ids: seq<Hash>) {
    forall i, j :: 0 <= i < j < |ids| ==> ids[i] != ids[j]
  }

  lemma {:induction false} NoHitsExactly(server: Server, refs: set<Hash>, es: seq<Extent>)
    ensures Hits(server, refs, es) == 0 <==> Distinct(Ids(server, es)) && forall id :: id in Ids(server, es) ==> id !in refs
    decreases |es|
  {
    if es != [] {
      var n := |es| - 1;
      NoHitsExactly(server, refs, es[..n]);
      var ids, init, last := Ids(server, es), Ids(server, es[..n]), Id(server, es[n]);
      assert ids == init + [last];
      assert ids[n] == last;
      assert forall i :: 0 <= i < n ==> ids[i] == init[i];
      if Distinct(ids) && forall id :: id in ids ==> id !in refs {
        assert forall id :: id in init ==> id in ids;
        assert last in ids;
      }
    }
  }

  lemma {:induction false} DistinctMultiset(ids: seq<Hash>)
    ensures Distinct(ids) <==> forall id :: multiset(ids)[id] <= 1
    decreases |ids|
  {
    if ids != [] {
      var n := |ids| - 1;
      var init := ids[..n];
      DistinctMultiset(init);
      assert ids == init + [ids[n]];
      if Distinct(ids) {
        assert forall i, j :: 0 <= i < j < |init| ==> init[i] != init[j];
        assert forall i :: 0 <= i < n ==> init[i] == ids[i];
        assert ids[n] !in init;
      } else {
        var i, j :| 0 <= i < j < |ids| && ids[i] == ids[j];
        assert i < n && init[i] == ids[i];
        if j == n {
          assert ids[n] in multiset(init);
          assert multiset(ids)[ids[n]] == multiset(init)[ids[n]] + 1;
        } else {
          assert init[j] == ids[j];
          assert !Distinct(init);
          var id :| multiset(init)[id] > 1;
          assert multiset(ids)[id] >= multiset(init)[id];
        }
      }
    }
  }

  /** Refcounts are exactly the live references. */
  ghost predicate Tight(v: State) {
    forall id :: Live(v.rows, v.manifests, id) == RefCount(v.refs, id)
  }

  lemma {:induction false} AffordableWhenTight(server: Server, v: State, es: seq<Extent>)
    requires Tight(v)
    ensures var ids := Ids(server, es);
            Affordable(server, v, es) <==> forall id :: multiset(ids)[id] <= (if id !in v.refs && id in ids then 1 else 0)
  {
    hide Live, Ids, RefCount;
    var ids := Ids(server, es);
    forall id
      ensures Live(v.rows, v.manifests, id) + multiset(ids)[id] <= RefCount(v.refs, id) + (if id !in v.refs && id in ids then 1 else 0)
         <==> multiset(ids)[id] <= (if id !in v.refs && id in ids then 1 else 0)
    {
      assert Live(v.rows, v.manifests, id) == RefCount(v.refs, id);
    }
  }

  /** From exact refcounts, a backup leaves the references covered exactly when none of its chunks was a dedup hit. */
  lemma {:induction false} DedupHitLosesCount(server: Server, job: Job, nonces: Nonces, v: State, snap: SnapId, es: seq<Extent>)
    requires Tight(v) && snap !in v.rows
    ensures Counted(ApplyAll(v, BackupSteps(server, job, nonces, v, snap, es))) <==> Hits(server, v.refs.Keys, es) == 0
  {
    hide Live, Ids, Hits, Counted, BackupSteps, Distinct, Holds;
    BackupCountedExactly(server, job, nonces, v, snap, es);
    NoHitsExactly(server, v.refs.Keys, es);
    DistinctMultiset(Ids(server, es));
    var ids := Ids(server, es);
    AffordableWhenTight(server, v, es);
  }

  // ---------------------------------------------------------------- what a deletion leaves in the store

  /** Physical deletion takes exactly the orphans that can be deleted. */
  lemma {:induction false} SweepTakes(v: State, orphans: seq<Hash>, deletable: set<Hash>)
    ensures var w := ApplyAll(v, Sweep(orphans, deletable));
            && w == v.(store := w.store)
            && (forall id :: id in w.store <==> id in v.store && !(id in orphans && id in deletable))
            && (forall id :: id in w.store ==> w.store[id] == v.store[id])
    decreases |orphans|
  {
    if orphans != [] {
      assert orphans == [orphans[0]] + orphans[1..];
      if orphans[0] in deletable {
        assert Sweep(orphans, deletable)[1..] == Sweep(orphans[1..], deletable);
        SweepTakes(Apply(v, DeleteBlock(orphans[0])), orphans[1..], deletable);
      } else {
        assert Sweep(orphans, deletable) == Sweep(orphans[1..], deletable);
        SweepTakes(v, orphans[1..], deletable);
      }
    }
  }

  lemma {:induction false} RemovalsTouchCounters(v: State, ids: seq<Hash>)
    ensures ApplyAll(v, Removals(ids)) == v.(refs := AfterRemovals(v.refs, ids))
    decreases |ids|
  {
    if ids != [] {
      RemovalsTouchCounters(Apply(v, RemoveBlock(ids[0])), ids[1..]);
      assert Removals(ids)[1..] == Removals(ids[1..]);
    }
  }

  /** A completed deletion: one row, manifest and entry less, and of the stored blocks exactly the deletable orphans. */
  lemma {:induction false} DeleteOutcome(v: State, snap: SnapId, deletable: set<Hash>)
    ensures var w := ApplyAll(v, DeleteSteps(v, snap, deletable));
            && w.rows == v.rows - {snap} && w.manifests == v.manifests - {snap} && w.entries == v.entries - {snap}
            && w.refs == AfterRemovals(v.refs, ManifestIds(v, snap))
            && (forall id :: id in w.store <==> id in v.store && !(id in Orphans(v.refs, ManifestIds(v, snap)) && id in deletable))
            && (forall id :: id in w.store ==> w.store[id] == v.store[id])
  {
    hide AfterRemovals, Orphans, Removals, Sweep;
    var ids := ManifestIds(v, snap);
    var orphans, drop := Orphans(v.refs, ids), [DropManifest(snap), DropEntry(snap)];
    var a := Apply(v, DeleteRow(snap));
    RemovalsTouchCounters(a, ids);
    var b := ApplyAll(a, Removals(ids));
    TwoSteps(u => true, b, drop[0], drop[1]);
    var c := ApplyAll(b, drop);
    SweepTakes(c, orphans, deletable);
    ApplyConcat(b, drop, Sweep(orphans, deletable));
    ApplyConcat(a, Removals(ids), drop + Sweep(orphans, deletable));
    assert DeleteSteps(v, snap, deletable)[1..] == Removals(ids) + (drop + Sweep(orphans, deletable));
  }

  /** The block is mentioned by the manifest of another snapshot with a row, and stored. */
  ghost predicate StoredElsewhere(v: State, snap: SnapId, id: Hash) {
    id in v.store && exists s :: s in v.rows && s != snap && id in ManifestIds(v, s)
  }

  /** The deletion's decrements reach zero: the index transaction will answer that the block is freed. */
  predicate WillBeFreed(v: State, snap: SnapId, id: Hash) {
    0 < RefCount(v.refs, id) <= multiset(ManifestIds(v, snap))[id]
  }

  lemma {:induction false} BlockSparedExactly(v: State, snap: SnapId, deletable: set<Hash>, id: Hash)
    ensures id in ApplyAll(v, DeleteSteps(v, snap, deletable)).store <==>
            id in v.store && !(WillBeFreed(v, snap, id) && id in deletable)
  {
    hide DeleteSteps, Orphans, ManifestIds, RefCount;
    DeleteOutcome(v, snap, deletable);
    OrphansExactly(v.refs, ManifestIds(v, snap), id);
    assert id in Orphans(v.refs, ManifestIds(v, snap)) <==> multiset(Orphans(v.refs, ManifestIds(v, snap)))[id] > 0;
  }

  /** Whatever can be deleted physically, a completed deletion leaves what other snapshots have in the store. */
  ghost predicate DeletionSpares(v: State, snap: SnapId) {
    forall deletable: set<Hash>, id :: StoredElsewhere(v, snap, id) ==> id in ApplyAll(v, DeleteSteps(v, snap, deletable)).store
  }

  /**
   * A completed deletion leaves every stored block of the other snapshots stored exactly
   * when none of those blocks has as few references as the deleted manifest has mentions.
   */
  lemma {:induction false} DeletionSparesExactly(v: State, snap: SnapId)
    ensures DeletionSpares(v, snap) <==> forall id :: StoredElsewhere(v, snap, id) ==> !WillBeFreed(v, snap, id)
  {
    hide DeleteSteps, WillBeFreed;
    if forall id :: StoredElsewhere(v, snap, id) ==> !WillBeFreed(v, snap, id) {
      forall deletable: set<Hash>, id | StoredElsewhere(v, snap, id)
        ensures id in ApplyAll(v, DeleteSteps(v, snap, deletable)).store
      {
        BlockSparedExactly(v, snap, deletable, id);
      }
    } else {
      var id :| StoredElsewhere(v, snap, id) && WillBeFreed(v, snap, id);
      BlockSparedExactly(v, snap, {id}, id);
    }
  }

  // ---------------------------------------------------------------- the loss

  /**
   * Two backups of one block, then the first is deleted: the refcount is one, so the
   * block is freed and removed, and the second snapshot, which has its row, cannot be read.
   */
  lemma {:induction false} SharedBlockIsLost(server: Server, job: Job, nonces: Nonces, e: Extent)
    ensures var id := Id(server, e);
            var v := Replay(server, EMPTY, [
              Event(BackupOp(job, nonces, "first", [e]), 5),
              Event(BackupOp(job, nonces, "second", [e]), 3),
              Event(DeleteOp("first", {id}), 5)]);
            && "second" in v.rows && "second" in v.manifests && BlockOf(server, e) in v.manifests["second"]
            && Fetch(server, v.store, id) == Err(BlockMissing)
  {
    hide Encode;
    var id, m := Id(server, e), [BlockOf(server, e)];
    assert ManifestOf(server, [e]) == m by { assert [e][..0] == []; }
    FirstBackup(server, job, nonces, EMPTY, "first", e);
    var a := ApplyAll(EMPTY, BackupSteps(server, job, nonces, EMPTY, "first", [e]));
    RepeatedBackup(server, job, nonces, a, "second", e);
    var b := ApplyAll(a, BackupSteps(server, job, nonces, a, "second", [e]));
    DeleteOnly(b, "first", id, m);
    var steps0 := BackupSteps(server, job, nonces, EMPTY, "first", [e]);
    var steps1 := BackupSteps(server, job, nonces, a, "second", [e]);
    var steps2 := DeleteSteps(b, "first", {id});
    var e0, e1, e2 := Event(BackupOp(job, nonces, "first", [e]), 5), Event(BackupOp(job, nonces, "second", [e]), 3), Event(DeleteOp("first", {id}), 5);
    assert Reached(steps0, 5) == steps0 && Reached(steps1, 3) == steps1 && Reached(steps2, 5) == steps2;
    ReplayThree(server, EMPTY, e0, e1, e2);
  }

  lemma {:induction false} ReplayThree(server: Server, v: State, a: Event, b: Event, c: Event)
    ensures Replay(server, v, [a, b, c]) == Occur(server, Occur(server, Occur(server, v, a), b), c)
  {
    hide Occur;
    assert [a, b, c][1..] == [b, c] && [b, c][1..] == [c] && [c][1..] == [];
    var w := Occur(server, v, a);
    var x := Occur(server, w, b);
    assert Replay(server, w, [b, c]) == Replay(server, x, [c]) == Replay(server, Occur(server, x, c), []);
  }

  lemma {:induction false} FirstBackup(server: Server, job: Job, nonces: Nonces, v: State, snap: SnapId, e: Extent)
    requires Id(server, e) !in v.refs
    ensures var id := Id(server, e);
            var steps := BackupSteps(server, job, nonces, v, snap, [e]);
            var w := ApplyAll(v, steps);
            && |steps| == 5 && w.refs == v.refs[id := 1]
            && w.rows == v.rows + {snap} && w.manifests == v.manifests[snap := ManifestOf(server, [e])]
  {
    hide Encode, Id;
    BackupOutcome(server, job, nonces, v, snap, [e]);
    assert [e][..0] == [];
    var steps := ChunkSteps(server, job, nonces(0), v.refs, e);
    assert RunSteps(server, job, nonces, v, [e]) == [] + steps == steps;
    TwoSteps(u => true, v, steps[0], steps[1]);
  }

  lemma {:induction false} RepeatedBackup(server: Server, job: Job, nonces: Nonces, v: State, snap: SnapId, e: Extent)
    requires Id(server, e) in v.refs
    ensures var steps := BackupSteps(server, job, nonces, v, snap, [e]);
            var w := ApplyAll(v, steps);
            && |steps| == 3 && w.refs == v.refs
            && w.rows == v.rows + {snap} && w.manifests == v.manifests[snap := ManifestOf(server, [e])]
  {
    hide Encode, Id;
    BackupOutcome(server, job, nonces, v, snap, [e]);
    assert [e][..0] == [];
    assert RunSteps(server, job, nonces, v, [e]) == [] + [] == [];
  }

  lemma {:induction false} DeleteOnly(v: State, snap: SnapId, id: Hash, m: Manifest)
    requires snap in v.manifests && v.manifests[snap] == m && |m| == 1 && m[0].id == id
    requires id in v.refs && v.refs[id] == 1
    ensures var steps := DeleteSteps(v, snap, {id});
            var w := ApplyAll(v, steps);
            && |steps| == 5 && id !in w.store
            && w.rows == v.rows - {snap} && w.manifests == v.manifests - {snap}
  {
    var ids := ManifestIds(v, snap);
    assert ids == [id];
    assert ids[1..] == [];
    assert Orphans(v.refs, ids) == [id] + [] == [id];
    assert [id][1..] == [];
    assert Sweep([id], {id}) == [DeleteBlock(id)] + [];
    assert Removals(ids) == [RemoveBlock(id)] + [];
    var a, b, c, d := Apply(v, DeleteRow(snap)), RemoveBlock(id), DropManifest(snap), DropEntry(snap);
    assert DeleteSteps(v, snap, {id}) == [DeleteRow(snap), b] + [c, d, DeleteBlock(id)];
    ApplyConcat(v, [DeleteRow(snap), b], [c, d, DeleteBlock(id)]);
    TwoSteps(u => true, v, DeleteRow(snap), b);
    ThreeSteps(u => true, Apply(a, b), c, d, DeleteBlock(id));
  }

  // ---------------------------------------------------------------- histories that keep count

  ghost predicate CountedOp(server: Server, seen: iset<bytes>, v: State, op: Op) {
    Feasible(server, seen, op)
    && match op
       case BackupOp(_, _, snap, es) => snap !in v.rows && Affordable(server, v, es)
       case DeleteOp(snap, _) => snap in v.rows
       case ReconcileOp(_, _) => true
  }

  /** Every operation of the history, in the state it starts in, is one that keeps count. */
  ghost predicate CountedHistory(server: Server, seen: iset<bytes>, v: State, events: seq<Event>)
    decreases |events|
  {
    events == []
    || (CountedOp(server, seen, v, events[0].op) && CountedHistory(server, seen, Occur(server, v, events[0]), events[1..]))
  }

  ghost function CountedSoundness(server: Server, seen: iset<bytes>): (inv: State -> bool)
    ensures forall v :: inv(v) <==> Sound(server, seen, v) && Counted(v)
  {
    v => Sound(server, seen, v) && Counted(v)
  }

  /** Before its row is inserted a backup only adds references. */
  lemma {:induction false} RunKeepsCounted(server: Server, job: Job, nonces: Nonces, v: State, es: seq<Extent>)
    requires Counted(v)
    ensures Along(CountedOnly(), v, RunSteps(server, job, nonces, v, es))
    decreases |es|
  {
    hide Counted, Encode, Id;
    if es != [] {
      var n := |es| - 1;
      RunKeepsCounted(server, job, nonces, v, es[..n]);
      var before := RunSteps(server, job, nonces, v, es[..n]);
      var w := ApplyAll(v, before);
      AlongEnds(CountedOnly(), v, before);
      var steps := ChunkSteps(server, job, nonces(n), w.refs, es[n]);
      if steps != [] {
        var a, b := Apply(w, steps[0]), Apply(Apply(w, steps[0]), steps[1]);
        CountedGrows(w, a);
        CountedGrows(w, b);
        TwoSteps(CountedOnly(), w, steps[0], steps[1]);
      }
      AlongConcat(CountedOnly(), v, before, steps);
    }
  }

  ghost function CountedOnly(): (inv: State -> bool)
    ensures forall v :: inv(v) <==> Counted(v)
  {
    v => Counted(v)
  }

  lemma CountedGrows(v: State, w: State)
    requires Counted(v) && w.rows == v.rows && forall id :: RefCount(v.refs, id) <= RefCount(w.refs, id)
    requires forall snap, id :: snap in v.rows ==> Uses(v.manifests, snap, id) == Uses(w.manifests, snap, id)
    ensures Counted(w)
  {
    hide RefCount, Uses, Live;
    forall id
      ensures Live(w.rows, w.manifests, id) + multiset{}[id] <= RefCount(w.refs, id)
    {
      LiveFrame(v.rows, v.manifests, w.manifests, id);
      assert Live(v.rows, v.manifests, id) + multiset{}[id] <= RefCount(v.refs, id);
    }
  }

  lemma {:induction false} BackupKeepsCounted(server: Server, job: Job, nonces: Nonces, v: State, snap: SnapId, es: seq<Extent>)
    requires Counted(v) && snap !in v.rows && Affordable(server, v, es)
    ensures Along(CountedOnly(), v, BackupSteps(server, job, nonces, v, snap, es))
  {
    hide Counted, Affordable, RunSteps, ManifestOf;
    var run, m := RunSteps(server, job, nonces, v, es), ManifestOf(server, es);
    RunKeepsCounted(server, job, nonces, v, es);
    AlongEnds(CountedOnly(), v, run);
    RunFrame(server, job, nonces, v, es);
    var w := ApplyAll(v, run);
    var a, b, c := SaveManifest(snap, m), AddEntry(snap), InsertRow(snap);
    CountedGrows(w, Apply(w, a));
    CountedGrows(w, Apply(Apply(w, a), b));
    BackupCountedExactly(server, job, nonces, v, snap, es);
    ApplyConcat(v, run, [a, b, c]);
    ThreeSteps(CountedOnly(), w, a, b, c);
    AlongConcat(CountedOnly(), v, run, [a, b, c]);
  }

  lemma {:induction false} AlongBoth(p: State -> bool, q: State -> bool, both: State -> bool, v: State, steps: seq<Step>)
    requires Along(p, v, steps) && Along(q, v, steps) && forall w :: p(w) && q(w) ==> both(w)
    ensures Along(both, v, steps)
    decreases |steps|
  {
    if steps != [] {
      AlongBoth(p, q, both, Apply(v, steps[0]), steps[1..]);
    }
  }

  lemma {:induction false} OpKeepsCounted(server: Server, seen: iset<bytes>, v: State, op: Op)
    requires Sound(server, seen, v) && Counted(v) && CountedOp(server, seen, v, op)
    ensures Along(CountedSoundness(server, seen), v, StepsOf(server, v, op))
  {
    hide Sound, Counted, Affordable, DeleteSteps, ReconcileSteps, BackupSteps;
    var both := CountedSoundness(server, seen);
    match op
    case BackupOp(job, nonces, snap, es) =>
      BackupKeepsSound(server, seen, job, nonces, v, snap, es);
      BackupKeepsCounted(server, job, nonces, v, snap, es);
      AlongBoth(Soundness(server, seen), CountedOnly(), both, v, StepsOf(server, v, op));
    case DeleteOp(snap, deletable) =>
      DeleteGuarded(server, seen, true, v, snap, deletable);
      AlongImplies(Guard(server, seen, true, v), both, v, StepsOf(server, v, op));
    case ReconcileOp(listing, drops) =>
      KeptInitially(server, seen, v);
      ReconcileGuarded(server, seen, true, v, v, listing, drops);
      AlongImplies(Guard(server, seen, true, v), both, v, StepsOf(server, v, op));
  }

  /** Through any history of such operations, crashed anywhere, every snapshot with a row reads in full. */
  lemma {:induction false} CountedHistoryRestores(server: Server, seen: iset<bytes>, v: State, events: seq<Event>)
    requires Sound(server, seen, v) && Counted(v) && CountedHistory(server, seen, v, events)
    ensures var w := Replay(server, v, events);
            && Sound(server, seen, w) && Counted(w)
            && forall snap :: snap in w.rows ==> StillRestores(server, w, w, snap)
    decreases |events|
  {
    hide Sound, Counted, Occur, StillRestores;
    if events == [] {
      KeptInitially(server, seen, v);
      SoundBacked(server, seen, v);
      forall snap | snap in v.rows
        ensures StillRestores(server, v, v, snap)
      {
        GuardedRestores(server, seen, v, v, snap);
      }
    } else {
      OpKeepsCounted(server, seen, v, events[0].op);
      EventKeeps(CountedSoundness(server, seen), server, v, events[0]);
      CountedHistoryRestores(server, seen, Occur(server, v, events[0]), events[1..]);
    }
  }

  lemma SoundBacked(server: Server, seen: iset<bytes>, v: State)
    requires Sound(server, seen, v)
    ensures v.rows <= v.manifests.Keys
  {
  }
}
