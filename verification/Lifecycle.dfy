/**
 * Snapshot deletion with garbage collection and the startup reconciler
 * (delete_snapshot_with_gc and reconcile_index in core/src/job/mod.rs), as steps on the
 * durable state.
 *
 * The main results: every history of backups, deletions, reconciliations and crashes
 * keeps the state sound; and a deletion, stopped anywhere, never takes a block from a
 * snapshot that still has its row, provided refcounts cover the references.
 */
module Lifecycle {
  import opened Common
  import opened Codec
  import opened Vault
  import opened Backup

  function HashesOf(m: Manifest): (ids: seq<Hash>)
    ensures |ids| == |m| && forall i :: 0 <= i < |m| ==> ids[i] == m[i].id
  {
    if m == [] then [] else [m[0].id] + HashesOf(m[1..])
  }

  function ManifestIds(v: State, snap: SnapId): seq<Hash> {
    if snap in v.manifests then HashesOf(v.manifests[snap]) else []
  }

  // ---------------------------------------------------------------- steps of the two operations

  function Removals(ids: seq<Hash>): seq<Step> {
    if ids == [] then [] else [RemoveBlock(ids[0])] + Removals(ids[1..])
  }

  function AfterRemovals(refs: map<Hash, nat>, ids: seq<Hash>): map<Hash, nat> {
    if ids == [] then refs else AfterRemovals(Removed(refs, ids[0]), ids[1..])
  }

  /** The ids whose removal reported the block freed. */
  function Orphans(refs: map<Hash, nat>, ids: seq<Hash>): seq<Hash>
    decreases |ids|
  {
    if ids == [] then []
    else (if Frees(refs, ids[0]) then [ids[0]] else []) + Orphans(Removed(refs, ids[0]), ids[1..])
  }

  /** Best-effort deletion: only some of the blocks can be deleted, the rest is warned about. */
  function Sweep(orphans: seq<Hash>, deletable: set<Hash>): seq<Step> {
    if orphans == [] then []
    else (if orphans[0] in deletable then [DeleteBlock(orphans[0])] else []) + Sweep(orphans[1..], deletable)
  }

  /** The database row goes first, the physical blocks last. */
  function DeleteSteps(v: State, snap: SnapId, deletable: set<Hash>): seq<Step> {
    var ids := ManifestIds(v, snap);
    [DeleteRow(snap)] + (Removals(ids) + ([DropManifest(snap), DropEntry(snap)] + Sweep(Orphans(v.refs, ids), deletable)))
  }

  /** How many of the two deletes of an index entry, manifest and then entry, happen before one fails. */
  type Drops = SnapId -> nat

  function DropSteps(snap: SnapId, drops: Drops): seq<Step> {
    if drops(snap) == 0 then [] else if drops(snap) == 1 then [DropManifest(snap)] else [DropManifest(snap), DropEntry(snap)]
  }

  /** Index entries, in the order listed, that have no row; a failed deletion is passed over. */
  function ReconcileSteps(rows: set<SnapId>, listing: seq<SnapId>, drops: Drops): seq<Step> {
    if listing == [] then []
    else (if listing[0] in rows then [] else DropSteps(listing[0], drops)) + ReconcileSteps(rows, listing[1..], drops)
  }

  // ---------------------------------------------------------------- references

  function Uses(ms: map<SnapId, Manifest>, snap: SnapId, id: Hash): nat {
    if snap in ms then multiset(HashesOf(ms[snap]))[id] else 0
  }

  /** How often manifests of snapshots with a row mention the block. */
  ghost function Live(rows: set<SnapId>, ms: map<SnapId, Manifest>, id: Hash): nat {
    if rows == {} then 0
    else
      var snap :| snap in rows;
      Uses(ms, snap, id) + Live(rows - {snap}, ms, id)
  }

  lemma {:induction false} LiveWithout(rows: set<SnapId>, ms: map<SnapId, Manifest>, snap: SnapId, id: Hash)
    requires snap in rows
    ensures Live(rows, ms, id) == Uses(ms, snap, id) + Live(rows - {snap}, ms, id)
    decreases rows
  {
    var pick :| pick in rows && Live(rows, ms, id) == Uses(ms, pick, id) + Live(rows - {pick}, ms, id);
    if pick != snap {
      LiveWithout(rows - {pick}, ms, snap, id);
      LiveWithout(rows - {snap}, ms, pick, id);
      assert rows - {pick} - {snap} == rows - {snap} - {pick};
    }
  }

  lemma {:induction false} LiveFrame(rows: set<SnapId>, ms: map<SnapId, Manifest>, ms': map<SnapId, Manifest>, id: Hash)
    requires forall snap :: snap in rows ==> Uses(ms, snap, id) == Uses(ms', snap, id)
    ensures Live(rows, ms, id) == Live(rows, ms', id)
    decreases rows
  {
    if rows != {} {
      var snap :| snap in rows;
      LiveFrame(rows - {snap}, ms, ms', id);
      LiveWithout(rows, ms, snap, id);
      LiveWithout(rows, ms', snap, id);
    }
  }

  /** Refcounts cover the live references, with some more to spare. */
  ghost predicate Covered(v: State, spare: multiset<Hash>) {
    forall id :: Live(v.rows, v.manifests, id) + spare[id] <= RefCount(v.refs, id)
  }

  ghost predicate Counted(v: State) {
    Covered(v, multiset{})
  }

  /** Nothing a row needs has changed since v0: its manifest, and the stored blocks the index lists. */
  ghost predicate Kept(v0: State, v: State) {
    && v.rows <= v0.rows
    && (forall snap :: snap in v.rows && snap in v0.manifests ==> snap in v.manifests && v.manifests[snap] == v0.manifests[snap])
    && (forall id :: id in v.refs ==> id in v0.refs && id in v0.store && id in v.store && v.store[id] == v0.store[id])
  }

  ghost predicate Guarded(server: Server, seen: iset<bytes>, counted: bool, v0: State, v: State) {
    Sound(server, seen, v) && Kept(v0, v) && (counted ==> Counted(v))
  }

  ghost function Guard(server: Server, seen: iset<bytes>, counted: bool, v0: State): (inv: State -> bool)
    ensures forall v :: inv(v) <==> Guarded(server, seen, counted, v0, v)
  {
    v => Guarded(server, seen, counted, v0, v)
  }

  // ---------------------------------------------------------------- deletion

  lemma RemoveStep(server: Server, seen: iset<bytes>, counted: bool, v0: State, v: State, id: Hash, spare: multiset<Hash>)
    requires Guarded(server, seen, counted, v0, v) && (counted ==> Covered(v, multiset{id} + spare))
    ensures var w := Apply(v, RemoveBlock(id));
            Guarded(server, seen, counted, v0, w) && (counted ==> Covered(w, spare))
  {
    hide Holds, Live;
    var w := Apply(v, RemoveBlock(id));
    assert Sound(server, seen, w);
    if counted {
      forall h
        ensures Live(w.rows, w.manifests, h) + spare[h] <= RefCount(w.refs, h)
      {
        assert Live(v.rows, v.manifests, h) + (multiset{id} + spare)[h] <= RefCount(v.refs, h);
      }
    }
  }

  lemma {:induction false} RemovalsGuarded(server: Server, seen: iset<bytes>, counted: bool, v0: State, v: State, ids: seq<Hash>)
    requires Guarded(server, seen, counted, v0, v) && (counted ==> Covered(v, multiset(ids)))
    ensures Along(Guard(server, seen, counted, v0), v, Removals(ids))
    ensures ApplyAll(v, Removals(ids)) == v.(refs := AfterRemovals(v.refs, ids))
    decreases |ids|
  {
    hide Guarded, Covered;
    if ids != [] {
      assert ids == [ids[0]] + ids[1..];
      assert multiset(ids) == multiset{ids[0]} + multiset(ids[1..]);
      RemoveStep(server, seen, counted, v0, v, ids[0], multiset(ids[1..]));
      RemovalsGuarded(server, seen, counted, v0, Apply(v, RemoveBlock(ids[0])), ids[1..]);
      assert Removals(ids)[1..] == Removals(ids[1..]);
    }
  }

  /** A freed block does not come back. */
  lemma {:induction false} OrphansAreGone(refs: map<Hash, nat>, ids: seq<Hash>)
    ensures forall id :: id in AfterRemovals(refs, ids) ==> id in refs
    ensures forall id :: id in Orphans(refs, ids) ==> id !in AfterRemovals(refs, ids)
    decreases |ids|
  {
    if ids != [] {
      OrphansAreGone(Removed(refs, ids[0]), ids[1..]);
    }
  }

  lemma {:induction false} SweepGuarded(server: Server, seen: iset<bytes>, counted: bool, v0: State, v: State,
                                        orphans: seq<Hash>, deletable: set<Hash>)
    requires Guarded(server, seen, counted, v0, v) && forall id :: id in orphans ==> id !in v.refs
    ensures Along(Guard(server, seen, counted, v0), v, Sweep(orphans, deletable))
    decreases |orphans|
  {
    hide Holds, Covered;
    if orphans != [] {
      var id := orphans[0];
      if id in deletable {
        var w := Apply(v, DeleteBlock(id));
        assert Counted(v) ==> Counted(w) by { CountedFrame(v, w); }
        assert Guarded(server, seen, counted, v0, w);
        SweepGuarded(server, seen, counted, v0, w, orphans[1..], deletable);
        assert Sweep(orphans, deletable) == [DeleteBlock(id)] + Sweep(orphans[1..], deletable);
        assert Sweep(orphans, deletable)[1..] == Sweep(orphans[1..], deletable);
      } else {
        SweepGuarded(server, seen, counted, v0, v, orphans[1..], deletable);
        assert Sweep(orphans, deletable) == Sweep(orphans[1..], deletable);
      }
    }
  }

  lemma CountedFrame(v: State, w: State)
    requires w.rows == v.rows && w.refs == v.refs && forall snap :: snap in v.rows ==> (snap in v.manifests <==> snap in w.manifests)
    requires forall snap :: snap in v.rows && snap in v.manifests ==> v.manifests[snap] == w.manifests[snap]
    ensures Counted(v) <==> Counted(w)
  {
    forall id
      ensures Live(v.rows, v.manifests, id) == Live(w.rows, w.manifests, id)
    {
      LiveFrame(v.rows, v.manifests, w.manifests, id);
    }
  }

  /** Dropping the index entries of a snapshot without a row. */
  lemma {:induction false} DropGuarded(server: Server, seen: iset<bytes>, counted: bool, v0: State, v: State, snap: SnapId)
    requires Guarded(server, seen, counted, v0, v) && snap !in v.rows
    ensures var steps := [DropManifest(snap), DropEntry(snap)];
            && Along(Guard(server, seen, counted, v0), v, steps)
            && ApplyAll(v, steps) == v.(manifests := v.manifests - {snap}, entries := v.entries - {snap})
            && Guarded(server, seen, counted, v0, ApplyAll(v, steps))
  {
    hide Counted, Sound;
    var w := Apply(v, DropManifest(snap));
    var x := Apply(w, DropEntry(snap));
    SoundFrame(server, seen, v, w);
    SoundFrame(server, seen, v, x);
    CountedFrame(v, w);
    CountedFrame(v, x);
    TwoSteps(Guard(server, seen, counted, v0), v, DropManifest(snap), DropEntry(snap));
  }

  /** What the snapshot referred to is to spare once its row is gone. */
  lemma RowWasCounted(v: State, snap: SnapId)
    requires Counted(v) && snap in v.rows
    ensures Covered(Apply(v, DeleteRow(snap)), multiset(ManifestIds(v, snap)))
  {
    hide Live;
    var w := Apply(v, DeleteRow(snap));
    forall id
      ensures Live(w.rows, w.manifests, id) + multiset(ManifestIds(v, snap))[id] <= RefCount(w.refs, id)
    {
      LiveWithout(v.rows, v.manifests, snap, id);
      assert Live(v.rows, v.manifests, id) + multiset{}[id] <= RefCount(v.refs, id);
    }
  }

  lemma CoveredIsCounted(v: State, spare: multiset<Hash>)
    requires Covered(v, spare)
    ensures Counted(v)
  {
    hide Live, RefCount;
    forall id
      ensures Live(v.rows, v.manifests, id) + multiset{}[id] <= RefCount(v.refs, id)
    {
      assert Live(v.rows, v.manifests, id) + spare[id] <= RefCount(v.refs, id);
    }
  }

  lemma DeleteRowGuarded(server: Server, seen: iset<bytes>, counted: bool, v: State, snap: SnapId)
    requires Sound(server, seen, v) && (counted ==> Counted(v) && snap in v.rows)
    ensures Guarded(server, seen, counted, v, v)
    ensures var w := Apply(v, DeleteRow(snap));
            Guarded(server, seen, counted, v, w) && (counted ==> Covered(w, multiset(ManifestIds(v, snap))))
  {
    hide Holds, Covered, Counted, ManifestIds;
    if counted {
      RowWasCounted(v, snap);
      CoveredIsCounted(Apply(v, DeleteRow(snap)), multiset(ManifestIds(v, snap)));
    }
  }

  /**
   * A deletion, at every step: the state stays sound and what other rows need stays as
   * it was. If the snapshot had a row and refcounts covered the references, they still do.
   */
  lemma {:induction false} DeleteGuarded(server: Server, seen: iset<bytes>, counted: bool, v: State, snap: SnapId, deletable: set<Hash>)
    requires Sound(server, seen, v) && (counted ==> Counted(v) && snap in v.rows)
    ensures Along(Guard(server, seen, counted, v), v, DeleteSteps(v, snap, deletable))
  {
    hide Guarded, Covered, Counted, Removals, Orphans, Sweep;
    var inv, ids := Guard(server, seen, counted, v), ManifestIds(v, snap);
    DeleteRowGuarded(server, seen, counted, v, snap);
    var w := Apply(v, DeleteRow(snap));
    RemovalsGuarded(server, seen, counted, v, w, ids);
    var x := ApplyAll(w, Removals(ids));
    AlongEnds(inv, w, Removals(ids));
    DropGuarded(server, seen, counted, v, x, snap);
    var drop := [DropManifest(snap), DropEntry(snap)];
    OrphansAreGone(v.refs, ids);
    var sweep := Sweep(Orphans(v.refs, ids), deletable);
    SweepGuarded(server, seen, counted, v, ApplyAll(x, drop), Orphans(v.refs, ids), deletable);
    AlongConcat(inv, x, drop, sweep);
    AlongConcat(inv, w, Removals(ids), drop + sweep);
    assert DeleteSteps(v, snap, deletable)[1..] == Removals(ids) + (drop + sweep);
  }

  // ---------------------------------------------------------------- reconciliation

  /** Listed index entries without a row of which at least so many deletes happen. */
  function Unbacked(rows: set<SnapId>, listing: seq<SnapId>, drops: Drops, least: nat): (gone: set<SnapId>)
    ensures forall snap :: snap in gone <==> snap in listing && snap !in rows && drops(snap) >= least
  {
    set snap | snap in listing && snap !in rows && drops(snap) >= least
  }

  function WithoutSnaps(v: State, manifests: set<SnapId>, entries: set<SnapId>): State {
    v.(manifests := v.manifests - manifests, entries := v.entries - entries)
  }

  /** What a reconciliation leaves. */
  function Reconciled(v: State, listing: seq<SnapId>, drops: Drops): State {
    WithoutSnaps(v, Unbacked(v.rows, listing, drops, 1), Unbacked(v.rows, listing, drops, 2))
  }

  lemma {:induction false} DropsGuarded(server: Server, seen: iset<bytes>, counted: bool, v0: State, v: State, snap: SnapId, drops: Drops)
    requires Guarded(server, seen, counted, v0, v) && snap !in v.rows
    ensures var steps := DropSteps(snap, drops);
            && Along(Guard(server, seen, counted, v0), v, steps)
            && ApplyAll(v, steps) == Reconciled(v, [snap], drops)
            && Guarded(server, seen, counted, v0, ApplyAll(v, steps))
  {
    hide Guarded;
    var inv := Guard(server, seen, counted, v0);
    DropGuarded(server, seen, counted, v0, v, snap);
    TwoSteps(inv, v, DropManifest(snap), DropEntry(snap));
    if drops(snap) == 1 {
      assert [DropManifest(snap)][1..] == [];
      assert Along(inv, v, [DropManifest(snap)]) <==> inv(v) && Along(inv, Apply(v, DropManifest(snap)), []);
    }
    AlongEnds(inv, v, DropSteps(snap, drops));
    var manifests, entries := Unbacked(v.rows, [snap], drops, 1), Unbacked(v.rows, [snap], drops, 2);
    assert manifests == if drops(snap) >= 1 then {snap} else {};
    assert entries == if drops(snap) >= 2 then {snap} else {};
    assert v.manifests - {} == v.manifests && v.entries - {} == v.entries;
  }

  lemma ReconciledCons(v: State, snap: SnapId, rest: seq<SnapId>, drops: Drops)
    ensures Reconciled(v, [snap] + rest, drops) ==
            if snap in v.rows then Reconciled(v, rest, drops) else Reconciled(Reconciled(v, [snap], drops), rest, drops)
  {
    forall least: nat
      ensures Unbacked(v.rows, [snap] + rest, drops, least) == Unbacked(v.rows, [snap], drops, least) + Unbacked(v.rows, rest, drops, least)
      ensures snap in v.rows ==> Unbacked(v.rows, [snap], drops, least) == {}
    {
    }
    var m, n := Unbacked(v.rows, [snap], drops, 1), Unbacked(v.rows, rest, drops, 1);
    assert v.manifests - m - n == v.manifests - (m + n);
    var e, f := Unbacked(v.rows, [snap], drops, 2), Unbacked(v.rows, rest, drops, 2);
    assert v.entries - e - f == v.entries - (e + f);
  }

  /** Reconciliation removes exactly the listed entries without a row, as far as their deletes happen, guarded at every step. */
  lemma {:induction false} ReconcileGuarded(server: Server, seen: iset<bytes>, counted: bool, v0: State, v: State,
                                            listing: seq<SnapId>, drops: Drops)
    requires Guarded(server, seen, counted, v0, v)
    ensures Along(Guard(server, seen, counted, v0), v, ReconcileSteps(v.rows, listing, drops))
    ensures ApplyAll(v, ReconcileSteps(v.rows, listing, drops)) == Reconciled(v, listing, drops)
    decreases |listing|
  {
    hide Guarded, Unbacked, DropSteps;
    if listing == [] {
      assert Unbacked(v.rows, listing, drops, 1) == {} && Unbacked(v.rows, listing, drops, 2) == {};
    } else {
      var snap, rest := listing[0], listing[1..];
      assert listing == [snap] + rest;
      ReconciledCons(v, snap, rest, drops);
      if snap in v.rows {
        ReconcileGuarded(server, seen, counted, v0, v, rest, drops);
        assert ReconcileSteps(v.rows, listing, drops) == ReconcileSteps(v.rows, rest, drops);
      } else {
        DropsGuarded(server, seen, counted, v0, v, snap, drops);
        ReconcileGuarded(server, seen, counted, v0, Reconciled(v, [snap], drops), rest, drops);
        AlongConcat(Guard(server, seen, counted, v0), v, DropSteps(snap, drops), ReconcileSteps(v.rows, rest, drops));
        ApplyConcat(v, DropSteps(snap, drops), ReconcileSteps(v.rows, rest, drops));
      }
    }
  }
}
