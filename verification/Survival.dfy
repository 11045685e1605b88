/**
 * What becomes of one backup while the server goes on working (core/src/pipeline/mod.rs,
 * core/src/job/mod.rs, core/src/restore/mod.rs together).
 *
 * The main result follows the bytes of the sources from their backup through every
 * history of other operations, crashed anywhere, to the files a restore writes.
 */
module Survival {
  import opened Common
  import opened Codec
  import opened Vault
  import opened Backup
  import opened Lifecycle
  import opened Restore
  import opened History
  import opened Accounting
  import opened DataPlane

  // ---------------------------------------------------------------- steps that spare a snapshot

  /** The snapshot has its row and this manifest. */
  predicate Recorded(v: State, snap: SnapId, m: Manifest) {
    snap in v.rows && snap in v.manifests && v.manifests[snap] == m
  }

  predicate Spares(step: Step, snap: SnapId) {
    match step
    case SaveManifest(s, _) => s != snap
    case DropManifest(s) => s != snap
    case DeleteRow(s) => s != snap
    case _ => true
  }

  predicate AllSpare(steps: seq<Step>, snap: SnapId) {
    forall step :: step in steps ==> Spares(step, snap)
  }

  lemma {:induction false} SparedStaysRecorded(v: State, steps: seq<Step>, snap: SnapId, m: Manifest)
    requires Recorded(v, snap, m) && AllSpare(steps, snap)
    ensures Recorded(ApplyAll(v, steps), snap, m)
    decreases |steps|
  {
    if steps != [] {
      assert Spares(steps[0], snap);
      SparedStaysRecorded(Apply(v, steps[0]), steps[1..], snap, m);
    }
  }

  lemma {:induction false} RunSpares(server: Server, job: Job, nonces: Nonces, v: State, es: seq<Extent>, snap: SnapId)
    ensures AllSpare(RunSteps(server, job, nonces, v, es), snap)
    decreases |es|
  {
    hide Encode, Id;
    if es != [] {
      RunSpares(server, job, nonces, v, es[..|es| - 1], snap);
    }
  }

  lemma {:induction false} ReconcileSpares(rows: set<SnapId>, listing: seq<SnapId>, drops: Drops, snap: SnapId)
    requires snap in rows
    ensures AllSpare(ReconcileSteps(rows, listing, drops), snap)
    decreases |listing|
  {
    if listing != [] {
      ReconcileSpares(rows, listing[1..], drops, snap);
    }
  }

  lemma DeleteSpares(v: State, other: SnapId, deletable: set<Hash>, snap: SnapId)
    requires other != snap
    ensures AllSpare(DeleteSteps(v, other, deletable), snap)
  {
    RemovalsOnly(ManifestIds(v, other));
    SweepOnly(Orphans(v.refs, ManifestIds(v, other)), deletable);
  }

  /** The operation backs up or deletes this snapshot. */
  predicate Concerns(op: Op, snap: SnapId) {
    match op
    case BackupOp(_, _, s, _) => s == snap
    case DeleteOp(s, _) => s == snap
    case ReconcileOp(_, _) => false
  }

  lemma {:induction false} OpSpares(server: Server, v: State, op: Op, snap: SnapId)
    requires snap in v.rows && !Concerns(op, snap)
    ensures AllSpare(StepsOf(server, v, op), snap)
  {
    hide RunSteps, DeleteSteps, ReconcileSteps;
    match op
    case BackupOp(job, nonces, s, es) =>
      RunSpares(server, job, nonces, v, es, snap);
    case DeleteOp(s, deletable) =>
      DeleteSpares(v, s, deletable, snap);
    case ReconcileOp(listing, drops) =>
      ReconcileSpares(v.rows, listing, drops, snap);
  }

  /** Whatever happens to other snapshots, stopped anywhere, a snapshot keeps its row and its manifest. */
  lemma {:induction false} OthersLeaveRecord(server: Server, v: State, events: seq<Event>, snap: SnapId, m: Manifest)
    requires Recorded(v, snap, m) && forall e :: e in events ==> !Concerns(e.op, snap)
    ensures Recorded(Replay(server, v, events), snap, m)
    decreases |events|
  {
    hide StepsOf, Concerns, ApplyAll, Recorded;
    if events != [] {
      var e := events[0];
      assert snap in v.rows by { assert Recorded(v, snap, m); RecordedRow(v, snap, m); }
      OpSpares(server, v, e.op, snap);
      SparedStaysRecorded(v, Reached(StepsOf(server, v, e.op), e.reached), snap, m);
      OthersLeaveRecord(server, Occur(server, v, e), events[1..], snap, m);
    }
  }

  lemma RecordedRow(v: State, snap: SnapId, m: Manifest)
    requires Recorded(v, snap, m)
    ensures snap in v.rows && snap in v.manifests && v.manifests[snap] == m
  {
  }

  // ---------------------------------------------------------------- the bytes survive

  lemma {:induction false} RecordedIsReadable(server: Server, seen: iset<bytes>, v: State, snap: SnapId, es: seq<Extent>)
    requires Sound(server, seen, v) && Counted(v) && InjectiveOn(server.alg, seen)
    requires Recorded(v, snap, ManifestOf(server, es)) && forall e :: e in es ==> e.data in seen
    ensures Readable(server, v.store, es)
  {
    hide Sound, Counted, Readable;
    forall e | e in es
      ensures Id(server, e) in v.refs
    {
      var i :| 0 <= i < |es| && es[i] == e;
      assert ManifestOf(server, es)[i] == BlockOf(server, e);
      CountedIsIndexed(v, snap, BlockOf(server, e));
    }
    IndexedIsReadable(server, seen, v, es);
  }

  /**
   * A backup that keeps count, then any history of operations that keep count and do not
   * concern its snapshot, each stopped anywhere: the snapshot has its row and manifest, and
   * a restore gives every selected non-empty source back byte for byte and no other file.
   */
  lemma {:induction false} BackupSurvives(server: Server, seen: iset<bytes>, v: State, job: Job, nonces: Nonces, snap: SnapId,
                                          cut: Cutter, sources: seq<Source>, events: seq<Event>,
                                          files: Files, wanted: string -> bool, order: seq<string>, overwrite: bool)
    requires Sound(server, seen, v) && Counted(v) && InjectiveOn(server.alg, seen)
    requires Faithful(cut) && DistinctPaths(sources) && Orders(server, cut, sources, wanted, order)
    requires CountedOp(server, seen, v, BackupOp(job, nonces, snap, SourceExtents(cut, sources)))
    requires CountedHistory(server, seen, ApplyAll(v, BackupSteps(server, job, nonces, v, snap, SourceExtents(cut, sources))), events)
    requires forall e :: e in events ==> !Concerns(e.op, snap)
    ensures var w := ApplyAll(v, BackupSteps(server, job, nonces, v, snap, SourceExtents(cut, sources)));
            var x := Replay(server, w, events);
            && Recorded(x, snap, ManifestOf(server, SourceExtents(cut, sources)))
            && (forall p :: p in order ==> p in Groups(x.manifests[snap], wanted))
            && var (files', r) := RestoreAll(server, x.store, files, Groups(x.manifests[snap], wanted), order, overwrite);
               r.Ok? && Restored(sources, wanted, files, files', overwrite)
  {
    hide Sound, Counted, Affordable, Encodable, Faithful, Replay, BackupSteps, Groups, SourceExtents, RestoreAll, Orders,
      Restored, Readable, CountedHistory, Concerns, Along, ApplyAll;
    var es := SourceExtents(cut, sources);
    BackupKeepsSound(server, seen, job, nonces, v, snap, es);
    var steps := BackupSteps(server, job, nonces, v, snap, es);
    var w := ApplyAll(v, steps);
    AlongEnds(Soundness(server, seen), v, steps);
    BackupCountedExactly(server, job, nonces, v, snap, es);
    CountedHistoryRestores(server, seen, w, events);
    OthersLeaveRecord(server, w, events, snap, ManifestOf(server, es));
    EncodableSeen(server, seen, job, nonces, es);
    RecordedIsReadable(server, seen, Replay(server, w, events), snap, es);
    ReadableRestores(server, Replay(server, w, events).store, cut, sources, files, wanted, order, overwrite);
  }
}
