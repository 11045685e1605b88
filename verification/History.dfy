/**
 * Whole histories of backups, deletions, reconciliations and crashes over the durable
 * state, and what a completed backup restores (core/src/pipeline/mod.rs,
 * core/src/job/mod.rs, core/src/restore/mod.rs together).
 */
module History {
  import opened Common
  import opened Codec
  import opened Vault
  import opened Backup
  import opened Lifecycle
  import opened Restore

  // ---------------------------------------------------------------- histories

  datatype Op =
    | BackupOp(job: Job, nonces: Nonces, snap: SnapId, es: seq<Extent>)
    | DeleteOp(snap: SnapId, deletable: set<Hash>)
    | ReconcileOp(listing: seq<SnapId>, drops: Drops)

  /** An operation of which the first `reached` steps happened before it ended or the server crashed. */
  datatype Event = Event(op: Op, reached: nat)

  function StepsOf(server: Server, v: State, op: Op): seq<Step> {
    match op
    case BackupOp(job, nonces, snap, es) => BackupSteps(server, job, nonces, v, snap, es)
    case DeleteOp(snap, deletable) => DeleteSteps(v, snap, deletable)
    case ReconcileOp(listing, drops) => ReconcileSteps(v.rows, listing, drops)
  }

  function Reached(steps: seq<Step>, k: nat): seq<Step> {
    if k <= |steps| then steps[..k] else steps
  }

  function Occur(server: Server, v: State, e: Event): State {
    ApplyAll(v, Reached(StepsOf(server, v, e.op), e.reached))
  }

  function Replay(server: Server, v: State, events: seq<Event>): State
    decreases |events|
  {
    if events == [] then v else Replay(server, Occur(server, v, events[0]), events[1..])
  }

  ghost predicate Feasible(server: Server, seen: iset<bytes>, op: Op) {
    op.BackupOp? ==> Encodable(server, seen, op.job, op.nonces, op.es)
  }

  ghost predicate FeasibleHistory(server: Server, seen: iset<bytes>, events: seq<Event>) {
    forall e :: e in events ==> Feasible(server, seen, e.op)
  }

  lemma {:induction false} OpKeepsSound(server: Server, seen: iset<bytes>, v: State, op: Op)
    requires Sound(server, seen, v) && Feasible(server, seen, op)
    ensures Along(Soundness(server, seen), v, StepsOf(server, v, op))
  {
    hide Sound;
    match op
    case BackupOp(job, nonces, snap, es) =>
      BackupKeepsSound(server, seen, job, nonces, v, snap, es);
    case DeleteOp(snap, deletable) =>
      DeleteGuarded(server, seen, false, v, snap, deletable);
      AlongImplies(Guard(server, seen, false, v), Soundness(server, seen), v, StepsOf(server, v, op));
    case ReconcileOp(listing, drops) =>
      KeptInitially(server, seen, v);
      ReconcileGuarded(server, seen, false, v, v, listing, drops);
      AlongImplies(Guard(server, seen, false, v), Soundness(server, seen), v, StepsOf(server, v, op));
  }

  lemma KeptInitially(server: Server, seen: iset<bytes>, v: State)
    requires Sound(server, seen, v)
    ensures Kept(v, v)
  {
  }

  lemma {:induction false} EventKeeps(inv: State -> bool, server: Server, v: State, e: Event)
    requires Along(inv, v, StepsOf(server, v, e.op))
    ensures inv(Occur(server, v, e))
  {
    var steps := StepsOf(server, v, e.op);
    assert steps[..|steps|] == steps;
    AlongPrefix(inv, v, steps, Min(e.reached, |steps|));
  }

  /** Every history of backups, deletions, reconciliations and crashes anywhere in them keeps the state sound. */
  lemma {:induction false} HistoryKeepsSound(server: Server, seen: iset<bytes>, v: State, events: seq<Event>)
    requires Sound(server, seen, v) && FeasibleHistory(server, seen, events)
    ensures Sound(server, seen, Replay(server, v, events))
    decreases |events|
  {
    hide Sound, Occur;
    if events != [] {
      OpKeepsSound(server, seen, v, events[0].op);
      EventKeeps(Soundness(server, seen), server, v, events[0]);
      HistoryKeepsSound(server, seen, Occur(server, v, events[0]), events[1..]);
    }
  }

  // ---------------------------------------------------------------- reconciliation finds nothing missing

  /** Rows whose manifest the index does not have: what reconcile_index reports. */
  function MissingManifests(v: State): set<SnapId> {
    set snap | snap in v.rows && snap !in v.manifests
  }

  /**
   * After any history, a full reconciliation reports no row without its manifest and
   * removes only index entries that have no row.
   */
  lemma {:induction false} ReconcileAfterHistory(server: Server, seen: iset<bytes>, events: seq<Event>, listing: seq<SnapId>, drops: Drops)
    requires FeasibleHistory(server, seen, events)
    ensures var v := Replay(server, EMPTY, events);
            var w := ApplyAll(v, ReconcileSteps(v.rows, listing, drops));
            && MissingManifests(v) == MissingManifests(w) == {}
            && w == Reconciled(v, listing, drops)
            && forall snap :: snap in v.rows ==> snap in w.manifests && w.manifests[snap] == v.manifests[snap]
  {
    assert Sound(server, seen, EMPTY);
    HistoryKeepsSound(server, seen, EMPTY, events);
    var v := Replay(server, EMPTY, events);
    KeptInitially(server, seen, v);
    ReconcileGuarded(server, seen, false, v, v, listing, drops);
  }

  // ---------------------------------------------------------------- deletion takes nothing a row needs

  /** Every block of the snapshot reads, and as it did before. */
  ghost predicate StillRestores(server: Server, before: State, after: State, snap: SnapId) {
    && snap in before.manifests && snap in after.manifests && after.manifests[snap] == before.manifests[snap]
    && forall b :: b in after.manifests[snap] ==>
         Fetch(server, after.store, b.id).Ok? && Fetch(server, after.store, b.id) == Fetch(server, before.store, b.id)
  }

  lemma CountedIsIndexed(v: State, snap: SnapId, b: FileBlock)
    requires Counted(v) && snap in v.rows && snap in v.manifests && b in v.manifests[snap]
    ensures b.id in v.refs
  {
    hide Live, Uses;
    var ids := HashesOf(v.manifests[snap]);
    var i :| 0 <= i < |v.manifests[snap]| && v.manifests[snap][i] == b;
    assert ids[i] == b.id;
    LiveWithout(v.rows, v.manifests, snap, b.id);
    UsesListed(v.manifests, snap, b.id);
    assert Live(v.rows, v.manifests, b.id) + multiset{}[b.id] <= RefCount(v.refs, b.id);
  }

  lemma UsesListed(ms: map<SnapId, Manifest>, snap: SnapId, id: Hash)
    requires snap in ms && id in HashesOf(ms[snap])
    ensures Uses(ms, snap, id) > 0
  {
  }

  lemma GuardedRestores(server: Server, seen: iset<bytes>, v0: State, v: State, snap: SnapId)
    requires Guarded(server, seen, true, v0, v) && v0.rows <= v0.manifests.Keys && snap in v.rows
    ensures StillRestores(server, v0, v, snap)
  {
    hide Counted, Decode;
    forall b | b in v.manifests[snap]
      ensures Fetch(server, v.store, b.id).Ok? && Fetch(server, v.store, b.id) == Fetch(server, v0.store, b.id)
    {
      CountedIsIndexed(v, snap, b);
      assert Holds(server, seen, b.id, v.store[b.id]);
    }
  }

  /**
   * A deletion stopped after any step, then a reconciliation stopped after any step:
   * refcounts still cover the references, and every snapshot that has a row (all but the
   * deleted one) restores exactly as before. A crash can leak blocks but not lose them.
   */
  lemma DeletionIsSafe(server: Server, seen: iset<bytes>, v: State, snap: SnapId, deletable: set<Hash>,
                       k: nat, listing: seq<SnapId>, drops: Drops, m: nat)
    requires Sound(server, seen, v) && Counted(v) && snap in v.rows
    ensures var w := Occur(server, v, Event(DeleteOp(snap, deletable), k));
            var x := Occur(server, w, Event(ReconcileOp(listing, drops), m));
            && Sound(server, seen, x) && Counted(x) && v.rows - {snap} <= x.rows <= v.rows
            && forall s :: s in x.rows ==> StillRestores(server, v, x, s)
  {
    hide Counted, Along, DeleteSteps, ReconcileSteps, StillRestores;
    var inv := Guard(server, seen, true, v);
    DeleteGuarded(server, seen, true, v, snap, deletable);
    EventKeeps(inv, server, v, Event(DeleteOp(snap, deletable), k));
    var w := Occur(server, v, Event(DeleteOp(snap, deletable), k));
    ReconcileGuarded(server, seen, true, v, w, listing, drops);
    EventKeeps(inv, server, w, Event(ReconcileOp(listing, drops), m));
    var x := Occur(server, w, Event(ReconcileOp(listing, drops), m));
    forall s | s in x.rows
      ensures StillRestores(server, v, x, s)
    {
      GuardedRestores(server, seen, v, x, s);
    }
    DeleteRowsOnly(v, snap, deletable);
    ReconcileRowsOnly(w.rows, listing, drops);
    RowsOnly(v, Reached(DeleteSteps(v, snap, deletable), k), {snap});
    RowsOnly(w, Reached(ReconcileSteps(w.rows, listing, drops), m), {});
  }

  ghost predicate DeletesRowsIn(steps: seq<Step>, snaps: set<SnapId>) {
    forall s :: s in steps ==> (s.InsertRow? ==> false) && (s.DeleteRow? ==> s.snap in snaps)
  }

  lemma {:induction false} RowsOnly(v: State, steps: seq<Step>, snaps: set<SnapId>)
    requires DeletesRowsIn(steps, snaps)
    ensures v.rows - snaps <= ApplyAll(v, steps).rows <= v.rows
    decreases |steps|
  {
    if steps != [] {
      RowsOnly(Apply(v, steps[0]), steps[1..], snaps);
    }
  }

  lemma DeleteRowsOnly(v: State, snap: SnapId, deletable: set<Hash>)
    ensures DeletesRowsIn(DeleteSteps(v, snap, deletable), {snap})
    ensures forall k :: DeletesRowsIn(Reached(DeleteSteps(v, snap, deletable), k), {snap})
  {
    RemovalsOnly(ManifestIds(v, snap));
    SweepOnly(Orphans(v.refs, ManifestIds(v, snap)), deletable);
  }

  lemma {:induction false} RemovalsOnly(ids: seq<Hash>)
    ensures forall s :: s in Removals(ids) ==> s.RemoveBlock?
  {
    if ids != [] {
      RemovalsOnly(ids[1..]);
    }
  }

  lemma {:induction false} SweepOnly(ids: seq<Hash>, deletable: set<Hash>)
    ensures forall s :: s in Sweep(ids, deletable) ==> s.DeleteBlock?
  {
    if ids != [] {
      SweepOnly(ids[1..], deletable);
    }
  }

  lemma {:induction false} ReconcileRowsOnly(rows: set<SnapId>, listing: seq<SnapId>, drops: Drops)
    ensures DeletesRowsIn(ReconcileSteps(rows, listing, drops), {})
    ensures forall k :: DeletesRowsIn(Reached(ReconcileSteps(rows, listing, drops), k), {})
  {
    if listing != [] {
      ReconcileRowsOnly(rows, listing[1..], drops);
    }
  }
}
