/**
 * The exact result of a lifecycle run that ended well, backup by backup
 * (execute_policy in core/src/sobr/policy.rs:227-244): which are moved, archived, sealed
 * and deleted, by their age in seconds at the clock of each phase and the seals before.
 */
module PolicyRuns {
  import opened Common
  import opened Codec
  import opened Vault
  import opened Sobr
  import opened Tiering
  import opened Migration
  import opened Cleanup

  // ---------------------------------------------------------------- the rule

  predicate SealedAt(s: Lifecycle, t: TierId, id: SnapId) {
    t in s.tiers && id in s.tiers[t].sealed
  }

  /** The recorded tier, or the performance tier. */
  function Place(s: Lifecycle, p: Policy, id: SnapId): TierId {
    if id in s.placements then s.placements[id] else p.perf
  }

  /** At least so many days of 86400 seconds old. */
  predicate Old(e: Entry, clock: int, days: nat) {
    clock - e.createdAt >= days * 86_400
  }

  /** On the performance tier, unsealed there, and old enough to move. */
  predicate Moves(s: Lifecycle, p: Policy, at: Clocks, e: Entry) {
    Place(s, p, e.id) == p.perf && !SealedAt(s, p.perf, e.id) && Old(e, at.movement, p.capacityMoveDays)
  }

  function AfterMovement(s: Lifecycle, p: Policy, at: Clocks, e: Entry): TierId {
    if Moves(s, p, at, e) then p.cap else Place(s, p, e.id)
  }

  /** By then on the capacity tier, unsealed there, and old enough to be archived. */
  predicate Archives(s: Lifecycle, p: Policy, at: Clocks, e: Entry) {
    && p.archive.Some? && p.archiveMoveDays.Some?
    && AfterMovement(s, p, at, e) == p.cap && !SealedAt(s, p.cap, e.id) && Old(e, at.archival, p.archiveMoveDays.value)
  }

  function AfterArchival(s: Lifecycle, p: Policy, at: Clocks, e: Entry): TierId {
    if Archives(s, p, at, e) then p.archive.value else AfterMovement(s, p, at, e)
  }

  /** Sealed where it has come to, or old enough to be sealed there. */
  predicate Seals(s: Lifecycle, p: Policy, at: Clocks, e: Entry) {
    SealedAt(s, AfterArchival(s, p, at, e), e.id) || (p.sealDays.Some? && Old(e, at.sealing, p.sealDays.value))
  }

  /** Old enough to be deleted, not sealed by then, and with a manifest. */
  predicate Retires(s: Lifecycle, p: Policy, at: Clocks, e: Entry) {
    p.retentionDays.Some? && Old(e, at.retention, p.retentionDays.value) && !Seals(s, p, at, e) && e.id in s.manifests
  }

  // ---------------------------------------------------------------- seals through the phases

  predicate SameSeals(a: map<TierId, Tier>, b: map<TierId, Tier>) {
    a.Keys == b.Keys && forall t :: t in a ==> a[t].sealed == b[t].sealed
  }

  lemma {:induction false} CopySeals(tiers: map<TierId, Tier>, src: TierId, dst: TierId, ids: seq<Hash>)
    requires src in tiers && dst in tiers
    ensures SameSeals(tiers, CopyBlocks(tiers, src, dst, ids).0)
    decreases |ids|
  {
    if ids != [] && ids[0] in tiers[src].blocks {
      CopySeals(PutBlock(tiers, dst, ids[0], tiers[src].blocks[ids[0]]), src, dst, ids[1..]);
    }
  }

  lemma MoveSeals(s: Lifecycle, id: SnapId, src: TierId, dst: TierId)
    ensures SameSeals(s.tiers, MoveBackup(s, id, src, dst).0.tiers)
  {
    hide CopyBlocks, ReleaseBlocks, Unique;
    if src in s.tiers && dst in s.tiers && id in s.manifests {
      var ids := Unique(s.manifests[id]);
      CopySeals(s.tiers, src, dst, ids);
      ReleaseSeals(s.(tiers := CopyBlocks(s.tiers, src, dst, ids).0), src, ids);
    }
  }

  lemma {:induction false} MoveAllSeals(s: Lifecycle, ids: seq<SnapId>, src: TierId, dst: TierId)
    ensures SameSeals(s.tiers, MoveAll(s, ids, src, dst).0.tiers)
    decreases |ids|
  {
    hide MoveBackup;
    if ids != [] {
      MoveSeals(s, ids[0], src, dst);
      var (s1, r) := MoveBackup(s, ids[0], src, dst);
      if r.Ok? {
        MoveAllSeals(s1, ids[1..], src, dst);
      }
    }
  }

  /** Sealing that ends well seals exactly its backups, each where it is placed. */
  lemma {:induction false} SealAllExactly(s: Lifecycle, p: Policy, ids: seq<SnapId>, t: TierId, id: SnapId)
    requires SealAll(s, p, ids).1.Ok?
    ensures SealedAt(SealAll(s, p, ids).0, t, id) <==> SealedAt(s, t, id) || (id in ids && Home(s, p, id) == t)
    decreases |ids|
  {
    if ids != [] {
      assert ids == [ids[0]] + ids[1..];
      var t0 := Home(s, p, ids[0]);
      if IsSealed(s, p, ids[0]) {
        SealAllExactly(s, p, ids[1..], t, id);
      } else {
        SealAllExactly(s.(tiers := s.tiers[t0 := s.tiers[t0].(sealed := s.tiers[t0].sealed + {ids[0]})]), p, ids[1..], t, id);
      }
    }
  }

  /** Deletion that ends well takes exactly its backups with a manifest, with rows, manifests and placements. */
  lemma {:induction false} PurgeAllExactly(s: Lifecycle, p: Policy, ids: seq<SnapId>, e: Entry)
    requires PurgeAll(s, p, ids).1.Ok?
    ensures var w, gone := PurgeAll(s, p, ids).0, e.id in ids && e.id in s.manifests;
            && (e in w.listing <==> e in s.listing && !gone)
            && (gone ==> e.id !in w.manifests)
            && (!gone ==> SamePlacement(s, w, e.id) && (e.id in s.manifests <==> e.id in w.manifests))
            && (!gone && e.id in s.manifests ==> w.manifests[e.id] == s.manifests[e.id])
            && SameSeals(s.tiers, w.tiers)
    decreases |ids|
  {
    hide Purge;
    if ids != [] {
      assert ids == [ids[0]] + ids[1..];
      var t := Home(s, p, ids[0]);
      if ids[0] in s.manifests {
        PurgeExactly(s, ids[0], t);
        PurgeAllExactly(Purge(s, ids[0], t), p, ids[1..], e);
      } else {
        PurgeAllExactly(s, p, ids[1..], e);
      }
    }
  }

  // ---------------------------------------------------------------- the phases

  lemma {:induction false} OnlyEntry(listing: seq<Entry>, chosen: Entry -> bool, e: Entry)
    requires Migration.DistinctIds(listing) && e in listing
    ensures e.id in Select(listing, chosen) <==> chosen(e)
  {
    if e.id in Select(listing, chosen) {
      var f :| f in listing && chosen(f) && f.id == e.id;
      var i, j :| 0 <= i < |listing| && listing[i] == e && 0 <= j < |listing| && listing[j] == f;
      assert i == j;
    }
  }

  lemma {:induction false} MovementPhase(s: Lifecycle, p: Policy, at: Clocks, e: Entry)
    requires Migration.DistinctIds(s.listing) && e in s.listing
    requires MoveAll(s, EvaluateMovement(s, p, at.movement), p.perf, p.cap).1.Ok?
    ensures var s1 := MoveAll(s, EvaluateMovement(s, p, at.movement), p.perf, p.cap).0;
            && s1.listing == s.listing && s1.manifests == s.manifests && SameSeals(s.tiers, s1.tiers)
            && Home(s1, p, e.id) == AfterMovement(s, p, at, e)
  {
    hide MoveAll, Select;
    var ids := EvaluateMovement(s, p, at.movement);
    MoveAllFrame(s, ids, p.perf, p.cap);
    MoveAllSeals(s, ids, p.perf, p.cap);
    OnlyEntry(s.listing, Movable(s, p, at.movement), e);
  }

  lemma ArchivalPhase(s: Lifecycle, p: Policy, at: Clocks, s1: Lifecycle, e: Entry)
    requires Migration.DistinctIds(s1.listing) && e in s1.listing && SameSeals(s.tiers, s1.tiers)
    requires Home(s1, p, e.id) == AfterMovement(s, p, at, e)
    requires Archive(s1, p, at.archival).1.Ok?
    ensures var s2 := Archive(s1, p, at.archival).0;
            && s2.listing == s1.listing && s2.manifests == s1.manifests && SameSeals(s.tiers, s2.tiers)
            && Home(s2, p, e.id) == AfterArchival(s, p, at, e)
  {
    hide MoveAll, Select, Moves;
    if p.archive.Some? {
      var ids := EvaluateArchival(s1, p, at.archival);
      MoveAllFrame(s1, ids, p.cap, p.archive.value);
      MoveAllSeals(s1, ids, p.cap, p.archive.value);
      if p.archiveMoveDays.Some? {
        OnlyEntry(s1.listing, Archivable(s1, p, at.archival, p.archiveMoveDays.value), e);
      }
    }
  }

  lemma {:induction false} SealingPhase(s: Lifecycle, p: Policy, at: Clocks, s2: Lifecycle, e: Entry)
    requires Migration.DistinctIds(s2.listing) && e in s2.listing && SameSeals(s.tiers, s2.tiers)
    requires Home(s2, p, e.id) == AfterArchival(s, p, at, e)
    requires SealAll(s2, p, EvaluateSeal(s2, p, at.sealing)).1.Ok?
    ensures var s3 := SealAll(s2, p, EvaluateSeal(s2, p, at.sealing)).0;
            && s3.listing == s2.listing && s3.manifests == s2.manifests && Home(s3, p, e.id) == Home(s2, p, e.id)
            && (IsSealed(s3, p, e.id) <==> Seals(s, p, at, e))
  {
    hide SealAll, Select, AfterArchival;
    var ids := EvaluateSeal(s2, p, at.sealing);
    SealFrame(s2, p, ids);
    SealAllExactly(s2, p, ids, Home(s2, p, e.id), e.id);
    if p.sealDays.Some? {
      OnlyEntry(s2.listing, Sealable(at.sealing, p.sealDays.value), e);
    }
  }

  lemma {:induction false} RetentionPhase(s: Lifecycle, p: Policy, at: Clocks, s3: Lifecycle, e: Entry)
    requires Migration.DistinctIds(s3.listing) && e in s3.listing && s3.manifests == s.manifests
    requires Home(s3, p, e.id) == AfterArchival(s, p, at, e) && (IsSealed(s3, p, e.id) <==> Seals(s, p, at, e))
    requires PurgeAll(s3, p, EvaluateCleanup(s3, p, at.retention)).1.Ok?
    ensures Passed(s, p, at, e, PurgeAll(s3, p, EvaluateCleanup(s3, p, at.retention)).0)
  {
    hide PurgeAll, Select, AfterArchival, Seals;
    var ids := EvaluateCleanup(s3, p, at.retention);
    PurgeAllExactly(s3, p, ids, e);
    if p.retentionDays.Some? {
      OnlyEntry(s3.listing, Expired(s3, p, at.retention, p.retentionDays.value), e);
    }
  }

  /** The backup is gone with its manifest if it retires; else it is listed, where and as sealed as the rule says. */
  ghost predicate Passed(s: Lifecycle, p: Policy, at: Clocks, e: Entry, w: Lifecycle) {
    && (e in w.listing <==> !Retires(s, p, at, e))
    && (Retires(s, p, at, e) ==> e.id !in w.manifests)
    && (!Retires(s, p, at, e) ==>
          && Place(w, p, e.id) == AfterArchival(s, p, at, e) && (SealedAt(w, Place(w, p, e.id), e.id) <==> Seals(s, p, at, e))
          && (e.id in w.manifests <==> e.id in s.manifests) && (e.id in s.manifests ==> w.manifests[e.id] == s.manifests[e.id]))
  }

  /** After a run that ended well every backup is exactly where and as the rule says, whatever tiers the policy names. */
  lemma {:induction false} RunExactly(s: Lifecycle, p: Policy, at: Clocks, e: Entry)
    requires Migration.DistinctIds(s.listing) && e in s.listing && ExecutePolicy(s, p, at).1.Ok?
    ensures Passed(s, p, at, e, ExecutePolicy(s, p, at).0)
  {
    hide MoveAll, Archive, SealAll, PurgeAll, EvaluateMovement, EvaluateSeal, EvaluateCleanup, AfterMovement, AfterArchival, Seals,
      IsSealed, Passed, SameSeals;
    MovementPhase(s, p, at, e);
    var s1 := MoveAll(s, EvaluateMovement(s, p, at.movement), p.perf, p.cap).0;
    ArchivalPhase(s, p, at, s1, e);
    var s2 := Archive(s1, p, at.archival).0;
    SealingPhase(s, p, at, s2, e);
    var s3 := SealAll(s2, p, EvaluateSeal(s2, p, at.sealing)).0;
    RetentionPhase(s, p, at, s3, e);
  }
}
