/**
 * What any run of the lifecycle policy keeps, whether it ends well or not
 * (core/src/sobr/policy.rs): seals are for ever, placements only advance, and a run
 * that ended well has left nothing for a second run at the same clock.
 */
module Tiering {
  import opened Common
  import opened Vault
  import opened Sobr

  predicate SamePlacement(s: Lifecycle, w: Lifecycle, id: SnapId) {
    (id in s.placements <==> id in w.placements) && (id in s.placements ==> w.placements[id] == s.placements[id])
  }

  predicate Listed(s: Lifecycle, id: SnapId) {
    exists e :: e in s.listing && e.id == id
  }

  // ---------------------------------------------------------------- one phase at a time

  /** What a step of purging leaves of an expired backup: nothing; of another one: everything. */
  lemma {:induction false} PurgeFrame(s: Lifecycle, id: SnapId, t: TierId)
    requires id in s.manifests && t in s.tiers
    ensures var w := Purge(s, id, t);
            && SealsKept(s.tiers, w.tiers) && w.manifests == s.manifests - {id}
            && w.listing == Unlisted(s.listing, id) && w.placements == s.placements - {id}
  {
    ReleaseFrame(s.(manifests := s.manifests - {id}, listing := Unlisted(s.listing, id)), t, Unique(s.manifests[id]));
  }

  /** Rows, manifests and placements of the backups that are not up for purging stay; no row is added. */
  lemma {:induction false} PurgeAllFrame(s: Lifecycle, p: Policy, ids: seq<SnapId>)
    ensures var (w, r) := PurgeAll(s, p, ids);
            && SealsKept(s.tiers, w.tiers)
            && (forall e :: e in w.listing ==> e in s.listing)
            && (forall e :: e in s.listing && e.id !in ids ==> e in w.listing)
            && (forall x :: x in w.manifests ==> x in s.manifests && w.manifests[x] == s.manifests[x])
            && (forall x :: x in s.manifests && x !in ids ==> x in w.manifests)
            && (forall x :: x !in ids ==> SamePlacement(s, w, x))
    decreases |ids|
  {
    hide Purge;
    if ids != [] {
      assert ids == [ids[0]] + ids[1..];
      var t := Home(s, p, ids[0]);
      if t in s.tiers {
        if ids[0] in s.manifests {
          PurgeFrame(s, ids[0], t);
          PurgeAllFrame(Purge(s, ids[0], t), p, ids[1..]);
        } else {
          PurgeAllFrame(s, p, ids[1..]);
        }
      }
    }
  }

  /** A purge that ended well: what is still listed among its backups had no manifest and a registered tier. */
  lemma {:induction false} PurgeAllLeaves(s: Lifecycle, p: Policy, ids: seq<SnapId>, e: Entry)
    ensures var (w, r) := PurgeAll(s, p, ids);
            && (e in w.listing ==> SamePlacement(s, w, e.id))
            && (e in w.listing && r.Ok? && e.id in ids ==> e.id !in w.manifests && Home(w, p, e.id) in w.tiers)
    decreases |ids|
  {
    hide Purge;
    if ids != [] {
      assert ids == [ids[0]] + ids[1..];
      var t := Home(s, p, ids[0]);
      if t in s.tiers {
        if ids[0] in s.manifests {
          PurgeFrame(s, ids[0], t);
          var s1 := Purge(s, ids[0], t);
          PurgeAllLeaves(s1, p, ids[1..], e);
          PurgeAllFrame(s1, p, ids[1..]);
        } else {
          PurgeAllLeaves(s, p, ids[1..], e);
          PurgeAllFrame(s, p, ids[1..]);
        }
      }
    }
  }

  // ---------------------------------------------------------------- what every run keeps

  /** A placement moves from performance to capacity to archive, never back. */
  predicate Advances(p: Policy, before: TierId, after: TierId) {
    || before == after
    || (before == p.perf && (after == p.cap || ArchiveTier(p) == Some(after)))
    || (before == p.cap && ArchiveTier(p) == Some(after))
  }

  /** A sealed backup's rows, manifest and placement are as they were. */
  predicate Untouched(s: Lifecycle, w: Lifecycle, id: SnapId) {
    && (forall e :: e in s.listing && e.id == id ==> e in w.listing)
    && (id in s.manifests <==> id in w.manifests)
    && (id in s.manifests ==> w.manifests[id] == s.manifests[id])
    && SamePlacement(s, w, id)
  }

  /** What the lifecycle engine promises of one state and a later one. */
  ghost predicate Keeps(p: Policy, s: Lifecycle, w: Lifecycle) {
    && SealsKept(s.tiers, w.tiers)
    && (forall e :: e in w.listing ==> e in s.listing)
    && (forall id :: IsSealed(s, p, id) ==> Untouched(s, w, id))
    && (forall e :: e in w.listing ==> Advances(p, Home(s, p, e.id), Home(w, p, e.id)))
  }

  lemma SealStays(p: Policy, s: Lifecycle, w: Lifecycle, id: SnapId)
    requires SealsKept(s.tiers, w.tiers) && SamePlacement(s, w, id) && IsSealed(s, p, id)
    ensures IsSealed(w, p, id)
  {
  }

  lemma KeepsTransitive(p: Policy, a: Lifecycle, b: Lifecycle, c: Lifecycle)
    requires Keeps(p, a, b) && Keeps(p, b, c)
    ensures Keeps(p, a, c)
  {
    forall id | IsSealed(a, p, id) ensures Untouched(a, c, id) {
      SealStays(p, a, b, id);
      assert Untouched(a, b, id) && Untouched(b, c, id);
    }
    forall e | e in c.listing ensures Advances(p, Home(a, p, e.id), Home(c, p, e.id)) {
      hide Home;
    }
  }

  lemma {:induction false} MovementKeeps(s: Lifecycle, p: Policy, now: int)
    ensures Keeps(p, s, MoveAll(s, EvaluateMovement(s, p, now), p.perf, p.cap).0)
  {
    hide MoveAll;
    MoveAllFrame(s, EvaluateMovement(s, p, now), p.perf, p.cap);
  }

  lemma ArchivalKeeps(s: Lifecycle, p: Policy, now: int)
    ensures Keeps(p, s, Archive(s, p, now).0)
  {
    hide MoveAll;
    if p.archive.Some? {
      MoveAllFrame(s, EvaluateArchival(s, p, now), p.cap, p.archive.value);
    }
  }

  lemma {:induction false} SealingKeeps(s: Lifecycle, p: Policy, now: int)
    ensures Keeps(p, s, SealAll(s, p, EvaluateSeal(s, p, now)).0)
  {
    hide SealAll;
    SealFrame(s, p, EvaluateSeal(s, p, now));
  }

  lemma {:induction false} CleanupKeeps(s: Lifecycle, p: Policy, now: int)
    ensures Keeps(p, s, PurgeAll(s, p, EvaluateCleanup(s, p, now)).0)
  {
    hide PurgeAll;
    var ids := EvaluateCleanup(s, p, now);
    PurgeAllFrame(s, p, ids);
    forall e | e in PurgeAll(s, p, ids).0.listing ensures SamePlacement(s, PurgeAll(s, p, ids).0, e.id) {
      PurgeAllLeaves(s, p, ids, e);
    }
  }

  /** One run, whatever its outcome. */
  lemma RunKeeps(s: Lifecycle, p: Policy, at: Clocks)
    ensures Keeps(p, s, ExecutePolicy(s, p, at).0)
  {
    hide MoveAll, Archive, SealAll, PurgeAll, Keeps, EvaluateMovement, EvaluateSeal, EvaluateCleanup;
    MovementKeeps(s, p, at.movement);
    var (s1, r1) := MoveAll(s, EvaluateMovement(s, p, at.movement), p.perf, p.cap);
    if r1.Ok? {
      ArchivalKeeps(s1, p, at.archival);
      var (s2, r2) := Archive(s1, p, at.archival);
      KeepsTransitive(p, s, s1, s2);
      if r2.Ok? {
        SealingKeeps(s2, p, at.sealing);
        var (s3, r3) := SealAll(s2, p, EvaluateSeal(s2, p, at.sealing));
        KeepsTransitive(p, s, s2, s3);
        if r3.Ok? {
          CleanupKeeps(s3, p, at.retention);
          KeepsTransitive(p, s, s3, PurgeAll(s3, p, EvaluateCleanup(s3, p, at.retention)).0);
        }
      }
    }
  }

  /** The states after a series of runs at the given clocks, failed ones included. */
  function Runs(s: Lifecycle, p: Policy, clocks: seq<Clocks>): Lifecycle
    decreases |clocks|
  {
    if clocks == [] then s else Runs(ExecutePolicy(s, p, clocks[0]).0, p, clocks[1..])
  }

  lemma {:induction false} RunsKeep(s: Lifecycle, p: Policy, clocks: seq<Clocks>)
    ensures Keeps(p, s, Runs(s, p, clocks))
    decreases |clocks|
  {
    hide ExecutePolicy;
    if clocks != [] {
      var s1 := ExecutePolicy(s, p, clocks[0]).0;
      RunKeeps(s, p, clocks[0]);
      RunsKeep(s1, p, clocks[1..]);
      KeepsTransitive(p, s, s1, Runs(s1, p, clocks[1..]));
    }
  }

  /** Seals are for ever: over any runs at any clocks, runs that ended in an error included, a sealed backup stays sealed and untouched. */
  lemma {:induction false} SealedForEver(s: Lifecycle, p: Policy, clocks: seq<Clocks>, id: SnapId)
    requires IsSealed(s, p, id)
    ensures IsSealed(Runs(s, p, clocks), p, id) && Untouched(s, Runs(s, p, clocks), id)
  {
    hide Runs;
    RunsKeep(s, p, clocks);
    SealStays(p, s, Runs(s, p, clocks), id);
  }

  /** Placements only advance: over any runs, a backup that is still listed is where it was or further on. */
  lemma {:induction false} PlacementsAdvance(s: Lifecycle, p: Policy, clocks: seq<Clocks>, id: SnapId)
    requires Listed(Runs(s, p, clocks), id)
    ensures Listed(s, id) && Advances(p, Home(s, p, id), Home(Runs(s, p, clocks), p, id))
  {
    hide Runs;
    RunsKeep(s, p, clocks);
  }

  // ---------------------------------------------------------------- a second run

  /** Nothing is left to move, archive or seal, and expired backups without a manifest are skipped. */
  predicate Settled(s: Lifecycle, p: Policy, at: Clocks) {
    && EvaluateMovement(s, p, at.movement) == []
    && (p.archive.None? || EvaluateArchival(s, p, at.archival) == [])
    && (forall id :: id in EvaluateSeal(s, p, at.sealing) ==> IsSealed(s, p, id))
    && (forall id :: id in EvaluateCleanup(s, p, at.retention) ==> Home(s, p, id) in s.tiers && id !in s.manifests)
  }

  lemma {:induction false} PurgeAllSkips(s: Lifecycle, p: Policy, ids: seq<SnapId>)
    requires forall id :: id in ids ==> Home(s, p, id) in s.tiers && id !in s.manifests
    ensures PurgeAll(s, p, ids) == (s, Ok(0))
    decreases |ids|
  {
    if ids != [] {
      PurgeAllSkips(s, p, ids[1..]);
    }
  }

  lemma {:induction false} SealAllSkips(s: Lifecycle, p: Policy, ids: seq<SnapId>)
    requires forall id :: id in ids ==> IsSealed(s, p, id)
    ensures SealAll(s, p, ids) == (s, Ok(0))
    decreases |ids|
  {
    if ids != [] {
      SealAllSkips(s, p, ids[1..]);
    }
  }

  lemma SettledRunDoesNothing(s: Lifecycle, p: Policy, at: Clocks)
    requires Settled(s, p, at)
    ensures ExecutePolicy(s, p, at) == (s, Ok(0))
  {
    SealAllSkips(s, p, EvaluateSeal(s, p, at.sealing));
    PurgeAllSkips(s, p, EvaluateCleanup(s, p, at.retention));
  }

  /** After its movement phase a run that goes on has no candidate for movement left, and will not get one. */
  lemma {:induction false} MovementSettles(s: Lifecycle, p: Policy, now: int, e: Entry)
    requires DistinctTiers(p) && e in s.listing && Aged(e, now, p.capacityMoveDays)
    requires MoveAll(s, EvaluateMovement(s, p, now), p.perf, p.cap).1.Ok?
    ensures var w := MoveAll(s, EvaluateMovement(s, p, now), p.perf, p.cap).0;
            Home(w, p, e.id) != p.perf || IsSealed(w, p, e.id)
  {
    hide MoveAll;
    MoveAllFrame(s, EvaluateMovement(s, p, now), p.perf, p.cap);
  }

  lemma ArchivalSettles(s: Lifecycle, p: Policy, now: int, e: Entry)
    requires DistinctTiers(p) && p.archive.Some? && p.archiveMoveDays.Some?
    requires e in s.listing && Aged(e, now, p.archiveMoveDays.value) && Archive(s, p, now).1.Ok?
    ensures var w := Archive(s, p, now).0; Home(w, p, e.id) != p.cap || IsSealed(w, p, e.id)
  {
    hide MoveAll;
    MoveAllFrame(s, EvaluateArchival(s, p, now), p.cap, p.archive.value);
  }

  /** Sealing and retention change no placement of a backup that stays listed. */
  lemma {:induction false} LatePhasesKeepPlacements(s: Lifecycle, p: Policy, at: Clocks, e: Entry)
    requires SealAll(s, p, EvaluateSeal(s, p, at.sealing)).1.Ok?
    ensures var s3 := SealAll(s, p, EvaluateSeal(s, p, at.sealing)).0;
            var w := PurgeAll(s3, p, EvaluateCleanup(s3, p, at.retention)).0;
            e in w.listing ==> SamePlacement(s, w, e.id) && SamePlacement(s3, w, e.id) && e in s.listing
  {
    hide SealAll, PurgeAll;
    SealFrame(s, p, EvaluateSeal(s, p, at.sealing));
    var s3 := SealAll(s, p, EvaluateSeal(s, p, at.sealing)).0;
    PurgeAllLeaves(s3, p, EvaluateCleanup(s3, p, at.retention), e);
    PurgeAllFrame(s3, p, EvaluateCleanup(s3, p, at.retention));
  }

  /** The states a run that ended well went through. */
  ghost predicate Went(s: Lifecycle, p: Policy, at: Clocks, s1: Lifecycle, s2: Lifecycle, s3: Lifecycle, w: Lifecycle) {
    && MoveAll(s, EvaluateMovement(s, p, at.movement), p.perf, p.cap).0 == s1
    && MoveAll(s, EvaluateMovement(s, p, at.movement), p.perf, p.cap).1.Ok?
    && Archive(s1, p, at.archival).0 == s2 && Archive(s1, p, at.archival).1.Ok?
    && SealAll(s2, p, EvaluateSeal(s2, p, at.sealing)).0 == s3 && SealAll(s2, p, EvaluateSeal(s2, p, at.sealing)).1.Ok?
    && PurgeAll(s3, p, EvaluateCleanup(s3, p, at.retention)).0 == w && PurgeAll(s3, p, EvaluateCleanup(s3, p, at.retention)).1.Ok?
  }

  lemma PhasesKeep(s: Lifecycle, p: Policy, at: Clocks, s1: Lifecycle, s2: Lifecycle, s3: Lifecycle, w: Lifecycle)
    requires Went(s, p, at, s1, s2, s3, w)
    ensures Keeps(p, s, s1) && Keeps(p, s1, s2) && Keeps(p, s2, s3) && Keeps(p, s3, w) && Keeps(p, s2, w) && Keeps(p, s1, w)
  {
    hide MoveAll, Archive, SealAll, PurgeAll, Keeps, EvaluateMovement, EvaluateSeal, EvaluateCleanup;
    MovementKeeps(s, p, at.movement);
    ArchivalKeeps(s1, p, at.archival);
    SealingKeeps(s2, p, at.sealing);
    CleanupKeeps(s3, p, at.retention);
    KeepsTransitive(p, s2, s3, w);
    KeepsTransitive(p, s1, s2, w);
  }

  lemma NoMovementLeft(s: Lifecycle, p: Policy, at: Clocks, s1: Lifecycle, s2: Lifecycle, s3: Lifecycle, w: Lifecycle)
    requires DistinctTiers(p) && Went(s, p, at, s1, s2, s3, w)
    ensures EvaluateMovement(w, p, at.movement) == []
  {
    hide MoveAll, Archive, SealAll, PurgeAll, EvaluateSeal, EvaluateCleanup;
    PhasesKeep(s, p, at, s1, s2, s3, w);
    var ids := EvaluateMovement(w, p, at.movement);
    if ids != [] {
      assert ids[0] in ids;
      var e :| e in w.listing && Aged(e, at.movement, p.capacityMoveDays) && e.id == ids[0] &&
               Home(w, p, e.id) == p.perf && !IsSealed(w, p, e.id);
      MovementSettles(s, p, at.movement, e);
      if IsSealed(s1, p, e.id) {
        SealStays(p, s1, w, e.id);
      }
      assert false;
    }
  }

  lemma NoArchivalLeft(s: Lifecycle, p: Policy, at: Clocks, s1: Lifecycle, s2: Lifecycle, s3: Lifecycle, w: Lifecycle)
    requires DistinctTiers(p) && Went(s, p, at, s1, s2, s3, w)
    ensures p.archive.None? || EvaluateArchival(w, p, at.archival) == []
  {
    hide MoveAll, Archive, SealAll, PurgeAll, EvaluateMovement, EvaluateSeal, EvaluateCleanup;
    PhasesKeep(s, p, at, s1, s2, s3, w);
    var ids := EvaluateArchival(w, p, at.archival);
    if p.archive.Some? && ids != [] {
      assert ids[0] in ids;
      var e :| e in w.listing && Aged(e, at.archival, p.archiveMoveDays.value) && e.id == ids[0] &&
               Home(w, p, e.id) == p.cap && !IsSealed(w, p, e.id);
      LatePhasesKeepPlacements(s2, p, at, e);
      ArchivalSettles(s1, p, at.archival, e);
      SealStays(p, s2, w, e.id);
      assert false;
    }
  }

  lemma {:induction false} SealingSettles(s: Lifecycle, p: Policy, now: int, e: Entry)
    requires p.sealDays.Some? && e in s.listing && Aged(e, now, p.sealDays.value)
    requires SealAll(s, p, EvaluateSeal(s, p, now)).1.Ok?
    ensures IsSealed(SealAll(s, p, EvaluateSeal(s, p, now)).0, p, e.id)
  {
    hide SealAll, IsSealed;
    assert e.id in EvaluateSeal(s, p, now);
    SealFrame(s, p, EvaluateSeal(s, p, now));
  }

  lemma NoSealLeft(s: Lifecycle, p: Policy, at: Clocks, s1: Lifecycle, s2: Lifecycle, s3: Lifecycle, w: Lifecycle)
    requires Went(s, p, at, s1, s2, s3, w)
    ensures forall id :: id in EvaluateSeal(w, p, at.sealing) ==> IsSealed(w, p, id)
  {
    hide MoveAll, Archive, SealAll, PurgeAll, EvaluateMovement, EvaluateCleanup;
    PhasesKeep(s, p, at, s1, s2, s3, w);
    forall id | id in EvaluateSeal(w, p, at.sealing) ensures IsSealed(w, p, id) {
      var e :| e in w.listing && Aged(e, at.sealing, p.sealDays.value) && e.id == id;
      SealingSettles(s2, p, at.sealing, e);
      assert Untouched(s3, w, id);
      SealStays(p, s3, w, id);
    }
  }

  lemma NoCleanupLeft(s: Lifecycle, p: Policy, at: Clocks, s1: Lifecycle, s2: Lifecycle, s3: Lifecycle, w: Lifecycle)
    requires Went(s, p, at, s1, s2, s3, w)
    ensures forall id :: id in EvaluateCleanup(w, p, at.retention) ==> Home(w, p, id) in w.tiers && id !in w.manifests
  {
    hide MoveAll, Archive, SealAll, PurgeAll, EvaluateMovement, EvaluateSeal;
    PhasesKeep(s, p, at, s1, s2, s3, w);
    forall id | id in EvaluateCleanup(w, p, at.retention) ensures Home(w, p, id) in w.tiers && id !in w.manifests {
      var e :| e in w.listing && Aged(e, at.retention, p.retentionDays.value) && !IsSealed(w, p, e.id) && e.id == id;
      LatePhasesKeepPlacements(s2, p, at, e);
      if IsSealed(s3, p, id) {
        SealStays(p, s3, w, id);
        assert false;
      }
      PurgeAllLeaves(s3, p, EvaluateCleanup(s3, p, at.retention), e);
    }
  }

  /** A run that ended well leaves a state that a second run at the same clocks does not change: no byte moves, nothing is deleted. */
  lemma SecondRunDoesNothing(s: Lifecycle, p: Policy, at: Clocks)
    requires DistinctTiers(p) && ExecutePolicy(s, p, at).1.Ok?
    ensures ExecutePolicy(ExecutePolicy(s, p, at).0, p, at) == (ExecutePolicy(s, p, at).0, Ok(0))
  {
    hide MoveAll, Archive, SealAll, PurgeAll, EvaluateMovement, EvaluateSeal, EvaluateCleanup, EvaluateArchival;
    var s1 := MoveAll(s, EvaluateMovement(s, p, at.movement), p.perf, p.cap).0;
    var s2 := Archive(s1, p, at.archival).0;
    var s3 := SealAll(s2, p, EvaluateSeal(s2, p, at.sealing)).0;
    var w := ExecutePolicy(s, p, at).0;
    NoMovementLeft(s, p, at, s1, s2, s3, w);
    NoArchivalLeft(s, p, at, s1, s2, s3, w);
    NoSealLeft(s, p, at, s1, s2, s3, w);
    NoCleanupLeft(s, p, at, s1, s2, s3, w);
    SettledRunDoesNothing(w, p, at);
  }
}
