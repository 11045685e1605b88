/**
 * Single moves between any tiers, the same tier twice included, and exactly which policies
 * settle in one run (core/src/sobr/policy.rs:150-181, 227-244).
 */
module Settling {
  import opened Common
  import opened Codec
  import opened Vault
  import opened Sobr
  import opened Tiering
  import opened Migration

  // ---------------------------------------------------------------- every single move

  lemma {:induction false} CopyExactly(tiers: map<TierId, Tier>, src: TierId, dst: TierId, ids: seq<Hash>)
    requires src in tiers && dst in tiers
    ensures var (w, r) := CopyBlocks(tiers, src, dst, ids);
            && (r.Ok? <==> forall h :: h in ids ==> h in tiers[src].blocks)
            && (r.Err? ==> r.error == BlockUnreadable)
            && w.Keys == tiers.Keys && w[src] == tiers[src]
    decreases |ids|
  {
    if ids != [] {
      assert ids == [ids[0]] + ids[1..];
      if ids[0] in tiers[src].blocks {
        var raw := tiers[src].blocks[ids[0]];
        assert src == dst ==> tiers[src].blocks[ids[0] := raw] == tiers[src].blocks;
        CopyExactly(PutBlock(tiers, dst, ids[0], raw), src, dst, ids[1..]);
      }
    }
  }

  /** A move that ends well, onto its own tier too, takes from the source exactly the backup's blocks with one reference. */
  ghost predicate TakesLastReferences(s: Lifecycle, w: Lifecycle, src: TierId, ids: seq<Hash>) {
    && src in s.tiers && src in w.tiers
    && (forall h :: h in w.tiers[src].blocks <==> h in s.tiers[src].blocks && !(h in ids && RefCount(s.refs, h) == 1))
    && (forall h :: h in ids ==> RefCount(w.refs, h) == Max(RefCount(s.refs, h) - 1, 0))
  }

  /** When a move ends well, and which blocks it leaves on its source: for all states, all tiers, the same tier twice included. */
  lemma {:induction false} MoveExactly(s: Lifecycle, id: SnapId, src: TierId, dst: TierId)
    ensures var (w, r) := MoveBackup(s, id, src, dst);
            && (r.Ok? <==> src in s.tiers && dst in s.tiers && id in s.manifests && forall h :: h in s.manifests[id] ==> h in s.tiers[src].blocks)
            && (r.Ok? ==> w.manifests == s.manifests && w.tiers.Keys == s.tiers.Keys && TakesLastReferences(s, w, src, s.manifests[id]))
  {
    hide CopyBlocks, ReleaseBlocks, Removed, DistinctIds;
    if src in s.tiers && dst in s.tiers && id in s.manifests {
      var ids := Unique(s.manifests[id]);
      CopyExactly(s.tiers, src, dst, ids);
      var (tiers', r) := CopyBlocks(s.tiers, src, dst, ids);
      if r.Ok? {
        var s1 := s.(tiers := tiers');
        ReleaseFrame(s1, src, ids);
        ReleaseEffect(s1, src, ids);
      }
    }
  }

  /**
   * A move onto the tier the backup is on can be repeated exactly when each of its blocks
   * had other references than one; a block with one reference is deleted from its only tier.
   */
  lemma {:induction false} MoveOntoItselfExactly(s: Lifecycle, id: SnapId, t: TierId)
    requires MoveBackup(s, id, t, t).1.Ok?
    ensures var w := MoveBackup(s, id, t, t).0;
            MoveBackup(w, id, t, t).1.Ok? <==> forall h :: h in s.manifests[id] ==> RefCount(s.refs, h) != 1
  {
    hide MoveBackup, RefCount;
    MoveExactly(s, id, t, t);
    MoveExactly(MoveBackup(s, id, t, t).0, id, t, t);
  }

  lemma {:induction false} ReleaseKeepsSeals(s: Lifecycle, src: TierId, ids: seq<Hash>)
    requires src in s.tiers
    ensures var w := ReleaseBlocks(s, src, ids);
            w.tiers.Keys == s.tiers.Keys && forall t :: t in s.tiers ==> w.tiers[t].sealed == s.tiers[t].sealed
    decreases |ids|
  {
    if ids != [] {
      ReleaseKeepsSeals(ReleaseBlock(s, src, ids[0]), src, ids[1..]);
    }
  }

  lemma {:induction false} CopyKeepsSeals(tiers: map<TierId, Tier>, src: TierId, dst: TierId, ids: seq<Hash>)
    requires src in tiers && dst in tiers
    ensures var w := CopyBlocks(tiers, src, dst, ids).0;
            w.Keys == tiers.Keys && forall t :: t in tiers ==> w[t].sealed == tiers[t].sealed
    decreases |ids|
  {
    if ids != [] && ids[0] in tiers[src].blocks {
      CopyKeepsSeals(PutBlock(tiers, dst, ids[0], tiers[src].blocks[ids[0]]), src, dst, ids[1..]);
    }
  }

  lemma {:induction false} MoveKeepsSeals(s: Lifecycle, id: SnapId, src: TierId, dst: TierId)
    ensures var w := MoveBackup(s, id, src, dst).0;
            w.tiers.Keys == s.tiers.Keys && forall t :: t in s.tiers ==> w.tiers[t].sealed == s.tiers[t].sealed
  {
    hide CopyBlocks, ReleaseBlocks;
    if src in s.tiers && dst in s.tiers && id in s.manifests {
      var ids := Unique(s.manifests[id]);
      CopyKeepsSeals(s.tiers, src, dst, ids);
      ReleaseKeepsSeals(s.(tiers := CopyBlocks(s.tiers, src, dst, ids).0), src, ids);
    }
  }

  lemma {:induction false} OneMoveRuns(s: Lifecycle, p: Policy, at: Clocks, e: Entry)
    requires MovesOnly(p) && p.sealDays.None? && s.listing == [e] && Movable(s, p, at.movement)(e)
    ensures ExecutePolicy(s, p, at) == MoveBackup(s, e.id, p.perf, p.cap)
  {
    hide MoveBackup;
    assert s.listing[1..] == [];
    assert Select(s.listing, Movable(s, p, at.movement)) == [e.id] + [];
    var (w, r) := MoveBackup(s, e.id, p.perf, p.cap);
    assert [e.id][1..] == [];
    assert MoveAll(w, [], p.perf, p.cap) == (w, Ok(0));
  }

  /** A block of another backup that is placed, and stored, on the tier. */
  ghost predicate StoredFor(s: Lifecycle, p: Policy, id: SnapId, t: TierId, h: Hash) {
    && t in s.tiers && h in s.tiers[t].blocks
    && exists other :: other != id && other in s.manifests && h in s.manifests[other] && Home(s, p, other) == t
  }

  /** The move leaves on its source every block the other backups there have on it. */
  ghost predicate MoveSpares(s: Lifecycle, p: Policy, id: SnapId, src: TierId, dst: TierId) {
    var w := MoveBackup(s, id, src, dst).0;
    forall h :: StoredFor(s, p, id, src, h) ==> src in w.tiers && h in w.tiers[src].blocks
  }

  /** A move that ends well spares the other backups on its source exactly when none of their blocks there is the moved one's with a single reference. */
  lemma {:induction false} MoveSparesExactly(s: Lifecycle, p: Policy, id: SnapId, src: TierId, dst: TierId)
    requires MoveBackup(s, id, src, dst).1.Ok?
    ensures MoveSpares(s, p, id, src, dst) <==>
            forall h :: StoredFor(s, p, id, src, h) ==> !(id in s.manifests && h in s.manifests[id] && RefCount(s.refs, h) == 1)
  {
    hide MoveBackup, RefCount, Home;
    MoveExactly(s, id, src, dst);
  }

  /** With one tier for performance and capacity a run deletes the only copy of a block and the next run fails on it. */
  lemma {:induction false} OneTierLosesBlock(raw: bytes)
    ensures var p := Policy("t", "t", None, 0, None, None, None);
            var at := Clocks(0, 0, 0, 0);
            var s := Lifecycle(map["h" := 1], map["b" := ["h"]], [Entry("b", 0)], map["t" := Tier(map["h" := raw], {})], map[]);
            var (w, r) := ExecutePolicy(s, p, at);
            && r.Ok? && Listed(w, "b") && "t" in w.tiers && "h" !in w.tiers["t"].blocks
            && ExecutePolicy(w, p, at).1.Err?
  {
    hide MoveBackup, ExecutePolicy;
    var p := Policy("t", "t", None, 0, None, None, None);
    var at := Clocks(0, 0, 0, 0);
    var s := Lifecycle(map["h" := 1], map["b" := ["h"]], [Entry("b", 0)], map["t" := Tier(map["h" := raw], {})], map[]);
    MoveExactly(s, "b", "t", "t");
    OneMoveRuns(s, p, at, Entry("b", 0));
    var w := MoveBackup(s, "b", "t", "t").0;
    MoveFrame(s, "b", "t", "t");
    MoveKeepsSeals(s, "b", "t", "t");
    MoveExactly(w, "b", "t", "t");
    assert w.listing[0] == Entry("b", 0);
    OneMoveRuns(w, p, at, Entry("b", 0));
  }

  /** Three backups of one block, two moved to capacity, one of them moved on: the block leaves capacity while the other still needs it there. */
  lemma {:induction false} SecondMoveLosesBlock(raw: bytes)
    ensures var tiers := map["perf" := Tier(map["h" := raw], {}), "cap" := Tier(map[], {}), "arch" := Tier(map[], {})];
            var s := Lifecycle(map["h" := 3], map["a" := ["h"], "b" := ["h"], "c" := ["h"]],
                               [Entry("a", 0), Entry("b", 0), Entry("c", 0)], tiers, map[]);
            var w := MoveBackup(MoveBackup(s, "a", "perf", "cap").0, "b", "perf", "cap").0;
            var (x, r) := MoveBackup(w, "a", "cap", "arch");
            && r.Ok? && "b" in x.placements && x.placements["b"] == "cap" && "cap" in x.tiers && "h" !in x.tiers["cap"].blocks
  {
    hide MoveBackup, Has;
    var tiers := map["perf" := Tier(map["h" := raw], {}), "cap" := Tier(map[], {}), "arch" := Tier(map[], {})];
    var s := Lifecycle(map["h" := 3], map["a" := ["h"], "b" := ["h"], "c" := ["h"]],
                       [Entry("a", 0), Entry("b", 0), Entry("c", 0)], tiers, map[]);
    MoveExactly(s, "a", "perf", "cap");
    MoveFrame(s, "a", "perf", "cap");
    MoveArrives(s, "a", "perf", "cap", "h");
    var v := MoveBackup(s, "a", "perf", "cap").0;
    MoveExactly(v, "b", "perf", "cap");
    MoveFrame(v, "b", "perf", "cap");
    MoveArrives(v, "b", "perf", "cap", "h");
    var w := MoveBackup(v, "b", "perf", "cap").0;
    MoveExactly(w, "a", "cap", "arch");
    MoveFrame(w, "a", "cap", "arch");
  }

  /** A move to another tier that ends well leaves every block of the backup there. */
  lemma {:induction false} MoveArrives(s: Lifecycle, id: SnapId, src: TierId, dst: TierId, h: Hash)
    requires src != dst && MoveBackup(s, id, src, dst).1.Ok? && id in s.manifests && h in s.manifests[id]
    ensures var w := MoveBackup(s, id, src, dst).0;
            dst in w.tiers && h in w.tiers[dst].blocks
  {
    hide CopyBlocks, ReleaseBlocks;
    var ids := Unique(s.manifests[id]);
    var tiers' := CopyBlocks(s.tiers, src, dst, ids).0;
    CopyArrives(s.tiers, src, dst, ids, h);
    CopyExactly(s.tiers, src, dst, ids);
    ReleaseEffect(s.(tiers := tiers'), src, ids);
  }

  lemma {:induction false} CopyArrives(tiers: map<TierId, Tier>, src: TierId, dst: TierId, ids: seq<Hash>, h: Hash)
    requires src in tiers && dst in tiers && CopyBlocks(tiers, src, dst, ids).1.Ok?
    ensures var w := CopyBlocks(tiers, src, dst, ids).0;
            dst in w && (h in ids || h in tiers[dst].blocks ==> h in w[dst].blocks)
    decreases |ids|
  {
    if ids != [] {
      assert ids == [ids[0]] + ids[1..];
      CopyArrives(PutBlock(tiers, dst, ids[0], tiers[src].blocks[ids[0]]), src, dst, ids[1..], h);
    }
  }

  // ---------------------------------------------------------------- which policies settle

  /** After every run of the policy that ends well, at any clocks, a second run at the same clocks changes nothing. */
  ghost predicate Settles(p: Policy) {
    forall s: Lifecycle, at: Clocks :: ExecutePolicy(s, p, at).1.Ok? ==>
      ExecutePolicy(ExecutePolicy(s, p, at).0, p, at) == (ExecutePolicy(s, p, at).0, Ok(0))
  }

  /** One unsealed backup "b", made at time 0, of one block "h". */
  ghost predicate Lone(s: Lifecycle) {
    s.listing == [Entry("b", 0)] && s.manifests == map["b" := ["h"]] && forall t :: t in s.tiers ==> s.tiers[t].sealed == {}
  }

  ghost predicate On(s: Lifecycle, t: TierId) {
    t in s.tiers && "h" in s.tiers[t].blocks
  }

  lemma {:induction false} LoneMove(s: Lifecycle, src: TierId, dst: TierId)
    requires Lone(s) && On(s, src) && dst in s.tiers && RefCount(s.refs, "h") > 0
    ensures var (w, r) := MoveBackup(s, "b", src, dst);
            && r.Ok? && Lone(w) && "b" in w.placements && w.placements["b"] == dst && w.tiers.Keys == s.tiers.Keys
            && RefCount(w.refs, "h") == RefCount(s.refs, "h") - 1
            && (src != dst ==> On(w, dst)) && (RefCount(s.refs, "h") > 1 ==> On(w, src))
  {
    hide MoveBackup, RefCount;
    assert s.manifests["b"] == ["h"];
    MoveExactly(s, "b", src, dst);
    MoveFrame(s, "b", src, dst);
    MoveKeepsSeals(s, "b", src, dst);
    if src != dst {
      MoveArrives(s, "b", src, dst, "h");
    }
  }

  lemma {:induction false} LonePhases(s: Lifecycle, p: Policy)
    requires Lone(s)
    ensures EvaluateMovement(s, p, -1) == EvaluateArchival(s, p, -1) == EvaluateSeal(s, p, -1) == EvaluateCleanup(s, p, -1) == []
    ensures Home(s, p, "b") == p.perf ==> EvaluateMovement(s, p, p.capacityMoveDays * DAY) == ["b"]
    ensures p.archiveMoveDays.Some? && Home(s, p, "b") == p.cap ==> EvaluateArchival(s, p, p.archiveMoveDays.value * DAY) == ["b"]
  {
    assert s.listing[0] == Entry("b", 0) && s.listing[1..] == [];
    assert forall chosen :: Select(s.listing, chosen) == (if chosen(s.listing[0]) then ["b"] else []) + [];
  }

  lemma {:induction false} MoveNone(s: Lifecycle, src: TierId, dst: TierId)
    ensures MoveAll(s, [], src, dst) == (s, Ok(0))
  {
  }

  lemma {:induction false} MoveLone(s: Lifecycle, src: TierId, dst: TierId)
    requires MoveBackup(s, "b", src, dst).1.Ok?
    ensures MoveAll(s, ["b"], src, dst) == MoveBackup(s, "b", src, dst)
  {
    hide MoveBackup;
    assert ["b"][1..] == [];
    MoveNone(MoveBackup(s, "b", src, dst).0, src, dst);
  }

  /** Without sealing and retention a run is its two moving phases. */
  lemma {:induction false} QuietRun(s: Lifecycle, p: Policy, at: Clocks)
    requires at.sealing == -1 && at.retention == -1
    requires MoveAll(s, EvaluateMovement(s, p, at.movement), p.perf, p.cap).1.Ok?
    requires var s1 := MoveAll(s, EvaluateMovement(s, p, at.movement), p.perf, p.cap).0;
             Archive(s1, p, at.archival).1.Ok? && Lone(Archive(s1, p, at.archival).0)
    ensures var s1 := MoveAll(s, EvaluateMovement(s, p, at.movement), p.perf, p.cap).0;
            ExecutePolicy(s, p, at).0 == Archive(s1, p, at.archival).0 && ExecutePolicy(s, p, at).1.Ok?
  {
    hide MoveAll, Archive, EvaluateMovement, EvaluateSeal, EvaluateCleanup, Lone;
    var s1 := MoveAll(s, EvaluateMovement(s, p, at.movement), p.perf, p.cap).0;
    LonePhases(Archive(s1, p, at.archival).0, p);
  }

  /** Performance and capacity are one tier: each run moves the backup onto itself. */
  lemma {:induction false} RunOnOneTier(s: Lifecycle, p: Policy)
    requires p.perf == p.cap && Lone(s) && Home(s, p, "b") == p.perf && On(s, p.perf) && RefCount(s.refs, "h") > 1
    ensures var (w, r) := ExecutePolicy(s, p, Clocks(p.capacityMoveDays * DAY, -1, -1, -1));
            && r.Ok? && Lone(w) && Home(w, p, "b") == p.perf && On(w, p.perf) && RefCount(w.refs, "h") == RefCount(s.refs, "h") - 1
  {
    hide MoveBackup, MoveAll, EvaluateMovement, EvaluateArchival, RefCount, ExecutePolicy, Lone;
    LonePhases(s, p);
    LoneMove(s, p.perf, p.cap);
    MoveLone(s, p.perf, p.cap);
    var s1 := MoveBackup(s, "b", p.perf, p.cap).0;
    LonePhases(s1, p);
    if p.archive.Some? {
      MoveNone(s1, p.cap, p.archive.value);
    }
    QuietRun(s, p, Clocks(p.capacityMoveDays * DAY, -1, -1, -1));
  }

  /** Capacity and archive are one tier: each run archives the backup onto itself. */
  lemma {:induction false} RunOnArchive(s: Lifecycle, p: Policy)
    requires p.archiveMoveDays.Some? && p.archive == Some(p.cap)
    requires Lone(s) && Home(s, p, "b") == p.cap && On(s, p.cap) && RefCount(s.refs, "h") > 1
    ensures var (w, r) := ExecutePolicy(s, p, Clocks(-1, p.archiveMoveDays.value * DAY, -1, -1));
            && r.Ok? && Lone(w) && Home(w, p, "b") == p.cap && On(w, p.cap) && RefCount(w.refs, "h") == RefCount(s.refs, "h") - 1
  {
    hide MoveBackup, MoveAll, EvaluateMovement, EvaluateArchival, RefCount, ExecutePolicy, Lone;
    LonePhases(s, p);
    MoveNone(s, p.perf, p.cap);
    LoneMove(s, p.cap, p.cap);
    MoveLone(s, p.cap, p.cap);
    QuietRun(s, p, Clocks(-1, p.archiveMoveDays.value * DAY, -1, -1));
  }

  /** Archive and performance are one tier: each run takes the backup to capacity and back. */
  lemma {:induction false} RunInCircle(s: Lifecycle, p: Policy)
    requires p.perf != p.cap && p.archiveMoveDays.Some? && p.archive == Some(p.perf)
    requires Lone(s) && Home(s, p, "b") == p.perf && On(s, p.perf) && p.cap in s.tiers && RefCount(s.refs, "h") > 1
    ensures var (w, r) := ExecutePolicy(s, p, Clocks(p.capacityMoveDays * DAY, p.archiveMoveDays.value * DAY, -1, -1));
            && r.Ok? && Lone(w) && Home(w, p, "b") == p.perf && On(w, p.perf) && p.cap in w.tiers
            && RefCount(w.refs, "h") == RefCount(s.refs, "h") - 2
  {
    hide MoveBackup, MoveAll, EvaluateMovement, EvaluateArchival, RefCount, ExecutePolicy, Lone;
    LonePhases(s, p);
    LoneMove(s, p.perf, p.cap);
    MoveLone(s, p.perf, p.cap);
    var s1 := MoveBackup(s, "b", p.perf, p.cap).0;
    LonePhases(s1, p);
    LoneMove(s1, p.cap, p.perf);
    MoveLone(s1, p.cap, p.perf);
    QuietRun(s, p, Clocks(p.capacityMoveDays * DAY, p.archiveMoveDays.value * DAY, -1, -1));
  }

  /** A policy settles in one run, from every state and at all clocks, exactly when the tiers it moves backups between are different ones. */
  lemma {:induction false} SettlesExactly(p: Policy)
    ensures Settles(p) <==> DistinctTiers(p)
  {
    hide ExecutePolicy;
    if DistinctTiers(p) {
      forall s: Lifecycle, at: Clocks | ExecutePolicy(s, p, at).1.Ok?
        ensures ExecutePolicy(ExecutePolicy(s, p, at).0, p, at) == (ExecutePolicy(s, p, at).0, Ok(0))
      {
        SecondRunDoesNothing(s, p, at);
      }
    } else {
      var full, empty := Tier(map["h" := []], {}), Tier(map[], {});
      var s := Lifecycle(map["h" := 4], map["b" := ["h"]], [Entry("b", 0)], map[p.cap := full, p.perf := full], map["b" := p.perf]);
      if p.perf == p.cap {
        RunOnOneTier(s, p);
        var at := Clocks(p.capacityMoveDays * DAY, -1, -1, -1);
        RunOnOneTier(ExecutePolicy(s, p, at).0, p);
      } else if ArchiveTier(p) == Some(p.cap) {
        var t := s.(placements := map["b" := p.cap]);
        var at := Clocks(-1, p.archiveMoveDays.value * DAY, -1, -1);
        RunOnArchive(t, p);
        RunOnArchive(ExecutePolicy(t, p, at).0, p);
      } else {
        var at := Clocks(p.capacityMoveDays * DAY, p.archiveMoveDays.value * DAY, -1, -1);
        RunInCircle(s, p);
        RunInCircle(ExecutePolicy(s, p, at).0, p);
      }
    }
  }
}
