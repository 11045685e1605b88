/**
 * What tier retention does to the blocks (apply_retention in core/src/sobr/policy.rs:186-223):
 * which references it takes, which blocks leave which tier, and that blocks which are
 * counted right are on their tier exactly as long as a backup there holds them.
 */
module Cleanup {
  import opened Common
  import opened Codec
  import opened Vault
  import opened Sobr
  import opened Tiering
  import opened Migration

  // ---------------------------------------------------------------- one backup

  lemma {:induction false} ReleaseSeals(s: Lifecycle, src: TierId, ids: seq<Hash>)
    requires src in s.tiers
    ensures ReleaseBlocks(s, src, ids).tiers.Keys == s.tiers.Keys
    ensures forall t :: t in s.tiers ==> ReleaseBlocks(s, src, ids).tiers[t].sealed == s.tiers[t].sealed
    decreases |ids|
  {
    if ids != [] {
      ReleaseSeals(ReleaseBlock(s, src, ids[0]), src, ids[1..]);
    }
  }

  /**
   * Deleting a backup takes one reference from each of its blocks, and off its tier exactly
   * those that had one reference. Every other block, and every other tier, stays as it was.
   */
  lemma {:induction false} PurgeExactly(s: Lifecycle, id: SnapId, t: TierId)
    requires id in s.manifests && t in s.tiers
    ensures var w := Purge(s, id, t);
            && w.manifests == s.manifests - {id} && w.placements == s.placements - {id}
            && (forall e :: e in w.listing <==> e in s.listing && e.id != id)
            && (forall h :: RefCount(w.refs, h) == RefCount(s.refs, h) - if h in s.manifests[id] && RefCount(s.refs, h) > 0 then 1 else 0)
            && w.tiers.Keys == s.tiers.Keys && (forall u :: u in s.tiers && u != t ==> w.tiers[u] == s.tiers[u])
            && (forall h :: h in w.tiers[t].blocks <==> h in s.tiers[t].blocks && !(h in s.manifests[id] && RefCount(s.refs, h) == 1))
            && (forall h :: h in w.tiers[t].blocks ==> w.tiers[t].blocks[h] == s.tiers[t].blocks[h])
            && w.tiers[t].sealed == s.tiers[t].sealed
  {
    hide ReleaseBlocks, RefCount;
    var ids := Unique(s.manifests[id]);
    var s1 := s.(manifests := s.manifests - {id}, listing := Unlisted(s.listing, id));
    ReleaseFrame(s1, t, ids);
    ReleaseEffect(s1, t, ids);
    ReleaseSeals(s1, t, ids);
  }

  // ---------------------------------------------------------------- the whole phase

  predicate DistinctSnaps(ids: seq<SnapId>) {
    forall i, j :: 0 <= i < j < |ids| ==> ids[i] != ids[j]
  }

  predicate HoldsBlock(ms: map<SnapId, seq<Hash>>, id: SnapId, h: Hash) {
    id in ms && h in ms[id]
  }

  /** How many of the backups hold the block. */
  function Uses(ms: map<SnapId, seq<Hash>>, ids: seq<SnapId>, h: Hash): nat {
    if ids == [] then 0 else (if HoldsBlock(ms, ids[0], h) then 1 else 0) + Uses(ms, ids[1..], h)
  }

  /** The backup at whose deletion the block's references run out is on this tier. */
  ghost predicate Spent(s: Lifecycle, p: Policy, ids: seq<SnapId>, t: TierId, h: Hash) {
    exists k :: 0 <= k < |ids| && SpentAt(s, p, ids, t, h, k)
  }

  predicate SpentAt(s: Lifecycle, p: Policy, ids: seq<SnapId>, t: TierId, h: Hash, k: nat)
    requires k < |ids|
  {
    HoldsBlock(s.manifests, ids[k], h) && Home(s, p, ids[k]) == t && Uses(s.manifests, ids[..k], h) + 1 == RefCount(s.refs, h)
  }

  lemma {:induction false} UsesWithout(ms: map<SnapId, seq<Hash>>, id: SnapId, ids: seq<SnapId>, h: Hash)
    requires id !in ids
    ensures Uses(ms - {id}, ids, h) == Uses(ms, ids, h)
  {
    if ids != [] {
      UsesWithout(ms, id, ids[1..], h);
    }
  }

  /** The state in which the later candidates are looked at. */
  function AfterFirst(s: Lifecycle, p: Policy, id: SnapId): Lifecycle
    requires Home(s, p, id) in s.tiers
  {
    if id in s.manifests then Purge(s, id, Home(s, p, id)) else s
  }

  lemma FirstExactly(s: Lifecycle, p: Policy, id: SnapId)
    requires Home(s, p, id) in s.tiers
    ensures var s1 := AfterFirst(s, p, id);
            && s1.manifests == s.manifests - {id} && s1.tiers.Keys == s.tiers.Keys
            && (forall x :: x != id ==> Home(s1, p, x) == Home(s, p, x))
            && (forall h :: RefCount(s1.refs, h) == Max(RefCount(s.refs, h) - if HoldsBlock(s.manifests, id, h) then 1 else 0, 0))
            && (forall t, h :: t in s.tiers && h in s1.tiers[t].blocks ==> h in s.tiers[t].blocks && s1.tiers[t].blocks[h] == s.tiers[t].blocks[h])
  {
    hide Purge, RefCount;
    if id in s.manifests {
      PurgeExactly(s, id, Home(s, p, id));
    } else {
      assert s.manifests - {id} == s.manifests;
    }
  }

  lemma FirstTakes(s: Lifecycle, p: Policy, id: SnapId, t: TierId, h: Hash)
    requires Home(s, p, id) in s.tiers && t in s.tiers
    ensures t in AfterFirst(s, p, id).tiers
    ensures h in AfterFirst(s, p, id).tiers[t].blocks <==>
            h in s.tiers[t].blocks && !(Home(s, p, id) == t && HoldsBlock(s.manifests, id, h) && RefCount(s.refs, h) == 1)
  {
    hide Purge, RefCount;
    if id in s.manifests {
      PurgeExactly(s, id, Home(s, p, id));
    }
  }

  lemma SpentCons(s: Lifecycle, p: Policy, ids: seq<SnapId>, t: TierId, h: Hash)
    requires ids != [] && DistinctSnaps(ids) && Home(s, p, ids[0]) in s.tiers
    ensures Spent(s, p, ids, t, h) <==>
            (Home(s, p, ids[0]) == t && HoldsBlock(s.manifests, ids[0], h) && RefCount(s.refs, h) == 1)
            || Spent(AfterFirst(s, p, ids[0]), p, ids[1..], t, h)
  {
    hide AfterFirst, RefCount, HoldsBlock, Home;
    var s1, rest := AfterFirst(s, p, ids[0]), ids[1..];
    FirstExactly(s, p, ids[0]);
    assert ids[..0] == [];
    forall k | 0 <= k < |rest|
      ensures SpentAt(s, p, ids, t, h, k + 1) <==> SpentAt(s1, p, rest, t, h, k)
    {
      assert ids[..k + 1][0] == ids[0] && ids[..k + 1][1..] == rest[..k];
      assert rest[k] != ids[0] && ids[0] !in rest[..k];
      UsesWithout(s.manifests, ids[0], rest[..k], h);
      StillHolds(s.manifests, ids[0], rest[k], h);
    }
    if k :| 0 <= k < |ids| && SpentAt(s, p, ids, t, h, k) {
      if k > 0 {
        assert SpentAt(s1, p, rest, t, h, k - 1);
      }
    }
    if k :| 0 <= k < |rest| && SpentAt(s1, p, rest, t, h, k) {
      assert SpentAt(s, p, ids, t, h, k + 1);
    }
    if Home(s, p, ids[0]) == t && HoldsBlock(s.manifests, ids[0], h) && RefCount(s.refs, h) == 1 {
      assert SpentAt(s, p, ids, t, h, 0);
    }
  }

  lemma StillHolds(ms: map<SnapId, seq<Hash>>, id: SnapId, other: SnapId, h: Hash)
    requires other != id
    ensures HoldsBlock(ms - {id}, other, h) <==> HoldsBlock(ms, other, h)
  {
  }

  /** What retention of these candidates leaves in refcounts, manifests and tiers. */
  ghost predicate Retired(s: Lifecycle, p: Policy, ids: seq<SnapId>, w: Lifecycle) {
    && w.manifests == s.manifests - (set id | id in ids) && w.tiers.Keys == s.tiers.Keys
    && (forall h :: RefCount(w.refs, h) == Max(RefCount(s.refs, h) - Uses(s.manifests, ids, h), 0))
    && (forall t, h :: t in s.tiers ==> (h in w.tiers[t].blocks <==> h in s.tiers[t].blocks && !Spent(s, p, ids, t, h)))
    && (forall t, h :: t in s.tiers && h in w.tiers[t].blocks ==> h in s.tiers[t].blocks && w.tiers[t].blocks[h] == s.tiers[t].blocks[h])
  }

  lemma {:induction false} RetiredCons(s: Lifecycle, p: Policy, ids: seq<SnapId>, w: Lifecycle)
    requires ids != [] && DistinctSnaps(ids) && Home(s, p, ids[0]) in s.tiers
    requires Retired(AfterFirst(s, p, ids[0]), p, ids[1..], w)
    ensures Retired(s, p, ids, w)
  {
    hide AfterFirst, Spent, RefCount, HoldsBlock, Home;
    var s1, rest := AfterFirst(s, p, ids[0]), ids[1..];
    FirstExactly(s, p, ids[0]);
    assert ids == [ids[0]] + rest;
    assert (set id | id in ids) == {ids[0]} + (set id | id in rest);
    forall h
      ensures Uses(s1.manifests, rest, h) == Uses(s.manifests, rest, h)
    {
      UsesWithout(s.manifests, ids[0], rest, h);
    }
    forall t, h | t in s.tiers
      ensures h in w.tiers[t].blocks <==> h in s.tiers[t].blocks && !Spent(s, p, ids, t, h)
    {
      SpentCons(s, p, ids, t, h);
      FirstTakes(s, p, ids[0], t, h);
    }
  }

  /** Retention of distinct backups on registered tiers ends well and leaves just that. */
  lemma {:induction false} RetentionExactly(s: Lifecycle, p: Policy, ids: seq<SnapId>)
    requires DistinctSnaps(ids) && forall id :: id in ids ==> Home(s, p, id) in s.tiers
    ensures var (w, r) := PurgeAll(s, p, ids);
            r.Ok? && Retired(s, p, ids, w)
    decreases |ids|
  {
    hide Retired, Purge, Home;
    if ids == [] {
      NothingRetired(s, p);
    } else {
      assert ids == [ids[0]] + ids[1..];
      FirstExactly(s, p, ids[0]);
      var s1 := AfterFirst(s, p, ids[0]);
      RetentionExactly(s1, p, ids[1..]);
      RetiredCons(s, p, ids, PurgeAll(s1, p, ids[1..]).0);
    }
  }

  lemma NothingRetired(s: Lifecycle, p: Policy)
    ensures Retired(s, p, [], s)
  {
    assert s.manifests - (set id: SnapId | id in []) == s.manifests;
  }

  // ---------------------------------------------------------------- counted tiers

  /** The backups placed on the tier whose manifest holds the block. */
  ghost function HoldersOn(s: Lifecycle, p: Policy, t: TierId, h: Hash): set<SnapId> {
    set id | id in s.manifests && Home(s, p, id) == t && h in s.manifests[id]
  }

  /** The refcounts count the backups on this tier, and it has exactly the blocks they hold. */
  ghost predicate CountedOn(s: Lifecycle, p: Policy, t: TierId) {
    && t in s.tiers
    && (forall h :: RefCount(s.refs, h) == |HoldersOn(s, p, t, h)|)
    && (forall h :: h in s.tiers[t].blocks <==> HoldersOn(s, p, t, h) != {})
  }

  lemma OneLess<T>(xs: set<T>, x: T)
    requires x in xs
    ensures |xs - {x}| == |xs| - 1 && (|xs| == 1 <==> xs - {x} == {})
  {
  }

  lemma HoldersAfterPurge(s: Lifecycle, w: Lifecycle, p: Policy, id: SnapId, t: TierId, h: Hash)
    requires id in s.manifests && Home(s, p, id) == t && w.manifests == s.manifests - {id} && w.placements == s.placements - {id}
    ensures HoldersOn(w, p, t, h) == HoldersOn(s, p, t, h) - {id}
    ensures id in HoldersOn(s, p, t, h) <==> h in s.manifests[id]
  {
  }

  lemma {:induction false} PurgeKeepsCounted(s: Lifecycle, p: Policy, id: SnapId, t: TierId)
    requires CountedOn(s, p, t) && id in s.manifests && Home(s, p, id) == t
    ensures CountedOn(Purge(s, id, t), p, t)
  {
    hide Purge, RefCount, HoldersOn, Home;
    PurgeExactly(s, id, t);
    var w := Purge(s, id, t);
    forall h
      ensures RefCount(w.refs, h) == |HoldersOn(w, p, t, h)|
      ensures h in w.tiers[t].blocks <==> HoldersOn(w, p, t, h) != {}
    {
      HoldersAfterPurge(s, w, p, id, t, h);
      if h in s.manifests[id] {
        OneLess(HoldersOn(s, p, t, h), id);
      } else {
        assert HoldersOn(s, p, t, h) - {id} == HoldersOn(s, p, t, h);
      }
    }
  }

  lemma {:induction false} PurgeAllKeepsCounted(s: Lifecycle, p: Policy, ids: seq<SnapId>, t: TierId)
    requires CountedOn(s, p, t) && DistinctSnaps(ids) && forall id :: id in ids ==> Home(s, p, id) == t
    ensures var (w, r) := PurgeAll(s, p, ids);
            r.Ok? && CountedOn(w, p, t) && w.manifests == s.manifests - (set id | id in ids)
    decreases |ids|
  {
    hide CountedOn, Purge, Home;
    CountedTier(s, p, t);
    RetentionExactly(s, p, ids);
    if ids != [] {
      assert ids == [ids[0]] + ids[1..];
      FirstExactly(s, p, ids[0]);
      if ids[0] in s.manifests {
        PurgeKeepsCounted(s, p, ids[0], t);
      }
      PurgeAllKeepsCounted(AfterFirst(s, p, ids[0]), p, ids[1..], t);
    }
  }

  lemma CountedTier(s: Lifecycle, p: Policy, t: TierId)
    requires CountedOn(s, p, t)
    ensures t in s.tiers
  {
  }

  /**
   * Where the refcounts count the backups of one tier and all candidates are on it,
   * retention ends well and leaves on the tier exactly the blocks that a backup with a
   * manifest still holds, counted by how many do; exactly the candidates have lost theirs.
   */
  lemma {:induction false} RetentionKeepsHeld(s: Lifecycle, p: Policy, now: int, t: TierId)
    requires CountedOn(s, p, t) && Migration.DistinctIds(s.listing)
    requires forall id :: id in EvaluateCleanup(s, p, now) ==> Home(s, p, id) == t
    ensures var (w, r) := PurgeAll(s, p, EvaluateCleanup(s, p, now));
            && r.Ok? && w.manifests == s.manifests - (set id | id in EvaluateCleanup(s, p, now))
            && t in w.tiers
            && forall h :: (h in w.tiers[t].blocks <==> HoldersOn(w, p, t, h) != {}) && RefCount(w.refs, h) == |HoldersOn(w, p, t, h)|
  {
    hide PurgeAll, Select, Expired;
    if p.retentionDays.Some? {
      SelectDistinct(s.listing, Expired(s, p, now, p.retentionDays.value));
    }
    PurgeAllKeepsCounted(s, p, EvaluateCleanup(s, p, now), t);
  }
}
