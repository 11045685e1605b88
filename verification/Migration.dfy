/**
 * Where the blocks are, over any series of lifecycle runs without archive and retention
 * (core/src/sobr/policy.rs:150-181, 227-244): the refcounts count the backups not yet
 * moved, their blocks are on the performance tier, moved backups are byte-identical on
 * the capacity tier, and a block leaves the performance tier exactly with its last
 * unmoved backup.
 */
module Migration {
  import opened Common
  import opened Codec
  import opened Vault
  import opened Sobr
  import opened Tiering

  /** The listed backups that are still on the performance tier. */
  ghost function Unmoved(s: Lifecycle, p: Policy): set<SnapId> {
    set e | e in s.listing && Home(s, p, e.id) == p.perf :: e.id
  }

  /** The unmoved backups whose manifest holds the block. */
  ghost function Holders(s: Lifecycle, p: Policy, h: Hash): set<SnapId> {
    set id | id in Unmoved(s, p) && id in s.manifests && h in s.manifests[id]
  }

  predicate Has(tiers: map<TierId, Tier>, t: TierId, content: map<Hash, bytes>, h: Hash) {
    t in tiers && h in content && h in tiers[t].blocks && tiers[t].blocks[h] == content[h]
  }

  predicate DistinctIds(listing: seq<Entry>) {
    forall i, j :: 0 <= i < j < |listing| ==> listing[i].id != listing[j].id
  }

  predicate Stocked(s: Lifecycle, p: Policy, content: map<Hash, bytes>) {
    && DistinctIds(s.listing)
    && (forall e :: e in s.listing ==> e.id in s.manifests && Home(s, p, e.id) in s.tiers)
    && (forall e, h :: e in s.listing && h in s.manifests[e.id] && Home(s, p, e.id) == p.perf ==> Has(s.tiers, p.perf, content, h))
    && (forall e, h :: e in s.listing && h in s.manifests[e.id] && Home(s, p, e.id) == p.cap ==> Has(s.tiers, p.cap, content, h))
  }

  ghost predicate Tidy(s: Lifecycle, p: Policy, content: map<Hash, bytes>) {
    && p.perf != p.cap && p.perf in s.tiers && p.cap in s.tiers
    && Stocked(s, p, content)
    && forall h :: RefCount(s.refs, h) == |Holders(s, p, h)|
  }

  // ---------------------------------------------------------------- copying and releasing

  function Volume(content: map<Hash, bytes>, ids: seq<Hash>): nat {
    if ids == [] then 0 else (if ids[0] in content then |content[ids[0]]| else 0) + Volume(content, ids[1..])
  }

  lemma {:induction false} CopyEffect(tiers: map<TierId, Tier>, src: TierId, dst: TierId, content: map<Hash, bytes>, ids: seq<Hash>)
    requires src != dst && src in tiers && dst in tiers && forall h :: h in ids ==> Has(tiers, src, content, h)
    ensures var (w, r) := CopyBlocks(tiers, src, dst, ids);
            && r == Ok(Volume(content, ids)) && w.Keys == tiers.Keys && w[src] == tiers[src]
            && (forall h :: h in ids ==> Has(w, dst, content, h))
            && (forall h :: Has(tiers, dst, content, h) ==> Has(w, dst, content, h))
    decreases |ids|
  {
    if ids != [] {
      assert ids == [ids[0]] + ids[1..];
      assert Has(tiers, src, content, ids[0]);
      var w := PutBlock(tiers, dst, ids[0], tiers[src].blocks[ids[0]]);
      assert forall h :: h in ids ==> Has(w, src, content, h);
      assert Has(w, dst, content, ids[0]);
      CopyEffect(w, src, dst, content, ids[1..]);
    }
  }

  lemma {:induction false} ReleaseEffect(s: Lifecycle, src: TierId, ids: seq<Hash>)
    requires src in s.tiers && forall i, j :: 0 <= i < j < |ids| ==> ids[i] != ids[j]
    ensures var w := ReleaseBlocks(s, src, ids);
            && (forall h :: RefCount(w.refs, h) == if h in ids && RefCount(s.refs, h) > 0 then RefCount(s.refs, h) - 1 else RefCount(s.refs, h))
            && w.tiers.Keys == s.tiers.Keys && (forall t :: t in s.tiers && t != src ==> w.tiers[t] == s.tiers[t])
            && (forall h :: h in w.tiers[src].blocks <==> h in s.tiers[src].blocks && !(h in ids && Frees(s.refs, h)))
            && (forall h :: h in w.tiers[src].blocks ==> w.tiers[src].blocks[h] == s.tiers[src].blocks[h])
    decreases |ids|
  {
    if ids != [] {
      assert ids == [ids[0]] + ids[1..];
      assert ids[0] !in ids[1..];
      ReleaseEffect(ReleaseBlock(s, src, ids[0]), src, ids[1..]);
    }
  }

  // ---------------------------------------------------------------- moving one backup

  /** What moving does, block by block. */
  ghost predicate Moved(s: Lifecycle, w: Lifecycle, p: Policy, content: map<Hash, bytes>, id: SnapId)
    requires id in s.manifests && p.perf in s.tiers
  {
    && w.manifests == s.manifests && w.listing == s.listing && w.placements == s.placements[id := p.cap]
    && w.tiers.Keys == s.tiers.Keys
    && (forall h :: RefCount(w.refs, h) == if h in s.manifests[id] && RefCount(s.refs, h) > 0 then RefCount(s.refs, h) - 1 else RefCount(s.refs, h))
    && (forall h :: h in w.tiers[p.perf].blocks <==> h in s.tiers[p.perf].blocks && !(h in s.manifests[id] && Frees(s.refs, h)))
    && (forall h :: h in w.tiers[p.perf].blocks ==> w.tiers[p.perf].blocks[h] == s.tiers[p.perf].blocks[h])
    && (forall h :: h in s.manifests[id] ==> Has(w.tiers, p.cap, content, h))
    && (forall h :: Has(s.tiers, p.cap, content, h) ==> Has(w.tiers, p.cap, content, h))
  }

  lemma HasSame(a: map<TierId, Tier>, b: map<TierId, Tier>, t: TierId, content: map<Hash, bytes>)
    requires t in a && t in b && a[t].blocks == b[t].blocks
    ensures forall h :: Has(a, t, content, h) <==> Has(b, t, content, h)
  {
  }

  lemma {:induction false} MoveEffect(s: Lifecycle, p: Policy, content: map<Hash, bytes>, id: SnapId)
    requires p.perf != p.cap && p.perf in s.tiers && p.cap in s.tiers && id in s.manifests
    requires forall h :: h in s.manifests[id] ==> Has(s.tiers, p.perf, content, h)
    ensures var (w, r) := MoveBackup(s, id, p.perf, p.cap);
            r == Ok(Volume(content, Unique(s.manifests[id]))) && Moved(s, w, p, content, id)
  {
    hide CopyBlocks, ReleaseBlocks, Removed, Has, RefCount, Frees, Volume;
    var ids := Unique(s.manifests[id]);
    CopyEffect(s.tiers, p.perf, p.cap, content, ids);
    var (tiers', r) := CopyBlocks(s.tiers, p.perf, p.cap, ids);
    var s1 := s.(tiers := tiers');
    ReleaseFrame(s1, p.perf, ids);
    ReleaseEffect(s1, p.perf, ids);
    HasSame(tiers', ReleaseBlocks(s1, p.perf, ids).tiers, p.cap, content);
  }

  lemma HoldersAfterMove(s: Lifecycle, w: Lifecycle, p: Policy, id: SnapId, h: Hash)
    requires p.perf != p.cap && id in Unmoved(s, p) && id in s.manifests
    requires w.manifests == s.manifests && w.listing == s.listing && w.placements == s.placements[id := p.cap]
    ensures Unmoved(w, p) == Unmoved(s, p) - {id} && Holders(w, p, h) == Holders(s, p, h) - {id}
    ensures |Holders(w, p, h)| == if h in s.manifests[id] then |Holders(s, p, h)| - 1 else |Holders(s, p, h)|
    ensures h in s.manifests[id] ==> (|Holders(s, p, h)| == 1 <==> Holders(w, p, h) == {})
  {
    assert Unmoved(w, p) == Unmoved(s, p) - {id};
    assert Holders(w, p, h) == Holders(s, p, h) - {id};
    assert h in s.manifests[id] <==> id in Holders(s, p, h);
  }

  /** A block leaves the performance tier exactly when its last unmoved backup does; the rest keep their bytes. */
  ghost predicate Left(s: Lifecycle, w: Lifecycle, p: Policy) {
    && p.perf in s.tiers && p.perf in w.tiers
    && (forall h :: Holders(w, p, h) <= Holders(s, p, h))
    && (forall h :: h in w.tiers[p.perf].blocks <==> h in s.tiers[p.perf].blocks && (Holders(s, p, h) == {} || Holders(w, p, h) != {}))
    && (forall h :: h in w.tiers[p.perf].blocks ==> w.tiers[p.perf].blocks[h] == s.tiers[p.perf].blocks[h])
  }

  lemma LeftTransitive(a: Lifecycle, b: Lifecycle, c: Lifecycle, p: Policy)
    requires Left(a, b, p) && Left(b, c, p)
    ensures Left(a, c, p)
  {
    hide Holders;
    forall h ensures Holders(c, p, h) <= Holders(a, p, h) {
      assert Holders(c, p, h) <= Holders(b, p, h) <= Holders(a, p, h);
    }
    forall h ensures h in c.tiers[p.perf].blocks <==> h in a.tiers[p.perf].blocks && (Holders(a, p, h) == {} || Holders(c, p, h) != {}) {
      assert Holders(c, p, h) <= Holders(b, p, h) <= Holders(a, p, h);
    }
  }

  lemma MoveLeaves(s: Lifecycle, w: Lifecycle, p: Policy, content: map<Hash, bytes>, id: SnapId)
    requires Tidy(s, p, content) && id in Unmoved(s, p) && id in s.manifests && Moved(s, w, p, content, id)
    ensures Left(s, w, p)
    ensures forall h :: RefCount(w.refs, h) == |Holders(w, p, h)|
  {
    hide Stocked;
    forall h
      ensures Holders(w, p, h) <= Holders(s, p, h) && RefCount(w.refs, h) == |Holders(w, p, h)|
      ensures h in w.tiers[p.perf].blocks <==> h in s.tiers[p.perf].blocks && (Holders(s, p, h) == {} || Holders(w, p, h) != {})
    {
      HoldersAfterMove(s, w, p, id, h);
      assert h in s.manifests[id] ==> id in Holders(s, p, h);
      assert h !in s.manifests[id] ==> id !in Holders(s, p, h);
    }
  }

  lemma MoveKeepsStocked(s: Lifecycle, w: Lifecycle, p: Policy, content: map<Hash, bytes>, id: SnapId)
    requires Tidy(s, p, content) && id in Unmoved(s, p) && Moved(s, w, p, content, id) && Left(s, w, p)
    ensures Stocked(w, p, content)
  {
    hide RefCount, Frees;
    forall e, h | e in w.listing && h in w.manifests[e.id] && Home(w, p, e.id) == p.perf ensures Has(w.tiers, p.perf, content, h) {
      assert e.id != id && e.id in Unmoved(w, p);
      assert e.id in Holders(w, p, h);
      assert Has(s.tiers, p.perf, content, h);
      assert h in w.tiers[p.perf].blocks;
    }
    forall e, h | e in w.listing && h in w.manifests[e.id] && Home(w, p, e.id) == p.cap ensures Has(w.tiers, p.cap, content, h) {
      if e.id != id {
        assert Home(s, p, e.id) == p.cap;
        assert Has(s.tiers, p.cap, content, h);
      }
    }
  }

  lemma {:induction false} MoveKeepsTidy(s: Lifecycle, p: Policy, content: map<Hash, bytes>, id: SnapId)
    requires Tidy(s, p, content) && id in Unmoved(s, p)
    ensures var (w, r) := MoveBackup(s, id, p.perf, p.cap);
            && id in s.manifests && r == Ok(Volume(content, Unique(s.manifests[id])))
            && Tidy(w, p, content) && Left(s, w, p) && Unmoved(w, p) == Unmoved(s, p) - {id} && w.manifests == s.manifests
  {
    hide MoveBackup;
    var w := MoveBackup(s, id, p.perf, p.cap).0;
    assert forall h :: h in s.manifests[id] ==> Has(s.tiers, p.perf, content, h);
    MoveEffect(s, p, content, id);
    MoveLeaves(s, w, p, content, id);
    MoveKeepsStocked(s, w, p, content, id);
    HoldersAfterMove(s, w, p, id, "");
  }

  // ---------------------------------------------------------------- whole runs

  /** The bytes in the distinct blocks of each of the backups. */
  function Bytes(manifests: map<SnapId, seq<Hash>>, content: map<Hash, bytes>, ids: seq<SnapId>): nat {
    if ids == [] then 0
    else (if ids[0] in manifests then Volume(content, Unique(manifests[ids[0]])) else 0) + Bytes(manifests, content, ids[1..])
  }

  lemma LeftReflexive(s: Lifecycle, p: Policy, content: map<Hash, bytes>)
    requires Tidy(s, p, content)
    ensures Left(s, s, p)
  {
  }

  lemma {:induction false} MoveAllKeepsTidy(s: Lifecycle, p: Policy, content: map<Hash, bytes>, ids: seq<SnapId>)
    requires Tidy(s, p, content) && (forall id :: id in ids ==> id in Unmoved(s, p))
    requires forall i, j :: 0 <= i < j < |ids| ==> ids[i] != ids[j]
    ensures var (w, r) := MoveAll(s, ids, p.perf, p.cap);
            && r == Ok(Bytes(s.manifests, content, ids))
            && Tidy(w, p, content) && Left(s, w, p) && Unmoved(w, p) == Unmoved(s, p) - (set id | id in ids)
    decreases |ids|
  {
    hide MoveBackup, Left, Tidy, Unmoved, Volume;
    LeftReflexive(s, p, content);
    if ids != [] {
      assert ids == [ids[0]] + ids[1..];
      MoveKeepsTidy(s, p, content, ids[0]);
      var w1 := MoveBackup(s, ids[0], p.perf, p.cap).0;
      forall id | id in ids[1..] ensures id in Unmoved(w1, p) {
        assert ids[0] !in ids[1..];
      }
      MoveAllKeepsTidy(w1, p, content, ids[1..]);
      LeftTransitive(s, w1, MoveAll(w1, ids[1..], p.perf, p.cap).0, p);
    }
  }

  lemma {:induction false} SelectDistinct(listing: seq<Entry>, chosen: Entry -> bool)
    requires DistinctIds(listing)
    ensures forall i, j :: 0 <= i < j < |Select(listing, chosen)| ==> Select(listing, chosen)[i] != Select(listing, chosen)[j]
    decreases |listing|
  {
    if listing != [] {
      SelectDistinct(listing[1..], chosen);
      var rest := Select(listing[1..], chosen);
      if chosen(listing[0]) {
        forall j | 0 <= j < |rest| ensures rest[j] != listing[0].id {
          assert rest[j] in rest;
        }
        assert Select(listing, chosen) == [listing[0].id] + rest;
      } else {
        assert Select(listing, chosen) == rest;
      }
    }
  }

  lemma TidyIsDistinct(s: Lifecycle, p: Policy, content: map<Hash, bytes>)
    requires Tidy(s, p, content)
    ensures DistinctIds(s.listing)
  {
  }

  lemma MovementIsDistinct(s: Lifecycle, p: Policy, now: int)
    requires DistinctIds(s.listing)
    ensures forall i, j :: 0 <= i < j < |EvaluateMovement(s, p, now)| ==> EvaluateMovement(s, p, now)[i] != EvaluateMovement(s, p, now)[j]
    ensures forall id :: id in EvaluateMovement(s, p, now) ==> id in Unmoved(s, p)
  {
    SelectDistinct(s.listing, Movable(s, p, now));
  }

  lemma {:induction false} SealingMovesNothing(s: Lifecycle, p: Policy, ids: seq<SnapId>)
    requires forall id :: id in ids ==> Home(s, p, id) in s.tiers
    ensures var (w, r) := SealAll(s, p, ids);
            r.Ok? && w.tiers.Keys == s.tiers.Keys && forall t :: t in s.tiers ==> w.tiers[t].blocks == s.tiers[t].blocks
    decreases |ids|
  {
    if ids != [] {
      assert ids == [ids[0]] + ids[1..];
      var t := Home(s, p, ids[0]);
      if IsSealed(s, p, ids[0]) {
        SealingMovesNothing(s, p, ids[1..]);
      } else {
        var s1 := s.(tiers := s.tiers[t := s.tiers[t].(sealed := s.tiers[t].sealed + {ids[0]})]);
        forall id | id in ids[1..] ensures Home(s1, p, id) in s1.tiers {
          assert id in ids;
        }
        SealingMovesNothing(s1, p, ids[1..]);
      }
    }
  }

  lemma SameBlocksKeepTidy(s: Lifecycle, w: Lifecycle, p: Policy, content: map<Hash, bytes>)
    requires Tidy(s, p, content) && w == s.(tiers := w.tiers) && w.tiers.Keys == s.tiers.Keys
    requires forall t :: t in s.tiers ==> w.tiers[t].blocks == s.tiers[t].blocks
    ensures Tidy(w, p, content) && Left(s, w, p) && Unmoved(w, p) == Unmoved(s, p)
  {
    HasSame(s.tiers, w.tiers, p.perf, content);
    HasSame(s.tiers, w.tiers, p.cap, content);
    assert Unmoved(w, p) == Unmoved(s, p);
    forall h ensures Holders(w, p, h) == Holders(s, p, h) {
    }
  }

  lemma {:induction false} SealingKeepsTidy(s: Lifecycle, p: Policy, content: map<Hash, bytes>, now: int)
    requires Tidy(s, p, content)
    ensures var (w, r) := SealAll(s, p, EvaluateSeal(s, p, now));
            r.Ok? && Tidy(w, p, content) && Left(s, w, p) && Unmoved(w, p) == Unmoved(s, p)
  {
    hide SealAll;
    var ids := EvaluateSeal(s, p, now);
    SealFrame(s, p, ids);
    SealingMovesNothing(s, p, ids);
    SameBlocksKeepTidy(s, SealAll(s, p, ids).0, p, content);
  }

  /** The engine works without an archive tier and without retention. */
  predicate MovesOnly(p: Policy) {
    p.archive.None? && p.retentionDays.None?
  }

  /**
   * One run on a tidy state ends well, moves exactly the selected backups, reports exactly
   * their bytes, and leaves a tidy state; a block leaves the performance tier exactly when
   * no unmoved backup holds it any more.
   */
  lemma {:induction false} RunMoves(s: Lifecycle, p: Policy, content: map<Hash, bytes>, at: Clocks)
    requires Tidy(s, p, content) && MovesOnly(p)
    ensures var (w, r) := ExecutePolicy(s, p, at);
            && r == Ok(Bytes(s.manifests, content, EvaluateMovement(s, p, at.movement)))
            && Tidy(w, p, content) && Left(s, w, p)
            && Unmoved(w, p) == Unmoved(s, p) - (set id | id in EvaluateMovement(s, p, at.movement))
  {
    hide MoveAll, SealAll, EvaluateMovement, EvaluateSeal, Left, Unmoved, Stocked, Holders;
    var ids := EvaluateMovement(s, p, at.movement);
    TidyIsDistinct(s, p, content);
    MovementIsDistinct(s, p, at.movement);
    MoveAllKeepsTidy(s, p, content, ids);
    var s1 := MoveAll(s, ids, p.perf, p.cap).0;
    SealingKeepsTidy(s1, p, content, at.sealing);
    LeftTransitive(s, s1, SealAll(s1, p, EvaluateSeal(s1, p, at.sealing)).0, p);
  }

  /** Any series of such runs: the refcounts keep counting the unmoved backups, moved backups stay byte-identical. */
  lemma {:induction false} RunsMove(s: Lifecycle, p: Policy, content: map<Hash, bytes>, clocks: seq<Clocks>)
    requires Tidy(s, p, content) && MovesOnly(p)
    ensures Tidy(Runs(s, p, clocks), p, content) && Left(s, Runs(s, p, clocks), p)
    decreases |clocks|
  {
    hide ExecutePolicy, Left, Tidy;
    LeftReflexive(s, p, content);
    if clocks != [] {
      RunMoves(s, p, content, clocks[0]);
      var s1 := ExecutePolicy(s, p, clocks[0]).0;
      RunsMove(s1, p, content, clocks[1..]);
      LeftTransitive(s, s1, Runs(s1, p, clocks[1..]), p);
    }
  }
}
