/**
 * DataLifecycleEngine in the source's form (core/src/sobr/policy.rs:20-274,
 * core/src/sobr/tier.rs:101-165): the index, the tier backends and the placements are
 * updated in place, in loops, and every operation is tied to its function in Sobr, so
 * that what Tiering and Migration prove of those functions holds of it.
 */
module LifecycleEngine {
  import opened Common
  import opened Codec
  import opened Vault
  import Sobr

  class DataLifecycleEngine {
    var refs: map<Hash, nat>
    var manifests: map<SnapId, seq<Hash>>
    var listing: seq<Sobr.Entry>
    var tiers: map<Sobr.TierId, Sobr.Tier>
    var placements: map<SnapId, Sobr.TierId>

    ghost function View(): Sobr.Lifecycle
      reads this
    {
      Sobr.Lifecycle(refs, manifests, listing, tiers, placements)
    }

    /** The index is shared; a new engine knows no tiers and no placements. */
    constructor (refs: map<Hash, nat>, manifests: map<SnapId, seq<Hash>>, listing: seq<Sobr.Entry>)
      ensures View() == Sobr.Lifecycle(refs, manifests, listing, map[], map[])
    {
      this.refs := refs;
      this.manifests := manifests;
      this.listing := listing;
      tiers := map[];
      placements := map[];
    }

    method RegisterTierBackend(id: Sobr.TierId, backend: Sobr.Tier)
      modifies `tiers
      ensures tiers == old(tiers)[id := backend]
    {
      tiers := tiers[id := backend];
    }

    // -------------------------------------------------------------- evaluation

    /** The home tier of a backup is its placement, or else the performance tier. */
    method Placement(p: Sobr.Policy, id: SnapId) returns (t: Sobr.TierId)
      ensures t == Sobr.Home(View(), p, id)
    {
      t := if id in placements then placements[id] else p.perf;
    }

    method IsSealed(p: Sobr.Policy, id: SnapId) returns (sealed: bool)
      ensures sealed == Sobr.IsSealed(View(), p, id)
    {
      var t := Placement(p, id);
      sealed := t in tiers && id in tiers[t].sealed;
    }

    method EvaluateMovement(p: Sobr.Policy, now: int) returns (out: seq<SnapId>)
      ensures out == Sobr.EvaluateMovement(View(), p, now)
    {
      hide Sobr.Select;
      ghost var chosen := Sobr.Movable(View(), p, now);
      out := [];
      Sobr.SelectEnds(listing, chosen, out);
      var i := 0;
      while i < |listing|
        invariant 0 <= i <= |listing|
        invariant out + Sobr.Select(listing[i..], chosen) == Sobr.Select(listing, chosen)
      {
        var e := listing[i];
        Sobr.SelectStep(listing, i, chosen, out);
        var t := Placement(p, e.id);
        var sealed := IsSealed(p, e.id);
        if e.createdAt <= now - p.capacityMoveDays * Sobr.DAY && t == p.perf && !sealed {
          out := out + [e.id];
        }
        i := i + 1;
      }
      Sobr.SelectEnds(listing, chosen, out);
    }

    method EvaluateArchival(p: Sobr.Policy, now: int) returns (out: seq<SnapId>)
      ensures out == Sobr.EvaluateArchival(View(), p, now)
    {
      hide Sobr.Select;
      out := [];
      if p.archiveMoveDays.None? {
        return;
      }
      ghost var chosen := Sobr.Archivable(View(), p, now, p.archiveMoveDays.value);
      Sobr.SelectEnds(listing, chosen, out);
      var i := 0;
      while i < |listing|
        invariant 0 <= i <= |listing|
        invariant out + Sobr.Select(listing[i..], chosen) == Sobr.Select(listing, chosen)
      {
        var e := listing[i];
        Sobr.SelectStep(listing, i, chosen, out);
        var t := Placement(p, e.id);
        var sealed := IsSealed(p, e.id);
        if e.createdAt <= now - p.archiveMoveDays.value * Sobr.DAY && t == p.cap && !sealed {
          out := out + [e.id];
        }
        i := i + 1;
      }
      Sobr.SelectEnds(listing, chosen, out);
    }

    method EvaluateCleanup(p: Sobr.Policy, now: int) returns (out: seq<SnapId>)
      ensures out == Sobr.EvaluateCleanup(View(), p, now)
    {
      hide Sobr.Select;
      out := [];
      if p.retentionDays.None? {
        return;
      }
      ghost var chosen := Sobr.Expired(View(), p, now, p.retentionDays.value);
      Sobr.SelectEnds(listing, chosen, out);
      var i := 0;
      while i < |listing|
        invariant 0 <= i <= |listing|
        invariant out + Sobr.Select(listing[i..], chosen) == Sobr.Select(listing, chosen)
      {
        var e := listing[i];
        Sobr.SelectStep(listing, i, chosen, out);
        var sealed := IsSealed(p, e.id);
        if e.createdAt <= now - p.retentionDays.value * Sobr.DAY && !sealed {
          out := out + [e.id];
        }
        i := i + 1;
      }
      Sobr.SelectEnds(listing, chosen, out);
    }

    // -------------------------------------------------------------- blocks

    /** The distinct blocks of a manifest in the order of their first occurrence. */
    method DistinctShas(blocks: seq<Hash>) returns (shas: seq<Hash>)
      ensures shas == Sobr.Unique(blocks)
    {
      shas := [];
      var seen: set<Hash> := {};
      var i := 0;
      while i < |blocks|
        invariant 0 <= i <= |blocks|
        invariant shas == Sobr.Unique(blocks[..i])
        invariant forall h :: h in seen <==> h in blocks[..i]
      {
        assert blocks[..i + 1][..i] == blocks[..i] && blocks[..i + 1] == blocks[..i] + [blocks[i]];
        if blocks[i] !in seen {
          seen := seen + {blocks[i]};
          shas := shas + [blocks[i]];
        }
        i := i + 1;
      }
      assert blocks[..i] == blocks;
    }

    method CopyBlocksTo(src: Sobr.TierId, dst: Sobr.TierId, ids: seq<Hash>) returns (r: Sobr.Outcome)
      requires src in tiers && dst in tiers
      modifies `tiers
      ensures (tiers, r) == Sobr.CopyBlocks(old(tiers), src, dst, ids)
      ensures src in tiers
    {
      var copied := 0;
      var i := 0;
      while i < |ids|
        invariant 0 <= i <= |ids| && src in tiers && dst in tiers
        invariant var (w, rest) := Sobr.CopyBlocks(tiers, src, dst, ids[i..]);
                  Sobr.CopyBlocks(old(tiers), src, dst, ids) == (w, Sobr.More(copied, rest))
      {
        assert ids[i..][0] == ids[i] && ids[i..][1..] == ids[i + 1..];
        if ids[i] !in tiers[src].blocks {
          return Err(Sobr.BlockUnreadable);
        }
        var data := tiers[src].blocks[ids[i]];
        tiers := tiers[dst := tiers[dst].(blocks := tiers[dst].blocks[ids[i] := data])];
        copied := copied + |data|;
        i := i + 1;
      }
      return Ok(copied);
    }

    /** The decrement and the sweep of one index transaction; says whether the row was freed. */
    method RemoveBlock(id: Hash) returns (freed: bool)
      modifies `refs
      ensures refs == Removed(old(refs), id) && freed == Frees(old(refs), id)
    {
      freed := false;
      if id in refs && refs[id] > 0 {
        refs := refs[id := refs[id] - 1];
        if refs[id] == 0 {
          refs := refs - {id};
          freed := true;
        }
      }
    }

    /** Each block gives up one reference; a freed one leaves the tier. */
    method ReleaseBlocks(src: Sobr.TierId, ids: seq<Hash>)
      requires src in tiers
      modifies `refs, `tiers
      ensures View() == Sobr.ReleaseBlocks(old(View()), src, ids)
    {
      var i := 0;
      while i < |ids|
        invariant 0 <= i <= |ids| && src in tiers
        invariant Sobr.ReleaseBlocks(View(), src, ids[i..]) == Sobr.ReleaseBlocks(old(View()), src, ids)
      {
        assert ids[i..][0] == ids[i] && ids[i..][1..] == ids[i + 1..];
        ghost var before := View();
        var freed := RemoveBlock(ids[i]);
        if freed {
          tiers := tiers[src := tiers[src].(blocks := tiers[src].blocks - {ids[i]})];
        }
        assert View() == Sobr.ReleaseBlock(before, src, ids[i]);
        i := i + 1;
      }
    }

    // -------------------------------------------------------------- operations

    method MoveBackup(id: SnapId, src: Sobr.TierId, dst: Sobr.TierId) returns (r: Sobr.Outcome)
      modifies this
      ensures (View(), r) == Sobr.MoveBackup(old(View()), id, src, dst)
    {
      if src !in tiers || dst !in tiers {
        return Err(Sobr.TierNotRegistered);
      }
      if id !in manifests {
        return Err(Sobr.NoManifest);
      }
      var shas := DistinctShas(manifests[id]);
      r := CopyBlocksTo(src, dst, shas);
      if r.Ok? {
        ReleaseBlocks(src, shas);
        placements := placements[id := dst];
      }
    }

    method MoveAll(ids: seq<SnapId>, src: Sobr.TierId, dst: Sobr.TierId) returns (r: Sobr.Outcome)
      modifies this
      ensures (View(), r) == Sobr.MoveAll(old(View()), ids, src, dst)
    {
      hide Sobr.MoveBackup;
      var moved := 0;
      var i := 0;
      while i < |ids|
        invariant 0 <= i <= |ids|
        invariant var (w, rest) := Sobr.MoveAll(View(), ids[i..], src, dst);
                  Sobr.MoveAll(old(View()), ids, src, dst) == (w, Sobr.More(moved, rest))
      {
        assert ids[i..][0] == ids[i] && ids[i..][1..] == ids[i + 1..];
        r := MoveBackup(ids[i], src, dst);
        if r.Err? {
          return;
        }
        moved := moved + r.value;
        i := i + 1;
      }
      return Ok(moved);
    }

    /** The seal list of the tier is rewritten with the backup in it. */
    method SealBackup(t: Sobr.TierId, id: SnapId)
      requires t in tiers
      modifies `tiers
      ensures tiers == old(tiers)[t := old(tiers)[t].(sealed := old(tiers)[t].sealed + {id})]
    {
      var sealed := tiers[t].sealed;
      if id !in sealed {
        sealed := sealed + {id};
      }
      assert sealed == tiers[t].sealed + {id};
      tiers := tiers[t := tiers[t].(sealed := sealed)];
    }

    method SealAll(p: Sobr.Policy, ids: seq<SnapId>) returns (r: Sobr.Outcome)
      modifies this
      ensures (View(), r) == Sobr.SealAll(old(View()), p, ids)
    {
      hide Sobr.IsSealed, Sobr.Home;
      var sealed := 0;
      var i := 0;
      while i < |ids|
        invariant 0 <= i <= |ids|
        invariant var (w, rest) := Sobr.SealAll(View(), p, ids[i..]);
                  Sobr.SealAll(old(View()), p, ids) == (w, Sobr.More(sealed, rest))
      {
        assert ids[i..][0] == ids[i] && ids[i..][1..] == ids[i + 1..];
        var skip := IsSealed(p, ids[i]);
        if !skip {
          var t := Placement(p, ids[i]);
          if t !in tiers {
            return Err(Sobr.TierNotRegistered);
          }
          SealBackup(t, ids[i]);
          sealed := sealed + 1;
        }
        i := i + 1;
      }
      return Ok(sealed);
    }

    method SealExpired(p: Sobr.Policy, now: int) returns (r: Sobr.Outcome)
      modifies this
      ensures (View(), r) == Sobr.SealAll(old(View()), p, Sobr.EvaluateSeal(old(View()), p, now))
    {
      if p.sealDays.None? {
        return Ok(0);
      }
      var ids := AgeEvaluate(now, p.sealDays.value);
      r := SealAll(p, ids);
    }

    method AgeEvaluate(now: int, days: nat) returns (out: seq<SnapId>)
      ensures out == Sobr.Select(listing, Sobr.Sealable(now, days))
    {
      hide Sobr.Select;
      ghost var chosen := Sobr.Sealable(now, days);
      out := [];
      Sobr.SelectEnds(listing, chosen, out);
      var i := 0;
      while i < |listing|
        invariant 0 <= i <= |listing|
        invariant out + Sobr.Select(listing[i..], chosen) == Sobr.Select(listing, chosen)
      {
        Sobr.SelectStep(listing, i, chosen, out);
        if listing[i].createdAt <= now - days * Sobr.DAY {
          out := out + [listing[i].id];
        }
        i := i + 1;
      }
      Sobr.SelectEnds(listing, chosen, out);
    }

    /** Metadata first, then the blocks, then the placement. */
    method DeleteBackup(id: SnapId, t: Sobr.TierId)
      requires id in manifests && t in tiers
      modifies this
      ensures View() == Sobr.Purge(old(View()), id, t)
    {
      var shas := DistinctShas(manifests[id]);
      manifests := manifests - {id};
      listing := Sobr.Unlisted(listing, id);
      ReleaseBlocks(t, shas);
      placements := placements - {id};
    }

    method ApplyRetention(p: Sobr.Policy, now: int) returns (r: Sobr.Outcome)
      modifies this
      ensures (View(), r) == Sobr.PurgeAll(old(View()), p, Sobr.EvaluateCleanup(old(View()), p, now))
    {
      hide Sobr.Purge;
      var ids := EvaluateCleanup(p, now);
      var deleted := 0;
      var i := 0;
      while i < |ids|
        invariant 0 <= i <= |ids|
        invariant var (w, rest) := Sobr.PurgeAll(View(), p, ids[i..]);
                  Sobr.PurgeAll(old(View()), p, ids) == (w, Sobr.More(deleted, rest))
      {
        assert ids[i..][0] == ids[i] && ids[i..][1..] == ids[i + 1..];
        var t := Placement(p, ids[i]);
        if t !in tiers {
          return Err(Sobr.TierNotRegistered);
        }
        if ids[i] in manifests {
          DeleteBackup(ids[i], t);
          deleted := deleted + 1;
        }
        i := i + 1;
      }
      return Ok(deleted);
    }

    method ArchiveAged(p: Sobr.Policy, now: int) returns (r: Sobr.Outcome)
      modifies this
      ensures (View(), r) == Sobr.Archive(old(View()), p, now)
    {
      if p.archive.None? {
        return Ok(0);
      }
      var ids := EvaluateArchival(p, now);
      r := MoveAll(ids, p.cap, p.archive.value);
    }

    method ExecutePolicy(p: Sobr.Policy, at: Sobr.Clocks) returns (r: Sobr.Outcome)
      modifies this
      ensures (View(), r) == Sobr.ExecutePolicy(old(View()), p, at)
    {
      hide Sobr.MoveAll, Sobr.SealAll, Sobr.PurgeAll, Sobr.Archive, Sobr.EvaluateMovement, Sobr.EvaluateSeal, Sobr.EvaluateCleanup;
      var ids := EvaluateMovement(p, at.movement);
      var moved := MoveAll(ids, p.perf, p.cap);
      if moved.Err? {
        return moved;
      }
      var archived := ArchiveAged(p, at.archival);
      if archived.Err? {
        return archived;
      }
      var sealing := SealExpired(p, at.sealing);
      if sealing.Err? {
        return sealing;
      }
      var deleted := ApplyRetention(p, at.retention);
      if deleted.Err? {
        return deleted;
      }
      return Ok(moved.value + archived.value);
    }
  }
}
