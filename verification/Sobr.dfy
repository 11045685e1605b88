/**
 * The tiered-repository lifecycle engine (DataLifecycleEngine in core/src/sobr/policy.rs
 * over TierBackend in core/src/sobr/tier.rs): movement, archival, sealing, retention.
 *
 * Every operation is a function from a state to a state and an outcome, so a failed
 * operation's partial effects are part of the model. Tiering proves what every run keeps,
 * Migration where the blocks are, and LifecycleEngine is the engine in the source's form.
 */
module Sobr {
  import opened Common
  import opened Codec
  import opened Vault

  type TierId = string

  const DAY: int := 86_400

  datatype Policy = Policy(perf: TierId, cap: TierId, archive: Option<TierId>, capacityMoveDays: nat,
                           archiveMoveDays: Option<nat>, sealDays: Option<nat>, retentionDays: Option<nat>)

  /** The archive tier, if backups ever move there. */
  function ArchiveTier(p: Policy): Option<TierId> {
    if p.archiveMoveDays.Some? then p.archive else None
  }

  /** The tiers backups move between are different ones. */
  predicate DistinctTiers(p: Policy) {
    p.perf != p.cap && ArchiveTier(p) != Some(p.perf) && ArchiveTier(p) != Some(p.cap)
  }

  datatype Tier = Tier(blocks: map<Hash, bytes>, sealed: set<SnapId>)

  datatype Entry = Entry(id: SnapId, createdAt: int)

  datatype Lifecycle = Lifecycle(refs: map<Hash, nat>, manifests: map<SnapId, seq<Hash>>, listing: seq<Entry>,
                                 tiers: map<TierId, Tier>, placements: map<SnapId, TierId>)

  datatype SobrError = TierNotRegistered | NoManifest | BlockUnreadable

  /** A number of bytes or backups, or the error that ended the operation. */
  type Outcome = Result<int, SobrError>

  function More(n: int, r: Outcome): Outcome {
    if r.Ok? then Ok(n + r.value) else r
  }

  // ---------------------------------------------------------------- evaluation

  /** A backup without a recorded placement is on the performance tier. */
  function Home(s: Lifecycle, p: Policy, id: SnapId): TierId {
    if id in s.placements then s.placements[id] else p.perf
  }

  /** A tier that is not registered reads as not sealed. */
  predicate IsSealed(s: Lifecycle, p: Policy, id: SnapId) {
    Home(s, p, id) in s.tiers && id in s.tiers[Home(s, p, id)].sealed
  }

  predicate Aged(e: Entry, now: int, days: nat) {
    e.createdAt <= now - days * DAY
  }

  function Select(listing: seq<Entry>, chosen: Entry -> bool): (ids: seq<SnapId>)
    ensures forall id :: id in ids <==> exists e :: e in listing && chosen(e) && e.id == id
  {
    if listing == [] then []
    else
      assert listing == [listing[0]] + listing[1..];
      (if chosen(listing[0]) then [listing[0].id] else []) + Select(listing[1..], chosen)
  }

  lemma {:induction false} SelectEnds(listing: seq<Entry>, chosen: Entry -> bool, before: seq<SnapId>)
    ensures [] + Select(listing[0..], chosen) == Select(listing, chosen)
    ensures before + Select(listing[|listing|..], chosen) == before
  {
    assert listing[0..] == listing;
  }

  lemma SelectStep(listing: seq<Entry>, i: nat, chosen: Entry -> bool, before: seq<SnapId>)
    requires i < |listing|
    ensures before + Select(listing[i..], chosen) ==
            (if chosen(listing[i]) then before + [listing[i].id] else before) + Select(listing[i + 1..], chosen)
  {
    assert listing[i..][0] == listing[i] && listing[i..][1..] == listing[i + 1..];
  }

  function Movable(s: Lifecycle, p: Policy, now: int): Entry -> bool {
    (e: Entry) => Aged(e, now, p.capacityMoveDays) && Home(s, p, e.id) == p.perf && !IsSealed(s, p, e.id)
  }

  function Archivable(s: Lifecycle, p: Policy, now: int, days: nat): Entry -> bool {
    (e: Entry) => Aged(e, now, days) && Home(s, p, e.id) == p.cap && !IsSealed(s, p, e.id)
  }

  function Sealable(now: int, days: nat): Entry -> bool {
    (e: Entry) => Aged(e, now, days)
  }

  function Expired(s: Lifecycle, p: Policy, now: int, days: nat): Entry -> bool {
    (e: Entry) => Aged(e, now, days) && !IsSealed(s, p, e.id)
  }

  function EvaluateMovement(s: Lifecycle, p: Policy, now: int): seq<SnapId> {
    Select(s.listing, Movable(s, p, now))
  }

  function EvaluateArchival(s: Lifecycle, p: Policy, now: int): seq<SnapId> {
    if p.archiveMoveDays.None? then [] else Select(s.listing, Archivable(s, p, now, p.archiveMoveDays.value))
  }

  function EvaluateSeal(s: Lifecycle, p: Policy, now: int): seq<SnapId> {
    if p.sealDays.None? then [] else Select(s.listing, Sealable(now, p.sealDays.value))
  }

  function EvaluateCleanup(s: Lifecycle, p: Policy, now: int): seq<SnapId> {
    if p.retentionDays.None? then [] else Select(s.listing, Expired(s, p, now, p.retentionDays.value))
  }

  // ---------------------------------------------------------------- moving

  /** First occurrences. */
  function Unique(ids: seq<Hash>): (us: seq<Hash>)
    ensures forall id :: id in us <==> id in ids
    ensures forall i, j :: 0 <= i < j < |us| ==> us[i] != us[j]
  {
    if ids == [] then []
    else
      var init, last := ids[..|ids| - 1], ids[|ids| - 1];
      assert ids == init + [last];
      if last in init then Unique(init) else Unique(init) + [last]
  }

  function PutBlock(tiers: map<TierId, Tier>, t: TierId, id: Hash, raw: bytes): map<TierId, Tier>
    requires t in tiers
  {
    tiers[t := tiers[t].(blocks := tiers[t].blocks[id := raw])]
  }

  function DropBlock(tiers: map<TierId, Tier>, t: TierId, id: Hash): map<TierId, Tier>
    requires t in tiers
  {
    tiers[t := tiers[t].(blocks := tiers[t].blocks - {id})]
  }

  /** Block by block; a block that cannot be read ends the copy with the earlier ones copied. */
  function CopyBlocks(tiers: map<TierId, Tier>, src: TierId, dst: TierId, ids: seq<Hash>): (map<TierId, Tier>, Outcome)
    requires src in tiers && dst in tiers
    decreases |ids|
  {
    if ids == [] then (tiers, Ok(0))
    else if ids[0] !in tiers[src].blocks then (tiers, Err(BlockUnreadable))
    else
      var raw := tiers[src].blocks[ids[0]];
      var (tiers', r) := CopyBlocks(PutBlock(tiers, dst, ids[0], raw), src, dst, ids[1..]);
      (tiers', More(|raw|, r))
  }

  /** Each block gives up one reference; one that was the last leaves the tier. */
  function ReleaseBlock(s: Lifecycle, src: TierId, id: Hash): Lifecycle
    requires src in s.tiers
  {
    s.(refs := Removed(s.refs, id), tiers := if Frees(s.refs, id) then DropBlock(s.tiers, src, id) else s.tiers)
  }

  function ReleaseBlocks(s: Lifecycle, src: TierId, ids: seq<Hash>): (r: Lifecycle)
    requires src in s.tiers
    decreases |ids|
  {
    if ids == [] then s else ReleaseBlocks(ReleaseBlock(s, src, ids[0]), src, ids[1..])
  }

  function MoveBackup(s: Lifecycle, id: SnapId, src: TierId, dst: TierId): (Lifecycle, Outcome) {
    if src !in s.tiers || dst !in s.tiers then (s, Err(TierNotRegistered))
    else if id !in s.manifests then (s, Err(NoManifest))
    else
      var ids := Unique(s.manifests[id]);
      var (tiers', r) := CopyBlocks(s.tiers, src, dst, ids);
      if r.Err? then (s.(tiers := tiers'), r)
      else
        CopyFrame(s.tiers, src, dst, ids);
        (ReleaseBlocks(s.(tiers := tiers'), src, ids).(placements := s.placements[id := dst]), r)
  }

  function MoveAll(s: Lifecycle, ids: seq<SnapId>, src: TierId, dst: TierId): (Lifecycle, Outcome)
    decreases |ids|
  {
    if ids == [] then (s, Ok(0))
    else
      var (s', r) := MoveBackup(s, ids[0], src, dst);
      if r.Err? then (s', r)
      else
        var (s'', r') := MoveAll(s', ids[1..], src, dst);
        (s'', More(r.value, r'))
  }

  // ---------------------------------------------------------------- sealing and retention

  function SealAll(s: Lifecycle, p: Policy, ids: seq<SnapId>): (Lifecycle, Outcome)
    decreases |ids|
  {
    if ids == [] then (s, Ok(0))
    else if IsSealed(s, p, ids[0]) then SealAll(s, p, ids[1..])
    else
      var t := Home(s, p, ids[0]);
      if t !in s.tiers then (s, Err(TierNotRegistered))
      else
        var (s', r) := SealAll(s.(tiers := s.tiers[t := s.tiers[t].(sealed := s.tiers[t].sealed + {ids[0]})]), p, ids[1..]);
        (s', More(1, r))
  }

  function Unlisted(listing: seq<Entry>, id: SnapId): (rest: seq<Entry>)
    ensures forall e :: e in rest <==> e in listing && e.id != id
  {
    if listing == [] then []
    else
      assert listing == [listing[0]] + listing[1..];
      (if listing[0].id == id then [] else [listing[0]]) + Unlisted(listing[1..], id)
  }

  /** Metadata first, then the blocks. */
  function Purge(s: Lifecycle, id: SnapId, t: TierId): Lifecycle
    requires id in s.manifests && t in s.tiers
  {
    var s1 := s.(manifests := s.manifests - {id}, listing := Unlisted(s.listing, id));
    ReleaseBlocks(s1, t, Unique(s.manifests[id])).(placements := s.placements - {id})
  }

  function PurgeAll(s: Lifecycle, p: Policy, ids: seq<SnapId>): (Lifecycle, Outcome)
    decreases |ids|
  {
    if ids == [] then (s, Ok(0))
    else
      var t := Home(s, p, ids[0]);
      if t !in s.tiers then (s, Err(TierNotRegistered))
      else if ids[0] !in s.manifests then PurgeAll(s, p, ids[1..])
      else
        var (s', r) := PurgeAll(Purge(s, ids[0], t), p, ids[1..]);
        (s', More(1, r))
  }

  function Archive(s: Lifecycle, p: Policy, now: int): (Lifecycle, Outcome) {
    if p.archive.None? then (s, Ok(0)) else MoveAll(s, EvaluateArchival(s, p, now), p.cap, p.archive.value)
  }

  /** Each phase of a run reads the clock for itself. */
  datatype Clocks = Clocks(movement: int, archival: int, sealing: int, retention: int)

  function ExecutePolicy(s: Lifecycle, p: Policy, at: Clocks): (Lifecycle, Outcome) {
    var (s1, moved) := MoveAll(s, EvaluateMovement(s, p, at.movement), p.perf, p.cap);
    if moved.Err? then (s1, moved)
    else
      var (s2, archived) := Archive(s1, p, at.archival);
      if archived.Err? then (s2, archived)
      else
        var (s3, sealing) := SealAll(s2, p, EvaluateSeal(s2, p, at.sealing));
        if sealing.Err? then (s3, sealing)
        else
          var (s4, deleted) := PurgeAll(s3, p, EvaluateCleanup(s3, p, at.retention));
          if deleted.Err? then (s4, deleted) else (s4, Ok(moved.value + archived.value))
  }

  // ---------------------------------------------------------------- frames

  /** The same tiers are registered, and they have at least the seals they had. */
  predicate SealsKept(a: map<TierId, Tier>, b: map<TierId, Tier>) {
    a.Keys == b.Keys && forall t :: t in a ==> a[t].sealed <= b[t].sealed
  }

  lemma {:induction false} CopyFrame(tiers: map<TierId, Tier>, src: TierId, dst: TierId, ids: seq<Hash>)
    requires src in tiers && dst in tiers
    ensures SealsKept(tiers, CopyBlocks(tiers, src, dst, ids).0)
    decreases |ids|
  {
    if ids != [] && ids[0] in tiers[src].blocks {
      CopyFrame(PutBlock(tiers, dst, ids[0], tiers[src].blocks[ids[0]]), src, dst, ids[1..]);
    }
  }

  lemma {:induction false} ReleaseFrame(s: Lifecycle, src: TierId, ids: seq<Hash>)
    requires src in s.tiers
    ensures var r := ReleaseBlocks(s, src, ids);
            SealsKept(s.tiers, r.tiers) && r.manifests == s.manifests && r.listing == s.listing && r.placements == s.placements
    decreases |ids|
  {
    if ids != [] {
      ReleaseFrame(ReleaseBlock(s, src, ids[0]), src, ids[1..]);
    }
  }

  lemma MoveFrame(s: Lifecycle, id: SnapId, src: TierId, dst: TierId)
    ensures var (s', r) := MoveBackup(s, id, src, dst);
            && SealsKept(s.tiers, s'.tiers) && s'.manifests == s.manifests && s'.listing == s.listing
            && s'.placements == if r.Ok? then s.placements[id := dst] else s.placements
  {
    if src in s.tiers && dst in s.tiers && id in s.manifests {
      var ids := Unique(s.manifests[id]);
      CopyFrame(s.tiers, src, dst, ids);
      ReleaseFrame(s.(tiers := CopyBlocks(s.tiers, src, dst, ids).0), src, ids);
    }
  }

  /** Moving changes no rows, manifests or seals, and only the moved backups' placements. */
  lemma {:induction false} MoveAllFrame(s: Lifecycle, ids: seq<SnapId>, src: TierId, dst: TierId)
    ensures var (s', r) := MoveAll(s, ids, src, dst);
            && SealsKept(s.tiers, s'.tiers) && s'.manifests == s.manifests && s'.listing == s.listing
            && (forall x :: x !in ids ==> (x in s'.placements <==> x in s.placements) && (x in s.placements ==> s'.placements[x] == s.placements[x]))
            && (forall x :: x in ids && x in s'.placements ==> s'.placements[x] == dst || (x in s.placements && s'.placements[x] == s.placements[x]))
            && (r.Ok? ==> forall x :: x in ids ==> x in s'.placements && s'.placements[x] == dst)
            && s.placements.Keys <= s'.placements.Keys
    decreases |ids|
  {
    hide MoveBackup;
    if ids != [] {
      assert ids == [ids[0]] + ids[1..];
      MoveFrame(s, ids[0], src, dst);
      var (s1, r) := MoveBackup(s, ids[0], src, dst);
      if r.Ok? {
        MoveAllFrame(s1, ids[1..], src, dst);
      }
    }
  }

  lemma {:induction false} SealFrame(s: Lifecycle, p: Policy, ids: seq<SnapId>)
    ensures var (s', r) := SealAll(s, p, ids);
            && SealsKept(s.tiers, s'.tiers) && s' == s.(tiers := s'.tiers)
            && (r.Ok? ==> forall x :: x in ids ==> IsSealed(s', p, x))
            && (r == Ok(0) ==> s' == s)
            && (r.Ok? ==> r.value >= 0)
    decreases |ids|
  {
    if ids != [] {
      assert ids == [ids[0]] + ids[1..];
      var t := Home(s, p, ids[0]);
      if IsSealed(s, p, ids[0]) {
        SealFrame(s, p, ids[1..]);
      } else if t in s.tiers {
        SealFrame(s.(tiers := s.tiers[t := s.tiers[t].(sealed := s.tiers[t].sealed + {ids[0]})]), p, ids[1..]);
      }
    }
  }
}
