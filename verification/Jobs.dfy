/**
 * The imperative pipeline and job manager: run and process_bytes
 * (core/src/pipeline/mod.rs), the disk loop of VmBackupJob::run (core/src/backup/vm.rs),
 * the recording order of run_backup_inner, delete_snapshot_with_gc and reconcile_index
 * (core/src/job/mod.rs).
 *
 * The object logs every atomic write, and each method is proved to perform exactly the
 * steps that Backup and Lifecycle reason about.
 */
module Jobs {
  import opened Common
  import opened Chunking
  import opened Codec
  import opened Vault
  import opened Backup
  import opened StoredForm
  import opened Lifecycle
  import opened DataPlane
  import opened Accounting
  import History

  /** A scanned file: its path and the successive results of reading it. */
  datatype Input = Input(path: string, readings: seq<bytes>)

  datatype Stats = Stats(deduped: nat, unique: nat, files: nat)

  function SourcesOf(inputs: seq<Input>): (sources: seq<Source>)
    ensures |sources| == |inputs|
    ensures forall i :: 0 <= i < |inputs| ==> sources[i] == Source(inputs[i].path, Flatten(inputs[i].readings))
  {
    if inputs == [] then []
    else
      var last := inputs[|inputs| - 1];
      SourcesOf(inputs[..|inputs| - 1]) + [Source(last.path, Flatten(last.readings))]
  }

  /** The manifest and the counts after the extents `es` went through a run that started at `refs`. */
  predicate Produced(server: Server, refs: set<Hash>, es: seq<Extent>, blocks: Manifest, stats: Stats) {
    blocks == ManifestOf(server, es) && stats.deduped == Hits(server, refs, es) && stats.deduped + stats.unique == |es|
  }

  lemma {:induction false} ProducedNext(server: Server, refs: set<Hash>, es: seq<Extent>, blocks: Manifest, stats: Stats, e: Extent)
    requires Produced(server, refs, es, blocks, stats)
    ensures var hit := Id(server, e) in refs || Id(server, e) in Ids(server, es);
            Produced(server, refs, es + [e], blocks + [BlockOf(server, e)],
                     if hit then stats.(deduped := stats.deduped + 1) else stats.(unique := stats.unique + 1))
  {
    assert (es + [e])[..|es|] == es;
  }

  class JobManager {
    const server: Server
    var rows: set<SnapId>
    var refs: map<Hash, nat>
    var manifests: map<SnapId, Manifest>
    var entries: set<SnapId>
    var store: map<Hash, bytes>
    ghost var origin: State
    ghost var log: seq<Step>

    ghost function View(): State
      reads this
    {
      State(rows, refs, manifests, entries, store)
    }

    /** The durable state is what the logged steps made of the original one. */
    ghost predicate Valid()
      reads this
    {
      View() == ApplyAll(origin, log)
    }

    constructor (server: Server)
      ensures Valid() && View() == EMPTY && this.server == server && log == []
    {
      this.server := server;
      rows, refs, manifests, entries, store := {}, map[], map[], {}, map[];
      origin, log := EMPTY, [];
    }

    // -------------------------------------------------------------- atomic writes

    ghost method Record(step: Step)
      requires View() == Apply(ApplyAll(origin, log), step)
      modifies this`log
      ensures Valid() && log == old(log) + [step]
    {
      ApplyConcat(origin, log, [step]);
      assert ApplyAll(ApplyAll(origin, log), [step]) == Apply(ApplyAll(origin, log), step) by {
        assert [step][1..] == [];
      }
      log := log + [step];
    }

    method WriteBlock(id: Hash, raw: bytes)
      requires Valid()
      modifies this
      ensures Valid() && log == old(log) + [Step.WriteBlock(id, raw)] && origin == old(origin)
      ensures View() == Apply(old(View()), Step.WriteBlock(id, raw))
    {
      store := store[id := raw];
      Record(Step.WriteBlock(id, raw));
    }

    method DeleteBlock(id: Hash)
      requires Valid()
      modifies this
      ensures Valid() && log == old(log) + [Step.DeleteBlock(id)] && origin == old(origin)
      ensures View() == Apply(old(View()), Step.DeleteBlock(id))
    {
      store := store - {id};
      Record(Step.DeleteBlock(id));
    }

    method AddBlock(id: Hash)
      requires Valid()
      modifies this
      ensures Valid() && log == old(log) + [Step.AddBlock(id)] && origin == old(origin)
      ensures View() == Apply(old(View()), Step.AddBlock(id))
    {
      if id in refs {
        refs := refs[id := refs[id] + 1];
      } else {
        refs := refs[id := 1];
      }
      Record(Step.AddBlock(id));
    }

    /** One transaction: decrement if positive, delete the row if that made it zero. */
    method RemoveBlock(id: Hash) returns (freed: bool)
      requires Valid()
      modifies this
      ensures Valid() && log == old(log) + [Step.RemoveBlock(id)] && origin == old(origin)
      ensures View() == Apply(old(View()), Step.RemoveBlock(id)) && (freed <==> Frees(old(refs), id))
    {
      freed := false;
      if id in refs && refs[id] > 0 {
        ghost var before := refs;
        refs := refs[id := refs[id] - 1];
        if refs[id] == 0 {
          refs := refs - {id};
          assert refs == before - {id};
          freed := true;
        }
      }
      Record(Step.RemoveBlock(id));
    }

    method SaveManifest(snap: SnapId, m: Manifest)
      requires Valid()
      modifies this
      ensures Valid() && log == old(log) + [Step.SaveManifest(snap, m)] && origin == old(origin)
      ensures View() == Apply(old(View()), Step.SaveManifest(snap, m))
    {
      manifests := manifests[snap := m];
      Record(Step.SaveManifest(snap, m));
    }

    method AddSnapshot(snap: SnapId)
      requires Valid()
      modifies this
      ensures Valid() && log == old(log) + [AddEntry(snap)] && origin == old(origin)
      ensures View() == Apply(old(View()), AddEntry(snap))
    {
      entries := entries + {snap};
      Record(AddEntry(snap));
    }

    /** Two statements without a transaction: the manifest, then the entry. */
    method DeleteSnapshot(snap: SnapId)
      requires Valid()
      modifies this
      ensures Valid() && log == old(log) + [DropManifest(snap), DropEntry(snap)] && origin == old(origin)
      ensures View() == Apply(Apply(old(View()), DropManifest(snap)), DropEntry(snap))
    {
      manifests := manifests - {snap};
      Record(DropManifest(snap));
      entries := entries - {snap};
      Record(DropEntry(snap));
    }

    method InsertSnapshotRow(snap: SnapId)
      requires Valid()
      modifies this
      ensures Valid() && log == old(log) + [InsertRow(snap)] && origin == old(origin)
      ensures View() == Apply(old(View()), InsertRow(snap))
    {
      rows := rows + {snap};
      Record(InsertRow(snap));
    }

    method DeleteSnapshotRow(snap: SnapId)
      requires Valid()
      modifies this
      ensures Valid() && log == old(log) + [DeleteRow(snap)] && origin == old(origin)
      ensures View() == Apply(old(View()), DeleteRow(snap))
    {
      rows := rows - {snap};
      Record(DeleteRow(snap));
    }

    // -------------------------------------------------------------- the pipeline

    /** A run that started in state v0 with log0 has put the extents `es` through. */
    ghost predicate Running(job: Job, nonces: Nonces, v0: State, log0: seq<Step>, es: seq<Extent>)
      reads this
    {
      Valid() && log == log0 + RunSteps(server, job, nonces, v0, es)
      && View() == ApplyAll(v0, RunSteps(server, job, nonces, v0, es))
    }

    /** One chunk: a dedup hit only gives its manifest block, any other chunk is stored and then indexed. */
    method ProcessChunk(job: Job, nonces: Nonces, e: Extent, ghost v0: State, ghost log0: seq<Step>, ghost es: seq<Extent>, drawn: nat)
      returns (block: FileBlock, hit: bool)
      requires Running(job, nonces, v0, log0, es) && drawn == |es|
      modifies this
      ensures Running(job, nonces, v0, log0, es + [e]) && origin == old(origin)
      ensures block == BlockOf(server, e) && (hit <==> Id(server, e) in old(refs))
      ensures !hit && Lawful(server.alg) && |nonces(drawn)| == 12 ==>
                Id(server, e) in store && StoredAs(server, job, nonces(drawn), e.data, store[Id(server, e)])
    {
      hide Encode, StoredAs;
      ghost var v := View();
      var id := server.alg.sha256(e.data);
      hit := id in refs;
      block := FileBlock(e.path, e.offset, |e.data|, id);
      ghost var steps := ChunkSteps(server, job, nonces(drawn), v.refs, e);
      RunNext(server, job, nonces, v0, es, e);
      if !hit {
        var raw := Encode(server.alg, job.compression, job.encryption, server.key, nonces(drawn), e.data);
        if Lawful(server.alg) && |nonces(drawn)| == 12 {
          EncodeIsStoredAs(server, job, nonces(drawn), e.data);
        }
        WriteBlock(id, raw);
        AddBlock(id);
        TwoSteps(u => true, v, steps[0], steps[1]);
        assert log == log0 + (RunSteps(server, job, nonces, v0, es) + steps);
      }
    }

    /** The chunks of one file or window. */
    method ProcessChunks(job: Job, nonces: Nonces, path: string, base: nat, chunks: seq<Chunk>, blocks0: Manifest, stats0: Stats,
                         ghost v0: State, ghost log0: seq<Step>, ghost es: seq<Extent>)
      returns (blocks: Manifest, stats: Stats)
      requires Running(job, nonces, v0, log0, es) && Produced(server, v0.refs.Keys, es, blocks0, stats0)
      modifies this
      ensures Running(job, nonces, v0, log0, es + ExtentsOf(path, base, chunks)) && origin == old(origin)
      ensures Produced(server, v0.refs.Keys, es + ExtentsOf(path, base, chunks), blocks, stats) && stats.files == stats0.files
    {
      hide Running, Produced;
      ghost var all := ExtentsOf(path, base, chunks);
      blocks, stats := blocks0, stats0;
      assert es + all[..0] == es;
      for i := 0 to |chunks|
        invariant Running(job, nonces, v0, log0, es + all[..i]) && origin == old(origin)
        invariant Produced(server, v0.refs.Keys, es + all[..i], blocks, stats) && stats.files == stats0.files
      {
        blocks, stats := ProcessNext(job, nonces, Extent(path, base + chunks[i].offset, chunks[i].data), blocks, stats, v0, log0, es + all[..i]);
        assert es + all[..i + 1] == es + all[..i] + [all[i]];
      }
      assert all[..|chunks|] == all;
    }

    method ProcessNext(job: Job, nonces: Nonces, e: Extent, blocks0: Manifest, stats0: Stats,
                       ghost v0: State, ghost log0: seq<Step>, ghost es: seq<Extent>)
      returns (blocks: Manifest, stats: Stats)
      requires Running(job, nonces, v0, log0, es) && Produced(server, v0.refs.Keys, es, blocks0, stats0)
      modifies this
      ensures Running(job, nonces, v0, log0, es + [e]) && origin == old(origin)
      ensures Produced(server, v0.refs.Keys, es + [e], blocks, stats) && stats.files == stats0.files
    {
      hide RunSteps, Id;
      RunRefs(server, job, nonces, v0, es, Id(server, e));
      ProducedNext(server, v0.refs.Keys, es, blocks0, stats0, e);
      var block, hit := ProcessChunk(job, nonces, e, v0, log0, es, |blocks0|);
      blocks := blocks0 + [block];
      stats := if hit then stats0.(deduped := stats0.deduped + 1) else stats0.(unique := stats0.unique + 1);
    }

    /** Raw bytes of a logical file at an absolute offset, chunked as one buffer. */
    method ProcessBytes(job: Job, nonces: Nonces, c: Chunker, path: string, base: nat, data: bytes, blocks0: Manifest, stats0: Stats,
                        ghost v0: State, ghost log0: seq<Step>, ghost es: seq<Extent>)
      returns (blocks: Manifest, stats: Stats)
      requires Running(job, nonces, v0, log0, es) && Produced(server, v0.refs.Keys, es, blocks0, stats0)
      modifies this
      ensures Running(job, nonces, v0, log0, es + ExtentsOf(path, base, Chunks(c, data, 0))) && origin == old(origin)
      ensures Produced(server, v0.refs.Keys, es + ExtentsOf(path, base, Chunks(c, data, 0)), blocks, stats) && stats.files == stats0.files
    {
      hide Running, Produced;
      var chunks := ChunkData(c, data);
      blocks, stats := ProcessChunks(job, nonces, path, base, chunks, blocks0, stats0, v0, log0, es);
    }

    /** One file, streamed through the chunker. */
    method ProcessFile(job: Job, nonces: Nonces, c: Chunker, input: Input, blocks0: Manifest, stats0: Stats,
                       ghost v0: State, ghost log0: seq<Step>, ghost es: seq<Extent>)
      returns (blocks: Manifest, stats: Stats)
      requires Running(job, nonces, v0, log0, es) && Produced(server, v0.refs.Keys, es, blocks0, stats0)
      requires forall r :: r in input.readings ==> 0 < |r| <= READ_UNIT
      modifies this
      ensures var more := FileExtents(c, Source(input.path, Flatten(input.readings)));
              && Running(job, nonces, v0, log0, es + more) && origin == old(origin)
              && Produced(server, v0.refs.Keys, es + more, blocks, stats) && stats.files == stats0.files + 1
    {
      hide Running, Produced, OwnChunks;
      var chunks, _ := ChunkReader(c, input.readings);
      blocks, stats := ProcessChunks(job, nonces, input.path, 0, chunks, blocks0, stats0, v0, log0, es);
      ProducedFile(server, v0.refs.Keys, es + ExtentsOf(input.path, 0, chunks), blocks, stats);
      stats := stats.(files := stats.files + 1);
    }

    /** The file loop: each file is streamed through the chunker and its chunks through the pipeline. */
    method FileLoop(job: Job, nonces: Nonces, c: Chunker, inputs: seq<Input>, ghost v0: State, ghost log0: seq<Step>)
      returns (blocks: Manifest, stats: Stats)
      requires Running(job, nonces, v0, log0, []) && forall f, r :: f in inputs && r in f.readings ==> 0 < |r| <= READ_UNIT
      modifies this
      ensures var es := SourceExtents(FileCutter(c), SourcesOf(inputs));
              && Running(job, nonces, v0, log0, es) && origin == old(origin)
              && Produced(server, v0.refs.Keys, es, blocks, stats) && stats.files == |inputs|
    {
      hide Running, Produced, FileExtents, SourceExtents, SourcesOf, Flatten;
      ghost var es := [];
      blocks, stats := [], Stats(0, 0, 0);
      ProducedNothing(server, v0.refs.Keys);
      SourcesNone(FileCutter(c), inputs);
      for i := 0 to |inputs|
        invariant es == SourceExtents(FileCutter(c), SourcesOf(inputs[..i]))
        invariant Running(job, nonces, v0, log0, es) && origin == old(origin)
        invariant Produced(server, v0.refs.Keys, es, blocks, stats) && stats.files == i
      {
        SourcesNext(FileCutter(c), inputs, i);
        blocks, stats := ProcessFile(job, nonces, c, inputs[i], blocks, stats, v0, log0, es);
        es := es + FileExtents(c, Source(inputs[i].path, Flatten(inputs[i].readings)));
      }
      assert inputs[..|inputs|] == inputs;
    }

    method RunFiles(job: Job, nonces: Nonces, c: Chunker, inputs: seq<Input>) returns (blocks: Manifest, stats: Stats)
      requires Valid() && forall f, r :: f in inputs && r in f.readings ==> 0 < |r| <= READ_UNIT
      modifies this
      ensures var es := SourceExtents(FileCutter(c), SourcesOf(inputs));
              && Running(job, nonces, old(View()), old(log), es) && origin == old(origin)
              && Produced(server, old(refs).Keys, es, blocks, stats) && stats.files == |inputs|
    {
      hide Produced, SourceExtents, SourcesOf;
      assert log + [] == log;
      blocks, stats := FileLoop(job, nonces, c, inputs, View(), log);
    }

    /** The window loop over one disk without changed-block tracking. */
    method BackUpDisk(job: Job, nonces: Nonces, c: Chunker, disk: Source, blocks0: Manifest, stats0: Stats,
                      ghost v0: State, ghost log0: seq<Step>, ghost es: seq<Extent>)
      returns (blocks: Manifest, stats: Stats)
      requires Running(job, nonces, v0, log0, es) && Produced(server, v0.refs.Keys, es, blocks0, stats0)
      modifies this
      ensures Running(job, nonces, v0, log0, es + DiskExtents(c, disk, 0)) && origin == old(origin)
      ensures Produced(server, v0.refs.Keys, es + DiskExtents(c, disk, 0), blocks, stats) && stats.files == stats0.files
    {
      hide Running, Produced, Chunks;
      blocks, stats := blocks0, stats0;
      var offset, end := 0, |disk.content|;
      ghost var done := es;
      while offset < end
        invariant offset <= end
        invariant done + DiskExtents(c, disk, offset) == es + DiskExtents(c, disk, 0)
        invariant Running(job, nonces, v0, log0, done) && origin == old(origin)
        invariant Produced(server, v0.refs.Keys, done, blocks, stats) && stats.files == stats0.files
      {
        var len := Min(READ_CHUNK, end - offset);
        var data := disk.content[offset..offset + len];
        blocks, stats := ProcessBytes(job, nonces, c, disk.path, offset, data, blocks, stats, v0, log0, done);
        ConcatAssoc(done, ExtentsOf(disk.path, offset, Chunks(c, data, 0)), DiskExtents(c, disk, offset + len));
        done := done + ExtentsOf(disk.path, offset, Chunks(c, data, 0));
        offset := offset + len;
      }
      assert done + [] == done;
    }

    /** The disk loop of a virtual machine backup. */
    method RunDisks(job: Job, nonces: Nonces, c: Chunker, disks: seq<Source>) returns (blocks: Manifest, stats: Stats)
      requires Valid()
      modifies this
      ensures Running(job, nonces, old(View()), old(log), SourceExtents(DiskCutter(c), disks)) && origin == old(origin)
      ensures Produced(server, old(refs).Keys, SourceExtents(DiskCutter(c), disks), blocks, stats)
      ensures stats.files == |disks|
    {
      hide Produced, DiskExtents;
      ghost var v0, log0 := View(), log;
      blocks, stats := [], Stats(0, 0, 0);
      ProducedNothing(server, v0.refs.Keys);
      assert log0 + [] == log0;
      for i := 0 to |disks|
        invariant Running(job, nonces, v0, log0, SourceExtents(DiskCutter(c), disks[..i])) && origin == old(origin)
        invariant Produced(server, v0.refs.Keys, SourceExtents(DiskCutter(c), disks[..i]), blocks, stats) && stats.files == i
      {
        ghost var es := SourceExtents(DiskCutter(c), disks[..i]);
        assert disks[..i + 1][..i] == disks[..i];
        blocks, stats := BackUpDisk(job, nonces, c, disks[i], blocks, stats, v0, log0, es);
        ProducedFile(server, v0.refs.Keys, es + DiskExtents(c, disks[i], 0), blocks, stats);
        stats := stats.(files := stats.files + 1);
      }
      assert disks[..|disks|] == disks;
    }

    // -------------------------------------------------------------- jobs

    /** A file job: the run, then manifest, index entry and database row. */
    method RunBackup(job: Job, nonces: Nonces, c: Chunker, inputs: seq<Input>, snap: SnapId) returns (stats: Stats)
      requires Valid() && forall f, r :: f in inputs && r in f.readings ==> 0 < |r| <= READ_UNIT
      modifies this
      ensures var steps := BackupSteps(server, job, nonces, old(View()), snap, SourceExtents(FileCutter(c), SourcesOf(inputs)));
              Valid() && log == old(log) + steps && View() == ApplyAll(old(View()), steps)
      ensures stats.deduped == Hits(server, old(refs).Keys, SourceExtents(FileCutter(c), SourcesOf(inputs)))
      ensures stats.deduped + stats.unique == |SourceExtents(FileCutter(c), SourcesOf(inputs))| && stats.files == |inputs|
    {
      hide SourceExtents, SourcesOf, Hits, ManifestOf;
      ghost var es := SourceExtents(FileCutter(c), SourcesOf(inputs));
      var blocks;
      blocks, stats := RunFiles(job, nonces, c, inputs);
      FinishBackup(job, nonces, snap, blocks, old(View()), old(log), es);
    }

    /** A virtual machine job records its result in the same order. */
    method RunVmBackup(job: Job, nonces: Nonces, c: Chunker, disks: seq<Source>, snap: SnapId) returns (stats: Stats)
      requires Valid()
      modifies this
      ensures var steps := BackupSteps(server, job, nonces, old(View()), snap, SourceExtents(DiskCutter(c), disks));
              Valid() && log == old(log) + steps && View() == ApplyAll(old(View()), steps)
      ensures stats.deduped == Hits(server, old(refs).Keys, SourceExtents(DiskCutter(c), disks))
      ensures stats.deduped + stats.unique == |SourceExtents(DiskCutter(c), disks)| && stats.files == |disks|
    {
      hide SourceExtents, Hits, ManifestOf;
      ghost var es := SourceExtents(DiskCutter(c), disks);
      var blocks;
      blocks, stats := RunDisks(job, nonces, c, disks);
      FinishBackup(job, nonces, snap, blocks, old(View()), old(log), es);
    }

    method FinishBackup(job: Job, nonces: Nonces, snap: SnapId, blocks: Manifest,
                        ghost v0: State, ghost log0: seq<Step>, ghost es: seq<Extent>)
      requires Running(job, nonces, v0, log0, es) && blocks == ManifestOf(server, es)
      modifies this
      ensures var steps := BackupSteps(server, job, nonces, v0, snap, es);
              Valid() && log == log0 + steps && View() == ApplyAll(v0, steps)
    {
      hide ManifestOf, RunSteps;
      ghost var run, v := RunSteps(server, job, nonces, v0, es), View();
      SaveManifest(snap, blocks);
      AddSnapshot(snap);
      InsertSnapshotRow(snap);
      ghost var record := [Step.SaveManifest(snap, blocks), AddEntry(snap), InsertRow(snap)];
      ThreeSteps(u => true, v, record[0], record[1], record[2]);
      ApplyConcat(v0, run, record);
      assert log == log0 + (run + record);
    }

    /** Database row first, then refcounts, index entries, and last the freed blocks that can be deleted. */
    method DeleteSnapshotWithGc(snap: SnapId, deletable: set<Hash>)
      requires Valid()
      modifies this
      ensures var steps := DeleteSteps(old(View()), snap, deletable);
              Valid() && log == old(log) + steps && View() == ApplyAll(old(View()), steps)
    {
      ghost var log0, origin0 := log, origin;
      var ids := if snap in manifests then HashesOf(manifests[snap]) else [];
      DeleteSnapshotRow(snap);
      var orphans := CollectOrphans(ids);
      DeleteSnapshot(snap);
      DeleteOrphans(orphans, deletable);
      ghost var steps := DeleteSteps(old(View()), snap, deletable);
      assert log == log0 + steps;
      ApplyConcat(origin0, log0, steps);
    }

    method CollectOrphans(ids: seq<Hash>) returns (orphans: seq<Hash>)
      requires Valid()
      modifies this
      ensures Valid() && log == old(log) + Removals(ids) && origin == old(origin) && orphans == Orphans(old(refs), ids)
    {
      orphans := [];
      for i := 0 to |ids|
        invariant Valid() && origin == old(origin)
        invariant log + Removals(ids[i..]) == old(log) + Removals(ids)
        invariant orphans + Orphans(refs, ids[i..]) == Orphans(old(refs), ids)
      {
        assert ids[i..][0] == ids[i] && ids[i..][1..] == ids[i + 1..];
        SnocShift(log, Step.RemoveBlock(ids[i]), Removals(ids[i + 1..]));
        var freed := RemoveBlock(ids[i]);
        if freed {
          SnocShift(orphans, ids[i], Orphans(refs, ids[i + 1..]));
          orphans := orphans + [ids[i]];
        }
      }
    }

    method DeleteOrphans(orphans: seq<Hash>, deletable: set<Hash>)
      requires Valid()
      modifies this
      ensures Valid() && log == old(log) + Sweep(orphans, deletable) && origin == old(origin)
    {
      for i := 0 to |orphans|
        invariant Valid() && origin == old(origin)
        invariant log + Sweep(orphans[i..], deletable) == old(log) + Sweep(orphans, deletable)
      {
        assert orphans[i..][0] == orphans[i] && orphans[i..][1..] == orphans[i + 1..];
        if orphans[i] in deletable {
          SnocShift(log, Step.DeleteBlock(orphans[i]), Sweep(orphans[i + 1..], deletable));
          DeleteBlock(orphans[i]);
        }
      }
    }

    /** One entry's deletion, whose error the reconciler ignores. */
    method TryDeleteSnapshot(snap: SnapId, drops: Drops)
      requires Valid()
      modifies this
      ensures Valid() && origin == old(origin) && log == old(log) + DropSteps(snap, drops) && rows == old(rows)
    {
      assert log + [] == log;
      if drops(snap) == 0 {
        return;
      }
      if drops(snap) == 1 {
        manifests := manifests - {snap};
        Record(DropManifest(snap));
        return;
      }
      DeleteSnapshot(snap);
    }

    /** Removes listed index entries without a row, counts them, and reports rows without a manifest. */
    method ReconcileIndex(listing: seq<SnapId>, drops: Drops) returns (removed: nat, missing: set<SnapId>)
      requires Valid()
      modifies this
      ensures var steps := ReconcileSteps(old(rows), listing, drops);
              Valid() && log == old(log) + steps && View() == ApplyAll(old(View()), steps)
      ensures removed == RowlessCount(old(rows), listing) && missing == History.MissingManifests(View())
      ensures forall snap :: snap in missing <==> snap in rows && snap !in manifests
    {
      hide DropSteps;
      ghost var log0, origin0 := log, origin;
      removed := 0;
      for i := 0 to |listing|
        invariant Valid() && origin == origin0 && rows == old(rows)
        invariant log + ReconcileSteps(rows, listing[i..], drops) == log0 + ReconcileSteps(rows, listing, drops)
        invariant removed + RowlessCount(rows, listing[i..]) == RowlessCount(rows, listing)
      {
        assert listing[i..][0] == listing[i] && listing[i..][1..] == listing[i + 1..];
        if listing[i] !in rows {
          ConcatAssoc(log, DropSteps(listing[i], drops), ReconcileSteps(rows, listing[i + 1..], drops));
          TryDeleteSnapshot(listing[i], drops);
          removed := removed + 1;
        }
      }
      missing := set snap | snap in rows && snap !in manifests;
      ApplyConcat(origin0, log0, ReconcileSteps(rows, listing, drops));
    }
  }

  /** The listed entries without a row. */
  function RowlessCount(rows: set<SnapId>, listing: seq<SnapId>): nat {
    if listing == [] then 0 else (if listing[0] in rows then 0 else 1) + RowlessCount(rows, listing[1..])
  }

  /** Of a listing without repetitions, that many different entries have no row. */
  lemma {:induction false} RowlessAre(rows: set<SnapId>, listing: seq<SnapId>)
    requires Distinct(listing)
    ensures RowlessCount(rows, listing) == |set snap | snap in listing && snap !in rows|
  {
    if listing != [] {
      var snap, rest := listing[0], listing[1..];
      assert listing == [snap] + rest;
      RowlessAre(rows, rest);
      var those := set s | s in rest && s !in rows;
      assert snap !in those;
      assert (set s | s in listing && s !in rows) == if snap in rows then those else those + {snap};
    }
  }

  lemma {:induction false} RunNext(server: Server, job: Job, nonces: Nonces, v0: State, es: seq<Extent>, e: Extent)
    ensures var before := RunSteps(server, job, nonces, v0, es);
            var steps := ChunkSteps(server, job, nonces(|es|), ApplyAll(v0, before).refs, e);
            && RunSteps(server, job, nonces, v0, es + [e]) == before + steps
            && ApplyAll(v0, before + steps) == ApplyAll(ApplyAll(v0, before), steps)
  {
    hide ChunkSteps;
    assert (es + [e])[..|es|] == es;
    var before := RunSteps(server, job, nonces, v0, es);
    ApplyConcat(v0, before, ChunkSteps(server, job, nonces(|es|), ApplyAll(v0, before).refs, e));
  }

  lemma ProducedNothing(server: Server, refs: set<Hash>)
    ensures Produced(server, refs, [], [], Stats(0, 0, 0))
  {
  }

  lemma ProducedFile(server: Server, refs: set<Hash>, es: seq<Extent>, blocks: Manifest, stats: Stats)
    requires Produced(server, refs, es, blocks, stats)
    ensures Produced(server, refs, es, blocks, stats.(files := stats.files + 1))
  {
  }

  lemma SourcesNone(cut: Cutter, inputs: seq<Input>)
    ensures SourceExtents(cut, SourcesOf(inputs[..0])) == []
  {
    assert inputs[..0] == [];
  }

  lemma SourcesNext(cut: Cutter, inputs: seq<Input>, i: nat)
    requires i < |inputs|
    ensures var s := Source(inputs[i].path, Flatten(inputs[i].readings));
            && SourcesOf(inputs[..i + 1]) == SourcesOf(inputs[..i]) + [s]
            && SourceExtents(cut, SourcesOf(inputs[..i + 1])) == SourceExtents(cut, SourcesOf(inputs[..i])) + cut(s)
  {
    var before, s := SourcesOf(inputs[..i]), Source(inputs[i].path, Flatten(inputs[i].readings));
    assert inputs[..i + 1][..i] == inputs[..i];
    assert (before + [s])[..i] == before;
  }
}
