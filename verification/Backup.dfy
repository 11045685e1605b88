/**
 * The backup pipeline (BackupPipeline::run and process_bytes in core/src/pipeline/mod.rs)
 * and the order in which a job records its result (run_backup_inner in
 * core/src/job/mod.rs).
 *
 * `RunSteps` lists the atomic writes of a run; a dedup hit writes nothing. The main
 * result is that every prefix of a backup's steps, hence every crash, leaves the
 * durable state sound.
 */
module Backup {
  import opened Common
  import opened Codec
  import opened Vault

  /** A chunk of a logical file on its way through the pipeline. */
  datatype Extent = Extent(path: string, offset: nat, data: bytes)

  datatype Job = Job(compression: Compression, encryption: Encryption)

  /** The nonces a run draws, one per chunk. */
  type Nonces = nat -> bytes

  function Id(server: Server, e: Extent): Hash {
    server.alg.sha256(e.data)
  }

  function Stored(server: Server, job: Job, nonce: bytes, e: Extent): bytes {
    Encode(server.alg, job.compression, job.encryption, server.key, nonce, e.data)
  }

  function BlockOf(server: Server, e: Extent): FileBlock {
    FileBlock(e.path, e.offset, |e.data|, Id(server, e))
  }

  function ManifestOf(server: Server, es: seq<Extent>): (m: Manifest)
    ensures |m| == |es| && forall i :: 0 <= i < |m| ==> m[i] == BlockOf(server, es[i])
  {
    if es == [] then [] else ManifestOf(server, es[..|es| - 1]) + [BlockOf(server, es[|es| - 1])]
  }

  /** One chunk: nothing on a dedup hit, otherwise the block and then its index row. */
  function ChunkSteps(server: Server, job: Job, nonce: bytes, refs: map<Hash, nat>, e: Extent): seq<Step> {
    if Id(server, e) in refs then []
    else [WriteBlock(Id(server, e), Stored(server, job, nonce, e)), AddBlock(Id(server, e))]
  }

  function RunSteps(server: Server, job: Job, nonces: Nonces, v: State, es: seq<Extent>): seq<Step> {
    if es == [] then []
    else
      var n := |es| - 1;
      var before := RunSteps(server, job, nonces, v, es[..n]);
      before + ChunkSteps(server, job, nonces(n), ApplyAll(v, before).refs, es[n])
  }

  /** The whole job: the run, then manifest, index entry and database row. */
  function BackupSteps(server: Server, job: Job, nonces: Nonces, v: State, snap: SnapId, es: seq<Extent>): seq<Step> {
    RunSteps(server, job, nonces, v, es)
    + [SaveManifest(snap, ManifestOf(server, es)), AddEntry(snap), InsertRow(snap)]
  }

  /** The job encrypts with a key or not at all, and its content is new or as hashed before. */
  ghost predicate Encodable(server: Server, seen: iset<bytes>, job: Job, nonces: Nonces, es: seq<Extent>) {
    && Lawful(server.alg)
    && (job.encryption == Unencrypted || server.key.Some?)
    && (forall k :: |nonces(k)| == NONCE_LEN)
    && (forall e :: e in es ==> e.data in seen && |e.data| <= MAX_BLOCK)
  }

  lemma {:induction false} ChunkKeepsSound(server: Server, seen: iset<bytes>, job: Job, nonce: bytes, v: State, e: Extent)
    requires Lawful(server.alg) && (job.encryption == Unencrypted || server.key.Some?)
    requires |nonce| == NONCE_LEN && e.data in seen && |e.data| <= MAX_BLOCK && Sound(server, seen, v)
    ensures Along(Soundness(server, seen), v, ChunkSteps(server, job, nonce, v.refs, e))
    ensures var w := ApplyAll(v, ChunkSteps(server, job, nonce, v.refs, e));
            Id(server, e) in w.refs && v.refs.Keys <= w.refs.Keys
  {
    hide Encode, Decode;
    var steps := ChunkSteps(server, job, nonce, v.refs, e);
    if steps != [] {
      RoundTripExactly(server.alg, job.compression, job.encryption, server.key, nonce, e.data);
      TwoSteps(Soundness(server, seen), v, steps[0], steps[1]);
    }
  }

  lemma {:induction false} RunKeepsSound(server: Server, seen: iset<bytes>, job: Job, nonces: Nonces, v: State, es: seq<Extent>)
    requires Encodable(server, seen, job, nonces, es) && Sound(server, seen, v)
    ensures Along(Soundness(server, seen), v, RunSteps(server, job, nonces, v, es))
    ensures Sound(server, seen, ApplyAll(v, RunSteps(server, job, nonces, v, es)))
    ensures forall e :: e in es ==> Id(server, e) in ApplyAll(v, RunSteps(server, job, nonces, v, es)).refs
    decreases |es|
  {
    hide Sound, ChunkSteps, Apply, Id;
    var inv := Soundness(server, seen);
    if es != [] {
      var n := |es| - 1;
      RunKeepsSound(server, seen, job, nonces, v, es[..n]);
      var before := RunSteps(server, job, nonces, v, es[..n]);
      var w := ApplyAll(v, before);
      var steps := ChunkSteps(server, job, nonces(n), w.refs, es[n]);
      ChunkKeepsSound(server, seen, job, nonces(n), w, es[n]);
      AlongConcat(inv, v, before, steps);
      ApplyConcat(v, before, steps);
      AlongEnds(inv, w, steps);
      assert es == es[..n] + [es[n]];
    }
  }

  /** A run touches the stored blocks and the block rows only. */
  lemma {:induction false} RunFrame(server: Server, job: Job, nonces: Nonces, v: State, es: seq<Extent>)
    ensures var w := ApplyAll(v, RunSteps(server, job, nonces, v, es));
            w.rows == v.rows && w.manifests == v.manifests && w.entries == v.entries
    decreases |es|
  {
    if es != [] {
      var n := |es| - 1;
      RunFrame(server, job, nonces, v, es[..n]);
      var before := RunSteps(server, job, nonces, v, es[..n]);
      var w := ApplyAll(v, before);
      var steps := ChunkSteps(server, job, nonces(n), w.refs, es[n]);
      ApplyConcat(v, before, steps);
      if steps != [] {
        TwoSteps(u => true, w, steps[0], steps[1]);
      }
    }
  }

  /** A backup, stopped after any of its steps, leaves the state sound; completed, its blocks are all indexed. */
  lemma {:induction false} BackupKeepsSound(server: Server, seen: iset<bytes>, job: Job, nonces: Nonces, v: State, snap: SnapId, es: seq<Extent>)
    requires Encodable(server, seen, job, nonces, es) && Sound(server, seen, v)
    ensures var steps := BackupSteps(server, job, nonces, v, snap, es);
            && Along(Soundness(server, seen), v, steps)
            && var w := ApplyAll(v, steps);
               && snap in w.rows && snap in w.manifests && w.manifests[snap] == ManifestOf(server, es)
               && forall e :: e in es ==> Id(server, e) in w.refs
  {
    hide Sound, Id, RunSteps;
    var inv := Soundness(server, seen);
    RunKeepsSound(server, seen, job, nonces, v, es);
    var run := RunSteps(server, job, nonces, v, es);
    var w := ApplyAll(v, run);
    var m := ManifestOf(server, es);
    RecordKeepsSound(server, seen, w, snap, m);
    var record := [SaveManifest(snap, m), AddEntry(snap), InsertRow(snap)];
    AlongConcat(inv, v, run, record);
    ApplyConcat(v, run, record);
  }

  lemma {:induction false} RecordKeepsSound(server: Server, seen: iset<bytes>, v: State, snap: SnapId, m: Manifest)
    requires Sound(server, seen, v)
    ensures var record := [SaveManifest(snap, m), AddEntry(snap), InsertRow(snap)];
            && Along(Soundness(server, seen), v, record)
            && ApplyAll(v, record) == v.(rows := v.rows + {snap}, manifests := v.manifests[snap := m], entries := v.entries + {snap})
  {
    hide Sound;
    var a, b, c := SaveManifest(snap, m), AddEntry(snap), InsertRow(snap);
    SoundFrame(server, seen, v, Apply(v, a));
    SoundFrame(server, seen, v, Apply(Apply(v, a), b));
    SoundFrame(server, seen, v, Apply(Apply(Apply(v, a), b), c));
    ThreeSteps(Soundness(server, seen), v, a, b, c);
  }
}
