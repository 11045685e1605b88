/**
 * What a backup leaves in the store, byte by byte (encode_block and block_magic in
 * core/src/pipeline/mod.rs, as its run calls them): the magic of the job's compression and
 * cipher, the nonce drawn for the chunk, and the compressed or encrypted content. Nothing
 * here is stated through the encoder.
 */
module StoredForm {
  import opened Common
  import opened Codec
  import opened Vault
  import opened Backup
  import opened Accounting

  // ---------------------------------------------------------------- the stored bytes

  /** The nine magic bytes. */
  predicate Marked(job: Job, magic: byte) {
    match (job.compression, job.encryption)
    case (Uncompressed, Unencrypted) => magic == 0x00
    case (Zstd(_), Unencrypted) => magic == 0x01
    case (Lz4, Unencrypted) => magic == 0x02
    case (Zstd(_), Aes256Gcm) => magic == 0x11
    case (Zstd(_), ChaCha20Poly1305) => magic == 0x12
    case (Lz4, Aes256Gcm) => magic == 0x21
    case (Lz4, ChaCha20Poly1305) => magic == 0x22
    case (Uncompressed, Aes256Gcm) => magic == 0x31
    case (Uncompressed, ChaCha20Poly1305) => magic == 0x32
  }

  /** The payload is the data as the job's compression makes it. */
  predicate Compressed(alg: Algorithms, job: Job, data: bytes, payload: bytes) {
    && (job.compression.Uncompressed? ==> payload == data)
    && (job.compression.Zstd? ==> payload == alg.zstd(data, job.compression.level))
    && (job.compression.Lz4? ==> payload == alg.lz4(data))
  }

  /**
   * The stored form of the data under the job: with a cipher and a key the nonce and the
   * ciphertext, unreadable without the key; without a cipher the payload itself, readable
   * by anyone; with a cipher and no key the payload under a magic that nobody can read.
   */
  ghost predicate StoredAs(server: Server, job: Job, nonce: bytes, data: bytes, raw: bytes) {
    && raw != [] && Marked(job, raw[0])
    && exists payload :: Compressed(server.alg, job, data, payload)
         && (job.encryption != Unencrypted && server.key.Some? ==>
               && |raw| >= 13 && raw[1..13] == nonce
               && raw[13..] == server.alg.encrypt(job.encryption, server.key.value, nonce, payload)
               && Decode(server.alg, raw, None) == Err(KeyRequired)
               && (|data| <= 64 * 1024 * 1024 ==> Decode(server.alg, raw, server.key) == Ok(data)))
         && (job.encryption == Unencrypted ==>
               && raw[1..] == payload
               && (|data| <= 64 * 1024 * 1024 ==> forall key :: Decode(server.alg, raw, key) == Ok(data)))
         && (job.encryption != Unencrypted && server.key.None? ==>
               raw[1..] == payload && Decode(server.alg, raw, None).Err?)
  }

  lemma {:induction false} EncodeIsStoredAs(server: Server, job: Job, nonce: bytes, data: bytes)
    requires Lawful(server.alg) && |nonce| == 12
    ensures StoredAs(server, job, nonce, data, Encode(server.alg, job.compression, job.encryption, server.key, nonce, data))
  {
    hide Decode;
    var alg, raw := server.alg, Encode(server.alg, job.compression, job.encryption, server.key, nonce, data);
    var payload := Compress(alg, job.compression, data);
    assert Compressed(alg, job, data, payload);
    assert raw[0] == BlockMagic(job.compression, job.encryption);
    RoundTripExactly(alg, job.compression, job.encryption, server.key, nonce, data);
    if job.encryption == Unencrypted {
      assert raw[1..] == payload;
      forall key | |data| <= MAX_BLOCK
        ensures Decode(alg, raw, key) == Ok(data)
      {
        RoundTripExactly(alg, job.compression, job.encryption, key, nonce, data);
      }
    } else if server.key.Some? {
      assert raw[1..13] == nonce && raw[13..] == alg.encrypt(job.encryption, server.key.value, nonce, payload);
      NeedsKey(alg, raw);
    } else {
      assert raw[1..] == payload;
      UnwrapEncoded(alg, job.compression, job.encryption, None, nonce, data);
      KeylessFails(alg, raw);
    }
  }

  lemma NeedsKey(alg: Algorithms, raw: bytes)
    requires |raw| >= 13 && raw[0] in {0x11, 0x12, 0x21, 0x22, 0x31, 0x32}
    ensures Decode(alg, raw, None) == Err(KeyRequired)
  {
  }

  lemma KeylessFails(alg: Algorithms, raw: bytes)
    requires raw != [] && Unwrap(alg, raw, None).Err?
    ensures Decode(alg, raw, None).Err?
  {
  }

  // ---------------------------------------------------------------- what a run stores

  /** The chunk is the first of the run with its content's hash, and the index does not list that. */
  predicate FirstOfItsBlock(server: Server, refs: set<Hash>, es: seq<Extent>, k: nat)
    requires k < |es|
  {
    server.alg.sha256(es[k].data) !in refs && forall j :: 0 <= j < k ==> server.alg.sha256(es[j].data) != server.alg.sha256(es[k].data)
  }

  /** Chunk k, as the first of its block, is in the store under its hash, in the form of the job and with its own nonce. */
  ghost predicate StoresFirst(server: Server, job: Job, nonces: Nonces, refs: set<Hash>, es: seq<Extent>, k: nat, store: map<Hash, bytes>)
    requires k < |es|
  {
    FirstOfItsBlock(server, refs, es, k) ==>
      var id := server.alg.sha256(es[k].data);
      id in store && StoredAs(server, job, nonces(k), es[k].data, store[id])
  }

  predicate SameAt(a: map<Hash, bytes>, b: map<Hash, bytes>, id: Hash) {
    (id in a <==> id in b) && (id in a ==> a[id] == b[id])
  }

  lemma {:induction false} ChunkStores(server: Server, job: Job, nonce: bytes, v: State, e: Extent)
    requires Lawful(server.alg) && |nonce| == 12
    ensures var w, id := ApplyAll(v, ChunkSteps(server, job, nonce, v.refs, e)), server.alg.sha256(e.data);
            && (id in v.refs ==> w.store == v.store)
            && (id !in v.refs ==> id in w.store && StoredAs(server, job, nonce, e.data, w.store[id]))
            && forall other :: other != id ==> SameAt(v.store, w.store, other)
  {
    hide Encode, StoredAs;
    var steps := ChunkSteps(server, job, nonce, v.refs, e);
    if steps != [] {
      TwoSteps(u => true, v, steps[0], steps[1]);
      EncodeIsStoredAs(server, job, nonce, e.data);
    }
  }

  /**
   * A run stores, for each block the index does not list, the form of the first chunk with
   * that hash, under that hash, with the nonce drawn for that chunk; it changes no other
   * stored block.
   */
  lemma {:induction false} RunStoresExactly(server: Server, job: Job, nonces: Nonces, v: State, es: seq<Extent>)
    requires Lawful(server.alg) && forall k :: |nonces(k)| == 12
    ensures var store := ApplyAll(v, RunSteps(server, job, nonces, v, es)).store;
            && (forall k :: 0 <= k < |es| ==> StoresFirst(server, job, nonces, v.refs.Keys, es, k, store))
            && (forall id :: id in v.refs || (forall k :: 0 <= k < |es| ==> server.alg.sha256(es[k].data) != id) ==> SameAt(v.store, store, id))
    decreases |es|
  {
    hide StoredAs, ChunkSteps, SameAt, FirstOfItsBlock, StoresFirst;
    if es == [] {
      SameStore(v.store);
    } else {
      var n := |es| - 1;
      RunStoresExactly(server, job, nonces, v, es[..n]);
      var before := RunSteps(server, job, nonces, v, es[..n]);
      var w := ApplyAll(v, before);
      var steps := ChunkSteps(server, job, nonces(n), w.refs, es[n]);
      var x := ApplyAll(w, steps);
      ApplyConcat(v, before, steps);
      ChunkStores(server, job, nonces(n), w, es[n]);
      RunRefs(server, job, nonces, v, es[..n], Id(server, es[n]));
      KnownIds(server, v.refs.Keys, es);
      forall k | 0 <= k < |es|
        ensures StoresFirst(server, job, nonces, v.refs.Keys, es, k, x.store)
      {
        if k < n {
          FirstStays(server, job, nonces, v.refs.Keys, es, k, w, x);
        } else {
          LastIsStored(server, job, nonces, v.refs.Keys, es, w, x);
        }
      }
      assert forall k :: 0 <= k < n ==> es[..n][k] == es[k];
      forall id | id in v.refs || (forall k :: 0 <= k < |es| ==> server.alg.sha256(es[k].data) != id)
        ensures SameAt(v.store, x.store, id)
      {
        assert SameAt(v.store, w.store, id);
        SameTwice(v.store, w.store, x.store, id);
        if id == Id(server, es[n]) {
          SameStore(w.store);
        }
      }
    }
  }

  lemma SameStore(a: map<Hash, bytes>)
    ensures forall id :: SameAt(a, a, id)
  {
  }

  lemma SameTwice(a: map<Hash, bytes>, b: map<Hash, bytes>, c: map<Hash, bytes>, id: Hash)
    requires SameAt(a, b, id)
    ensures SameAt(b, c, id) ==> SameAt(a, c, id)
  {
  }

  /** An earlier chunk's block is not written again. */
  lemma {:induction false} FirstStays(server: Server, job: Job, nonces: Nonces, refs: set<Hash>, es: seq<Extent>, k: nat, w: State, x: State)
    requires k < |es| - 1 && StoresFirst(server, job, nonces, refs, es[..|es| - 1], k, w.store)
    requires server.alg.sha256(es[|es| - 1].data) in w.refs ==> x.store == w.store
    requires forall other :: other != server.alg.sha256(es[|es| - 1].data) ==> SameAt(w.store, x.store, other)
    requires server.alg.sha256(es[|es| - 1].data) in Ids(server, es[..|es| - 1]) ==> server.alg.sha256(es[|es| - 1].data) in w.refs
    ensures StoresFirst(server, job, nonces, refs, es, k, x.store)
  {
    hide StoredAs;
    var n := |es| - 1;
    if FirstOfItsBlock(server, refs, es, k) {
      assert es[..n][k] == es[k];
      assert forall j :: 0 <= j < k ==> es[..n][j] == es[j];
      assert FirstOfItsBlock(server, refs, es[..n], k);
      assert Ids(server, es[..n])[k] == Id(server, es[k]);
      if server.alg.sha256(es[k].data) != server.alg.sha256(es[n].data) {
        assert SameAt(w.store, x.store, server.alg.sha256(es[k].data));
      } else {
        assert server.alg.sha256(es[n].data) in Ids(server, es[..n]);
      }
    }
  }

  lemma LastIsStored(server: Server, job: Job, nonces: Nonces, refs: set<Hash>, es: seq<Extent>, w: State, x: State)
    requires es != []
    requires var n := |es| - 1; var id := Id(server, es[n]);
             && (FirstOfItsBlock(server, refs, es, n) ==> id !in w.refs)
             && (id !in w.refs ==> id in x.store && StoredAs(server, job, nonces(n), es[n].data, x.store[id]))
    ensures StoresFirst(server, job, nonces, refs, es, |es| - 1, x.store)
  {
    hide StoredAs;
  }

  /** The last chunk is the first of its block exactly if neither the index nor the chunks before have it. */
  lemma KnownIds(server: Server, refs: set<Hash>, es: seq<Extent>)
    requires es != []
    ensures var n := |es| - 1;
            FirstOfItsBlock(server, refs, es, n) <==> Id(server, es[n]) !in refs && Id(server, es[n]) !in Ids(server, es[..n])
  {
    var n := |es| - 1;
    var ids := Ids(server, es[..n]);
    assert forall j :: 0 <= j < n ==> ids[j] == Id(server, es[j]);
  }

  /** The records that follow a run leave the store alone, so the same holds of a completed backup. */
  lemma {:induction false} BackupStoresRun(server: Server, job: Job, nonces: Nonces, v: State, snap: SnapId, es: seq<Extent>)
    ensures ApplyAll(v, BackupSteps(server, job, nonces, v, snap, es)).store == ApplyAll(v, RunSteps(server, job, nonces, v, es)).store
  {
    hide RunSteps;
    var run, m := RunSteps(server, job, nonces, v, es), ManifestOf(server, es);
    ApplyConcat(v, run, [SaveManifest(snap, m), AddEntry(snap), InsertRow(snap)]);
    ThreeSteps(u => true, ApplyAll(v, run), SaveManifest(snap, m), AddEntry(snap), InsertRow(snap));
  }

  // ---------------------------------------------------------------- reading any bytes

  /** Exactly which stored bytes decode, and to what. */
  lemma {:induction false} DecodesExactly(alg: Algorithms, raw: bytes, key: Option<bytes>, out: bytes)
    ensures Decode(alg, raw, key) == Ok(out) <==>
            && raw != [] && |out| <= 64 * 1024 * 1024
            && exists payload: bytes ::
                 && (if raw[0] in {0x11, 0x21, 0x31} then
                       |raw| >= 13 && key.Some? && alg.decrypt(Aes256Gcm, key.value, raw[1..13], raw[13..]) == Some(payload)
                     else if raw[0] in {0x12, 0x22, 0x32} then
                       |raw| >= 13 && key.Some? && alg.decrypt(ChaCha20Poly1305, key.value, raw[1..13], raw[13..]) == Some(payload)
                     else payload == raw[1..])
                 && (if raw[0] in {0x01, 0x11, 0x12} then alg.unzstd(payload) == Some(out)
                     else if raw[0] in {0x02, 0x21, 0x22} then alg.unlz4(payload) == Some(out)
                     else payload == out)
  {
    if raw != [] && Unwrap(alg, raw, key).Ok? {
      var payload := Unwrap(alg, raw, key).value;
      assert |payload| >= 0;
    }
  }

  /** Exactly which stored bytes are refused before they are decompressed, and why. */
  lemma {:induction false} RefusedExactly(alg: Algorithms, raw: bytes, key: Option<bytes>)
    ensures Decode(alg, raw, key) == Err(EmptyBlock) <==> raw == []
    ensures raw != [] ==>
              var aes, chacha := raw[0] in {0x11, 0x21, 0x31}, raw[0] in {0x12, 0x22, 0x32};
              && (Decode(alg, raw, key) == Err(TooShort) <==> (aes || chacha) && |raw| < 13)
              && (Decode(alg, raw, key) == Err(KeyRequired) <==> (aes || chacha) && |raw| >= 13 && key.None?)
              && (Decode(alg, raw, key) == Err(DecryptFailed) <==>
                    (aes || chacha) && |raw| >= 13 && key.Some?
                    && alg.decrypt(if aes then Aes256Gcm else ChaCha20Poly1305, key.value, raw[1..13], raw[13..]).None?)
  {
  }
}
