/**
 * From file content to manifest and back: the extents a backup makes of its sources
 * carry each source's bytes, and a sound state restores them.
 */
module DataPlane {
  import opened Common
  import opened Chunking
  import opened Codec
  import opened Vault
  import opened Backup
  import opened Restore
  import opened History

  datatype Source = Source(path: string, content: bytes)

  /** The extents of chunks of a logical file, from an absolute offset on. */
  function ExtentsOf(path: string, base: nat, chunks: seq<Chunk>): (es: seq<Extent>)
    ensures |es| == |chunks| && forall i :: 0 <= i < |es| ==> es[i] == Extent(path, base + chunks[i].offset, chunks[i].data)
  {
    if chunks == [] then [] else [Extent(path, base + chunks[0].offset, chunks[0].data)] + ExtentsOf(path, base, chunks[1..])
  }

  /** Files go through the streaming chunker. */
  function FileExtents(c: Chunker, s: Source): seq<Extent> {
    ExtentsOf(s.path, 0, OwnChunks(c, s.content, 0))
  }

  /** Disks are read in windows, and each window is chunked as a buffer of its own. */
  const READ_CHUNK: nat := 8 * 1024 * 1024

  function DiskExtents(c: Chunker, s: Source, offset: nat): seq<Extent>
    requires offset <= |s.content|
    decreases |s.content| - offset
  {
    if offset == |s.content| then []
    else
      var end := Min(offset + READ_CHUNK, |s.content|);
      ExtentsOf(s.path, offset, Chunks(c, s.content[offset..end], 0)) + DiskExtents(c, s, end)
  }

  /** How a backup cuts its sources into extents. */
  type Cutter = Source -> seq<Extent>

  function FileCutter(c: Chunker): Cutter {
    s => FileExtents(c, s)
  }

  function DiskCutter(c: Chunker): Cutter {
    s => DiskExtents(c, s, 0)
  }

  function SourceExtents(cut: Cutter, sources: seq<Source>): seq<Extent> {
    if sources == [] then [] else SourceExtents(cut, sources[..|sources| - 1]) + cut(sources[|sources| - 1])
  }

  /** The extents of one path, in order. */
  function ExtentsOn(es: seq<Extent>, path: string): seq<Extent> {
    if es == [] then []
    else ExtentsOn(es[..|es| - 1], path) + if es[|es| - 1].path == path then [es[|es| - 1]] else []
  }

  /** The extents carry content[start..end] in consecutive, non-empty pieces. */
  ghost predicate Carry(es: seq<Extent>, content: bytes, start: nat, end: nat)
    requires start <= end <= |content|
    decreases |es|
  {
    if es == [] then start == end
    else
      var next := start + |es[0].data|;
      es[0].offset == start && start < next <= end && es[0].data == content[start..next]
      && Carry(es[1..], content, next, end)
  }

  /** Carrying is compositional. */
  lemma {:induction false} CarryConcat(a: seq<Extent>, b: seq<Extent>, content: bytes, start: nat, mid: nat, end: nat)
    requires start <= mid <= end <= |content| && Carry(a, content, start, mid) && Carry(b, content, mid, end)
    ensures Carry(a + b, content, start, end)
    decreases |a|
  {
    if a == [] {
      assert a + b == b;
    } else {
      CarryConcat(a[1..], b, content, start + |a[0].data|, mid, end);
      assert (a + b)[0] == a[0] && (a + b)[1..] == a[1..] + b;
    }
  }

  /** Chunks of a window of the content carry the window. */
  lemma {:induction false} TilesCarry(path: string, chunks: seq<Chunk>, content: bytes, base: nat, end: nat, start: nat)
    requires base <= end <= |content| && start <= end - base && Tiles(chunks, content[base..end], start)
    ensures Carry(ExtentsOf(path, base, chunks), content, base + start, end)
    decreases |chunks|
  {
    if chunks != [] {
      TilesCarry(path, chunks[1..], content, base, end, start + chunks[0].size);
      SliceOfSlice(content, base, end, start, start + chunks[0].size);
    }
  }

  /** Every source is cut into extents of its own path that carry its content. */
  ghost predicate Faithful(cut: Cutter) {
    forall s: Source :: Carry(cut(s), s.content, 0, |s.content|) && forall e :: e in cut(s) ==> e.path == s.path
  }

  lemma FilesAreFaithful(c: Chunker)
    ensures Faithful(FileCutter(c))
  {
    hide OwnChunks, Carry;
    forall s: Source
      ensures Carry(FileExtents(c, s), s.content, 0, |s.content|)
    {
      OwnChunksTile(c, s.content, 0);
      assert s.content[0..|s.content|] == s.content;
      TilesCarry(s.path, OwnChunks(c, s.content, 0), s.content, 0, |s.content|, 0);
    }
  }

  /** The windows of a disk tile it without gap or overlap. */
  lemma {:induction false} DiskCarries(c: Chunker, s: Source, offset: nat)
    requires offset <= |s.content|
    ensures Carry(DiskExtents(c, s, offset), s.content, offset, |s.content|)
    ensures forall e :: e in DiskExtents(c, s, offset) ==> e.path == s.path
    decreases |s.content| - offset
  {
    hide Chunks, Carry;
    if offset == |s.content| {
      CarryNothing(s.content, offset);
    } else {
      var end := Min(offset + READ_CHUNK, |s.content|);
      ChunksTile(c, s.content[offset..end], 0);
      var window := ExtentsOf(s.path, offset, Chunks(c, s.content[offset..end], 0));
      TilesCarry(s.path, Chunks(c, s.content[offset..end], 0), s.content, offset, end, 0);
      DiskCarries(c, s, end);
      CarryConcat(window, DiskExtents(c, s, end), s.content, offset, end, |s.content|);
    }
  }

  lemma {:induction false} CarryNothing(content: bytes, at: nat)
    requires at <= |content|
    ensures Carry([], content, at, at)
  {
  }

  lemma DisksAreFaithful(c: Chunker)
    ensures Faithful(DiskCutter(c))
  {
    hide Chunks, Carry, DiskExtents;
    forall s: Source
      ensures Carry(DiskExtents(c, s, 0), s.content, 0, |s.content|)
      ensures forall e :: e in DiskExtents(c, s, 0) ==> e.path == s.path
    {
      DiskCarries(c, s, 0);
    }
  }

  lemma {:induction false} TilesWithin(chunks: seq<Chunk>, data: bytes, start: nat)
    requires start <= |data| && Tiles(chunks, data, start)
    ensures forall k :: 0 <= k < |chunks| ==> |chunks[k].data| <= |data|
    decreases |chunks|
  {
    if chunks != [] {
      TilesWithin(chunks[1..], data, start + chunks[0].size);
      assert forall k :: 0 < k < |chunks| ==> chunks[k] == chunks[1..][k - 1];
    }
  }

  lemma {:induction false} DiskExtentsFit(c: Chunker, s: Source, offset: nat)
    requires offset <= |s.content|
    ensures forall e :: e in DiskExtents(c, s, offset) ==> |e.data| <= READ_CHUNK
    decreases |s.content| - offset
  {
    hide Chunks;
    if offset < |s.content| {
      var end := Min(offset + READ_CHUNK, |s.content|);
      ChunksTile(c, s.content[offset..end], 0);
      TilesWithin(Chunks(c, s.content[offset..end], 0), s.content[offset..end], 0);
      DiskExtentsFit(c, s, end);
    }
  }

  lemma {:induction false} FileExtentsFit(c: Chunker, s: Source)
    ensures forall e :: e in FileExtents(c, s) ==> |e.data| <= c.max
  {
    hide OwnChunks;
    OwnChunksTile(c, s.content, 0);
    TileSizes(OwnChunks(c, s.content, 0), s.content, 0);
  }

  lemma {:induction false} TileSizes(chunks: seq<Chunk>, data: bytes, start: nat)
    requires start <= |data| && Tiles(chunks, data, start)
    ensures forall k :: 0 <= k < |chunks| ==> |chunks[k].data| == chunks[k].size
    decreases |chunks|
  {
    if chunks != [] {
      TileSizes(chunks[1..], data, start + chunks[0].size);
      assert forall k :: 0 < k < |chunks| ==> chunks[k] == chunks[1..][k - 1];
    }
  }

  /** No backup makes a block the decoder would refuse as too large: disks never, files with a chunk maximum of at most 64 MiB. */
  lemma ExtentsFit(c: Chunker, s: Source)
    ensures forall e :: e in DiskCutter(c)(s) ==> |e.data| <= MAX_BLOCK
    ensures c.max <= MAX_BLOCK ==> forall e :: e in FileCutter(c)(s) ==> |e.data| <= MAX_BLOCK
  {
    DiskExtentsFit(c, s, 0);
    FileExtentsFit(c, s);
  }

  lemma {:induction false} CarryAscends(server: Server, es: seq<Extent>, content: bytes, start: nat, end: nat)
    requires start <= end <= |content| && Carry(es, content, start, end)
    ensures Ascending(ManifestOf(server, es))
    ensures forall i :: 0 <= i < |es| ==> start <= es[i].offset
    decreases |es|
  {
    if es != [] {
      CarryAscends(server, es[1..], content, start + |es[0].data|, end);
      var m, rest := ManifestOf(server, es), ManifestOf(server, es[1..]);
      assert forall i :: 0 < i < |m| ==> m[i] == rest[i - 1] && es[i] == es[1..][i - 1];
    }
  }

  // ---------------------------------------------------------------- per path

  lemma {:induction false} OnPathOf(server: Server, es: seq<Extent>, path: string)
    ensures OnPath(ManifestOf(server, es), path) == ManifestOf(server, ExtentsOn(es, path))
    decreases |es|
  {
    if es != [] {
      var n := |es| - 1;
      OnPathOf(server, es[..n], path);
      assert ManifestOf(server, es)[..n] == ManifestOf(server, es[..n]);
      if es[n].path == path {
        var on := ExtentsOn(es[..n], path);
        assert (on + [es[n]])[..|on|] == on;
      }
    }
  }

  lemma {:induction false} ExtentsOnConcat(a: seq<Extent>, b: seq<Extent>, path: string)
    ensures ExtentsOn(a + b, path) == ExtentsOn(a, path) + ExtentsOn(b, path)
    decreases |b|
  {
    if b == [] {
      assert a + b == a;
    } else {
      var n := |b| - 1;
      ExtentsOnConcat(a, b[..n], path);
      assert (a + b)[..|a| + n] == a + b[..n] && (a + b)[|a| + n] == b[n];
    }
  }

  lemma {:induction false} ExtentsOnAll(es: seq<Extent>, path: string)
    requires forall e :: e in es ==> e.path == path
    ensures ExtentsOn(es, path) == es
    decreases |es|
  {
    if es != [] {
      ExtentsOnAll(es[..|es| - 1], path);
      assert es == es[..|es| - 1] + [es[|es| - 1]];
    }
  }

  lemma {:induction false} ExtentsOnNone(es: seq<Extent>, path: string)
    requires forall e :: e in es ==> e.path != path
    ensures ExtentsOn(es, path) == []
    decreases |es|
  {
    if es != [] {
      ExtentsOnNone(es[..|es| - 1], path);
    }
  }

  predicate DistinctPaths(sources: seq<Source>) {
    forall i, j :: 0 <= i < j < |sources| ==> sources[i].path != sources[j].path
  }

  lemma DistinctInit(sources: seq<Source>)
    requires sources != [] && DistinctPaths(sources)
    ensures var init, last := sources[..|sources| - 1], sources[|sources| - 1];
            && DistinctPaths(init)
            && (forall s :: s in sources <==> s in init || s == last)
            && forall s :: s in init ==> s.path != last.path
  {
    var n := |sources| - 1;
    assert sources == sources[..n] + [sources[n]];
  }

  /** On the path of a source, a backup's extents are those cut from it; on any other path there are none. */
  lemma {:induction false} SourceOnPath(cut: Cutter, sources: seq<Source>, path: string)
    requires Faithful(cut) && DistinctPaths(sources)
    ensures forall s :: s in sources && s.path == path ==> ExtentsOn(SourceExtents(cut, sources), path) == cut(s)
    ensures (forall s :: s in sources ==> s.path != path) ==> ExtentsOn(SourceExtents(cut, sources), path) == []
    decreases |sources|
  {
    hide Faithful, DistinctPaths;
    if sources != [] {
      var n := |sources| - 1;
      var init, last := sources[..n], sources[n];
      DistinctInit(sources);
      SourceOnPath(cut, init, path);
      ExtentsOnConcat(SourceExtents(cut, init), cut(last), path);
      CutOnPath(cut, last, path);
    }
  }

  lemma {:induction false} CutOnPath(cut: Cutter, s: Source, path: string)
    requires Faithful(cut)
    ensures ExtentsOn(cut(s), path) == if s.path == path then cut(s) else []
  {
    hide Carry;
    if s.path == path {
      ExtentsOnAll(cut(s), path);
    } else {
      ExtentsOnNone(cut(s), path);
    }
  }

  // ---------------------------------------------------------------- reading back

  /** Every block of the extents reads as the data that was backed up. */
  ghost predicate Readable(server: Server, store: map<Hash, bytes>, es: seq<Extent>) {
    forall e :: e in es ==> Fetch(server, store, Id(server, e)) == Ok(e.data)
  }

  lemma IndexedIsReadable(server: Server, seen: iset<bytes>, v: State, es: seq<Extent>)
    requires Sound(server, seen, v) && InjectiveOn(server.alg, seen)
    requires forall e :: e in es ==> e.data in seen && Id(server, e) in v.refs
    ensures Readable(server, v.store, es)
  {
    hide Sound, Fetch;
    forall e | e in es
      ensures Fetch(server, v.store, Id(server, e)) == Ok(e.data)
    {
      FetchIndexed(server, seen, v, e.data);
    }
  }

  lemma {:induction false} ManifestHead(server: Server, es: seq<Extent>)
    requires es != []
    ensures ManifestOf(server, es) == [BlockOf(server, es[0])] + ManifestOf(server, es[1..])
  {
  }

  lemma {:induction false} WriteHead(server: Server, store: map<Hash, bytes>, b: FileBlock, bs: seq<FileBlock>, data: bytes)
    requires Fetch(server, store, b.id) == Ok(data)
    ensures WriteAll(server, store, [b] + bs) == Preceded(data, |data|, WriteAll(server, store, bs))
  {
    hide Fetch, Preceded;
    assert ([b] + bs)[1..] == bs;
  }

  /** Readable extents that carry a content are written back as that content. */
  lemma {:induction false} CarriedIsWritten(server: Server, store: map<Hash, bytes>, es: seq<Extent>, content: bytes, start: nat)
    requires start <= |content| && Carry(es, content, start, |content|) && Readable(server, store, es)
    ensures WriteAll(server, store, ManifestOf(server, es)) == (content[start..], Ok(|content| - start))
    decreases |es|
  {
    hide Fetch, Readable, Preceded, BlockOf, WriteAll, ManifestOf;
    if es == [] {
      WriteNothing(server, store, content);
    } else {
      var e, rest := es[0], es[1..];
      var next := start + |e.data|;
      ReadableHead(server, store, es);
      CarriedIsWritten(server, store, rest, content, next);
      ManifestHead(server, es);
      WriteHead(server, store, BlockOf(server, e), ManifestOf(server, rest), e.data);
      WrittenConcat(content, start, next);
    }
  }

  lemma {:induction false} WriteNothing(server: Server, store: map<Hash, bytes>, content: bytes)
    ensures WriteAll(server, store, ManifestOf(server, [])) == (content[|content|..], Ok(0))
  {
    assert content[|content|..] == [];
  }

  lemma WrittenConcat(content: bytes, start: nat, next: nat)
    requires start <= next <= |content|
    ensures Preceded(content[start..next], next - start, (content[next..], Ok(|content| - next))) == (content[start..], Ok(|content| - start))
  {
    assert content[start..] == content[start..next] + content[next..];
  }

  lemma ReadableHead(server: Server, store: map<Hash, bytes>, es: seq<Extent>)
    requires es != [] && Readable(server, store, es)
    ensures Fetch(server, store, BlockOf(server, es[0]).id) == Ok(es[0].data) && Readable(server, store, es[1..])
  {
    hide Fetch;
    assert es[0] in es;
  }

  lemma {:induction false} ExtentsOnSubset(es: seq<Extent>, path: string)
    ensures forall e :: e in ExtentsOn(es, path) ==> e in es
    decreases |es|
  {
    if es != [] {
      ExtentsOnSubset(es[..|es| - 1], path);
    }
  }

  lemma {:induction false} ReadableOn(server: Server, store: map<Hash, bytes>, es: seq<Extent>, path: string)
    requires Readable(server, store, es)
    ensures Readable(server, store, ExtentsOn(es, path))
  {
    hide Fetch, ExtentsOn;
    ExtentsOnSubset(es, path);
  }

  lemma {:induction false} CarriersOf(es: seq<Extent>, content: bytes)
    requires Carry(es, content, 0, |content|) && content != []
    ensures es != []
  {
  }

  /** A path whose extents carry a non-empty content is grouped, and delivers it if the path is safe. */
  lemma {:induction false} PathDelivers(server: Server, store: map<Hash, bytes>, es: seq<Extent>, wanted: string -> bool, path: string, content: bytes)
    requires wanted(path) && Readable(server, store, es)
    requires Carry(ExtentsOn(es, path), content, 0, |content|) && content != []
    ensures var groups := Groups(ManifestOf(server, es), wanted);
            path in groups && (SafeJoin(path).Some? ==> Delivers(server, store, groups, path, content))
  {
    hide SafeJoin, WriteAll, Fetch, Carry, Readable, Groups, OnPath, ExtentsOn, Ascending;
    var on := ExtentsOn(es, path);
    OnPathOf(server, es, path);
    CarryAscends(server, on, content, 0, |content|);
    GroupIsOnPath(ManifestOf(server, es), wanted, path);
    ReadableOn(server, store, es, path);
    CarriedIsWritten(server, store, on, content, 0);
    CarriersOf(on, content);
    assert content[0..] == content;
  }

  // ---------------------------------------------------------------- end to end

  /** The non-empty contents by path. */
  function Contents(sources: seq<Source>): map<string, bytes> {
    if sources == [] then map[]
    else
      var last := sources[|sources| - 1];
      var before := Contents(sources[..|sources| - 1]);
      if last.content == [] then before else before[last.path := last.content]
  }

  lemma {:induction false} ContentsAre(sources: seq<Source>)
    requires DistinctPaths(sources)
    ensures forall p :: p in Contents(sources) <==> exists s :: s in sources && s.path == p && s.content != []
    ensures forall s :: s in sources && s.content != [] ==> Contents(sources)[s.path] == s.content
    decreases |sources|
  {
    if sources != [] {
      DistinctInit(sources);
      ContentsAre(sources[..|sources| - 1]);
    }
  }

  lemma {:induction false} SourceDelivers(server: Server, store: map<Hash, bytes>, cut: Cutter, sources: seq<Source>, s: Source, wanted: string -> bool)
    requires Faithful(cut) && DistinctPaths(sources) && s in sources && s.content != []
    requires wanted(s.path) && Readable(server, store, SourceExtents(cut, sources))
    ensures var groups := Groups(ManifestOf(server, SourceExtents(cut, sources)), wanted);
            s.path in groups && (SafeJoin(s.path).Some? ==> Delivers(server, store, groups, s.path, s.content))
  {
    hide SafeJoin, WriteAll, Carry, Readable;
    SourceOnPath(cut, sources, s.path);
    PathDelivers(server, store, SourceExtents(cut, sources), wanted, s.path, s.content);
  }

  lemma {:induction false} ExtentsHaveContent(cut: Cutter, sources: seq<Source>, path: string)
    requires Faithful(cut) && DistinctPaths(sources)
    ensures ExtentsOn(SourceExtents(cut, sources), path) != [] ==> path in Contents(sources)
  {
    hide Contents;
    ContentsAre(sources);
    SourceOnPath(cut, sources, path);
    if s :| s in sources && s.path == path {
      assert s.content == [] ==> cut(s) == [];
    }
  }

  lemma {:induction false} GroupsHaveContent(server: Server, cut: Cutter, sources: seq<Source>, wanted: string -> bool)
    requires Faithful(cut) && DistinctPaths(sources)
    ensures forall p :: p in Groups(ManifestOf(server, SourceExtents(cut, sources)), wanted) ==> wanted(p) && p in Contents(sources)
  {
    hide Contents, Groups, OnPath, Faithful;
    var m := ManifestOf(server, SourceExtents(cut, sources));
    GroupedPaths(m, wanted);
    forall p | p in Groups(m, wanted)
      ensures p in Contents(sources)
    {
      OnPathOf(server, SourceExtents(cut, sources), p);
      ExtentsHaveContent(cut, sources, p);
    }
  }

  /**
   * A restore of the selected sources: every selected non-empty source is there with its
   * bytes (unless a file was there and may not be overwritten), no other file is created or
   * changed, and where there was no file a selected source is there exactly if it is not empty.
   */
  ghost predicate Restored(sources: seq<Source>, wanted: string -> bool, files: Files, files': Files, overwrite: bool) {
    && (forall s :: s in sources && wanted(s.path) && s.content != [] ==>
          Normalize(s.path) in files' && files'[Normalize(s.path)] == Final(files, Normalize(s.path), s.content, overwrite))
    && (forall t :: t in files && (forall s :: s in sources && wanted(s.path) && s.content != [] ==> Normalize(s.path) != t) ==>
          t in files' && files'[t] == files[t])
    && (forall t :: t in files' && t !in files ==>
          exists s :: s in sources && wanted(s.path) && s.content != [] && Normalize(s.path) == t)
    && (DistinctNames(sources) ==> forall s :: s in sources && wanted(s.path) && Normalize(s.path) !in files ==>
          (Normalize(s.path) in files' <==> s.content != []))
  }

  /** The order takes each path of the backup's groups once, to files of their own below the restore root. */
  ghost predicate Orders(server: Server, cut: Cutter, sources: seq<Source>, wanted: string -> bool, order: seq<string>) {
    && Enumerates(order, Groups(ManifestOf(server, SourceExtents(cut, sources)), wanted).Keys)
    && DistinctTargets(order) && forall p :: p in order ==> SafeJoin(p).Some?
  }

  lemma {:induction false} GroupsDeliver(server: Server, store: map<Hash, bytes>, cut: Cutter, sources: seq<Source>,
                                         wanted: string -> bool, order: seq<string>)
    requires Faithful(cut) && DistinctPaths(sources) && Readable(server, store, SourceExtents(cut, sources))
    requires Orders(server, cut, sources, wanted, order)
    ensures var groups := Groups(ManifestOf(server, SourceExtents(cut, sources)), wanted);
            && (forall p :: p in order ==> p in groups && p in Contents(sources) && Delivers(server, store, groups, p, Contents(sources)[p]))
            && (forall p :: p in order <==> exists s :: s in sources && wanted(s.path) && s.content != [] && s.path == p)
  {
    hide Faithful, SafeJoin, Normalize, WriteAll, Groups, SourceExtents, Contents, Readable;
    ContentsAre(sources);
    GroupsHaveContent(server, cut, sources, wanted);
    forall s | s in sources && s.content != [] && wanted(s.path)
      ensures var groups := Groups(ManifestOf(server, SourceExtents(cut, sources)), wanted);
              s.path in groups && (SafeJoin(s.path).Some? ==> Delivers(server, store, groups, s.path, s.content))
    {
      SourceDelivers(server, store, cut, sources, s, wanted);
    }
  }

  /** A store from which every block of the sources reads restores them. */
  lemma {:induction false} ReadableRestores(server: Server, store: map<Hash, bytes>, cut: Cutter, sources: seq<Source>, files: Files,
                                            wanted: string -> bool, order: seq<string>, overwrite: bool)
    requires Faithful(cut) && DistinctPaths(sources) && Readable(server, store, SourceExtents(cut, sources))
    requires Orders(server, cut, sources, wanted, order)
    ensures var groups := Groups(ManifestOf(server, SourceExtents(cut, sources)), wanted);
            && (forall p :: p in order ==> p in groups)
            && var (files', r) := RestoreAll(server, store, files, groups, order, overwrite);
               r.Ok? && Restored(sources, wanted, files, files', overwrite)
  {
    hide Faithful, SafeJoin, Normalize, WriteAll, Groups, SourceExtents, Contents, RestoreAll, Final, Readable, Delivers,
      ManifestOf, DistinctPaths, DistinctNames, DistinctTargets, Enumerates;
    GroupsDeliver(server, store, cut, sources, wanted, order);
    ContentsAre(sources);
    var groups := Groups(ManifestOf(server, SourceExtents(cut, sources)), wanted);
    RestoreWrites(server, store, files, groups, order, Contents(sources), overwrite);
    var files' := RestoreAll(server, store, files, groups, order, overwrite).0;
    forall t | t in files' && t !in files
      ensures exists s :: s in sources && wanted(s.path) && s.content != [] && Normalize(s.path) == t
    {
      var p :| p in order && Normalize(p) == t;
    }
    if DistinctNames(sources) {
      NamesAreOwn(sources);
    }
  }

  /**
   * After any history of backups, deletions, reconciliations and crashes, a backup that
   * completes restores every selected non-empty source byte for byte, in whatever order
   * the restore takes the paths, and creates and changes no other file. Where there was no
   * file before, a selected source is restored exactly if it is not empty.
   */
  lemma {:induction false} BackupThenRestore(server: Server, seen: iset<bytes>, events: seq<Event>, job: Job, nonces: Nonces, snap: SnapId,
                                             cut: Cutter, sources: seq<Source>, files: Files, wanted: string -> bool, order: seq<string>,
                                             overwrite: bool)
    requires FeasibleHistory(server, seen, events) && InjectiveOn(server.alg, seen)
    requires Faithful(cut) && DistinctPaths(sources) && Encodable(server, seen, job, nonces, SourceExtents(cut, sources))
    requires Orders(server, cut, sources, wanted, order)
    ensures var v := Replay(server, EMPTY, events);
            var w := ApplyAll(v, BackupSteps(server, job, nonces, v, snap, SourceExtents(cut, sources)));
            && snap in w.rows && snap in w.manifests && w.manifests[snap] == ManifestOf(server, SourceExtents(cut, sources))
            && (forall p :: p in order ==> p in Groups(w.manifests[snap], wanted))
            && var (files', r) := RestoreAll(server, w.store, files, Groups(w.manifests[snap], wanted), order, overwrite);
               r.Ok? && Restored(sources, wanted, files, files', overwrite)
  {
    hide Sound, Encodable, Faithful, Replay, BackupSteps, Groups, SourceExtents, Fetch, RestoreAll, Orders, Restored, Readable;
    var es := SourceExtents(cut, sources);
    var v := Replay(server, EMPTY, events);
    EmptyIsSound(server, seen);
    HistoryKeepsSound(server, seen, EMPTY, events);
    BackupKeepsSound(server, seen, job, nonces, v, snap, es);
    var w := ApplyAll(v, BackupSteps(server, job, nonces, v, snap, es));
    AlongEnds(Soundness(server, seen), v, BackupSteps(server, job, nonces, v, snap, es));
    EncodableSeen(server, seen, job, nonces, es);
    IndexedIsReadable(server, seen, w, es);
    ReadableRestores(server, w.store, cut, sources, files, wanted, order, overwrite);
  }

  /** No two sources are restored to the same file. */
  predicate DistinctNames(sources: seq<Source>) {
    forall i, j :: 0 <= i < j < |sources| ==> Normalize(sources[i].path) != Normalize(sources[j].path)
  }

  lemma NamesAreOwn(sources: seq<Source>)
    requires DistinctNames(sources)
    ensures forall a, b :: a in sources && b in sources && Normalize(a.path) == Normalize(b.path) ==> a == b
  {
    hide Normalize;
    forall a, b | a in sources && b in sources && Normalize(a.path) == Normalize(b.path)
      ensures a == b
    {
      var i, j :| 0 <= i < |sources| && sources[i] == a && 0 <= j < |sources| && sources[j] == b;
    }
  }

  /** An empty file has no blocks: a backup of it alone restores nothing, whatever is asked for and whatever is there. */
  lemma {:induction false} EmptyFileIsNotRestored(server: Server, store: map<Hash, bytes>, c: Chunker, path: string, files: Files,
                                                  wanted: string -> bool, overwrite: bool)
    ensures var m := ManifestOf(server, SourceExtents(FileCutter(c), [Source(path, [])]));
            m == [] && Groups(m, wanted) == map[] && RestoreAll(server, store, files, Groups(m, wanted), [], overwrite) == (files, Ok(0))
  {
    var sources := [Source(path, [])];
    assert sources[..0] == [];
    assert FileCutter(c)(sources[0]) == [];
    assert SourceExtents(FileCutter(c), sources) == [] + [];
  }

  lemma EmptyIsSound(server: Server, seen: iset<bytes>)
    ensures Sound(server, seen, EMPTY)
  {
  }

  lemma EncodableSeen(server: Server, seen: iset<bytes>, job: Job, nonces: Nonces, es: seq<Extent>)
    requires Encodable(server, seen, job, nonces, es)
    ensures forall e :: e in es ==> e.data in seen
  {
  }
}
