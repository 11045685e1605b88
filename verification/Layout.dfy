/**
 * What the manifest of a backup says of its sources, and where disks are cut
 * (core/src/pipeline/mod.rs:127-153, 216-289 and core/src/backup/vm.rs:83-106).
 */
module Layout {
  import opened Common
  import opened Chunking
  import opened Codec
  import opened Vault
  import opened Backup
  import opened Restore
  import opened DataPlane

  // ---------------------------------------------------------------- manifests

  /** Block i is a non-empty piece of the content, named by the hash of its bytes, and ends where the next begins or the content ends. */
  predicate CoversAt(alg: Algorithms, path: string, content: bytes, m: Manifest, i: nat)
    requires i < |m|
  {
    && m[i].path == path && m[i].size > 0
    && m[i].offset + m[i].size == (if i + 1 < |m| then m[i + 1].offset else |content|)
    && m[i].offset + m[i].size <= |content|
    && m[i].id == alg.sha256(content[m[i].offset..m[i].offset + m[i].size])
  }

  /** Blocks that cover content from `start` on without gap or overlap. */
  predicate Covers(alg: Algorithms, path: string, content: bytes, start: nat, m: Manifest) {
    && (if m == [] then start == |content| else m[0].offset == start)
    && forall i :: 0 <= i < |m| ==> CoversAt(alg, path, content, m, i)
  }

  lemma CoversCons(alg: Algorithms, path: string, content: bytes, b: FileBlock, rest: Manifest)
    requires b.path == path && b.size > 0 && b.offset + b.size <= |content|
    requires b.id == alg.sha256(content[b.offset..b.offset + b.size]) && Covers(alg, path, content, b.offset + b.size, rest)
    ensures Covers(alg, path, content, b.offset, [b] + rest)
  {
    var m := [b] + rest;
    forall i | 0 <= i < |m|
      ensures CoversAt(alg, path, content, m, i)
    {
      if i > 0 {
        assert m[i] == rest[i - 1];
        assert CoversAt(alg, path, content, rest, i - 1);
        assert i + 1 < |m| ==> m[i + 1] == rest[i];
      } else if rest != [] {
        assert m[1] == rest[0];
      }
    }
  }

  lemma {:induction false} CarriedCovers(server: Server, path: string, es: seq<Extent>, content: bytes, start: nat)
    requires start <= |content| && Carry(es, content, start, |content|) && forall e :: e in es ==> e.path == path
    ensures Covers(server.alg, path, content, start, ManifestOf(server, es))
    decreases |es|
  {
    hide Covers, ManifestOf;
    if es == [] {
      NothingCovers(server, path, content);
    } else {
      assert es == [es[0]] + es[1..];
      CarriedCovers(server, path, es[1..], content, start + |es[0].data|);
      ManifestHead(server, es);
      CoversCons(server.alg, path, content, BlockOf(server, es[0]), ManifestOf(server, es[1..]));
    }
  }

  lemma {:induction false} NothingCovers(server: Server, path: string, content: bytes)
    ensures Covers(server.alg, path, content, |content|, ManifestOf(server, []))
  {
  }

  /** On the path of each source a manifest has blocks that cover it exactly, named by the hashes of their bytes. */
  lemma {:induction false} ManifestCovers(server: Server, cut: Cutter, sources: seq<Source>, s: Source)
    requires Faithful(cut) && DistinctPaths(sources) && s in sources
    ensures Covers(server.alg, s.path, s.content, 0, OnPath(ManifestOf(server, SourceExtents(cut, sources)), s.path))
  {
    hide Covers, Carry, DistinctPaths;
    OnPathOf(server, SourceExtents(cut, sources), s.path);
    SourceOnPath(cut, sources, s.path);
    CarriedCovers(server, s.path, cut(s), s.content, 0);
  }

  // ---------------------------------------------------------------- disks

  lemma {:induction false} CarriedWithin(es: seq<Extent>, content: bytes, start: nat, end: nat)
    requires start <= end <= |content| && Carry(es, content, start, end)
    ensures forall e :: e in es ==> start <= e.offset < end
    decreases |es|
  {
    if es != [] {
      assert es == [es[0]] + es[1..];
      CarriedWithin(es[1..], content, start + |es[0].data|, end);
    }
  }

  /** The chunks of one window, chunked as a buffer of its own. */
  function WindowExtents(c: Chunker, s: Source, lo: nat, hi: nat): seq<Extent>
    requires lo <= hi <= |s.content|
  {
    ExtentsOf(s.path, lo, Chunks(c, s.content[lo..hi], 0))
  }

  lemma {:induction false} WindowWithin(c: Chunker, s: Source, lo: nat, hi: nat)
    requires lo < hi <= |s.content|
    ensures forall e :: e in WindowExtents(c, s, lo, hi) ==> lo <= e.offset < hi
  {
    hide Chunks, Carry;
    ChunksTile(c, s.content[lo..hi], 0);
    TilesCarry(s.path, Chunks(c, s.content[lo..hi], 0), s.content, lo, hi, 0);
    CarriedWithin(WindowExtents(c, s, lo, hi), s.content, lo, hi);
  }

  lemma {:induction false} WindowFrom(c: Chunker, s: Source, j: nat, k: nat, e: Extent)
    requires j <= k && k * 8_388_608 < |s.content|
    ensures var lo, hi := k * 8_388_608, Min(k * 8_388_608 + 8_388_608, |s.content|);
            e in DiskExtents(c, s, j * 8_388_608) && lo <= e.offset < hi <==> e in WindowExtents(c, s, lo, hi)
    decreases k - j
  {
    hide Chunks, Carry;
    var from := j * 8_388_608;
    var end := Min(from + 8_388_608, |s.content|);
    WindowWithin(c, s, from, end);
    DiskCarries(c, s, end);
    CarriedWithin(DiskExtents(c, s, end), s.content, end, |s.content|);
    assert DiskExtents(c, s, from) == WindowExtents(c, s, from, end) + DiskExtents(c, s, end);
    if j < k {
      WindowFrom(c, s, j + 1, k, e);
      WindowWithin(c, s, k * 8_388_608, Min(k * 8_388_608 + 8_388_608, |s.content|));
    }
  }

  /** A disk is cut at every multiple of 8 MiB, and between two of them as the bytes there would be alone. */
  lemma {:induction false} DiskWindows(c: Chunker, s: Source, k: nat, e: Extent)
    requires k * 8_388_608 < |s.content|
    ensures var lo, hi := k * 8_388_608, Min(k * 8_388_608 + 8_388_608, |s.content|);
            e in DiskCutter(c)(s) && lo <= e.offset < hi <==> e in ExtentsOf(s.path, lo, Chunks(c, s.content[lo..hi], 0))
  {
    hide Chunks, DiskExtents;
    WindowFrom(c, s, 0, k, e);
  }
}
