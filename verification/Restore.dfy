/**
 * Reassembling files from a manifest (stream_restore, safe_join, normalize_manifest_path
 * and the path selection of restore_file in core/src/restore/mod.rs).
 */
module Restore {
  import opened Common
  import opened Codec
  import opened Vault

  datatype RestoreError = UnsafePath | BlockMissing | Undecodable | Corrupt

  /** Bytes written, or the first error. */
  type Outcome = Result<int, RestoreError>

  // ---------------------------------------------------------------- paths

  /** Forward slashes only, and none in front. */
  function WithoutLeadingSlash(p: string): string {
    if p != [] && p[0] == '/' then WithoutLeadingSlash(p[1..]) else p
  }

  function WithoutTrailingSlash(p: string): string {
    if p != [] && p[|p| - 1] == '/' then WithoutTrailingSlash(p[..|p| - 1]) else p
  }

  function ForwardSlashes(p: string): (r: string)
    ensures |r| == |p|
  {
    if p == [] then [] else [if p[0] == '\\' then '/' else p[0]] + ForwardSlashes(p[1..])
  }

  function Normalize(p: string): string {
    WithoutLeadingSlash(ForwardSlashes(p))
  }

  /** The components between slashes. */
  function Components(p: string): (cs: seq<string>)
    ensures cs != []
  {
    if p == [] then [[]]
    else Prepend(p[0], Components(p[1..]))
  }

  /** The file below the restore root a manifest path is written to. */
  function SafeJoin(path: string): Option<string> {
    var rel := Normalize(path);
    if rel == [] || ".." in Components(rel) then None else Some(rel)
  }

  /** restore_file's choice: nothing asked for means everything, else the path itself or a directory above it. */
  predicate Selected(asked: seq<string>, path: string) {
    Choice(asked)(path)
  }

  /** No request matches everything, else the path itself or a directory above it must be among them. */
  function Matching(wanted: seq<string>): string -> bool {
    path => wanted == [] || exists f :: f in wanted && (Normalize(path) == f || f + "/" <= Normalize(path))
  }

  function Choice(asked: seq<string>): string -> bool {
    Matching(Wanted(asked))
  }

  datatype SnapshotError = SnapshotNotFound | RestoreFailed(error: RestoreError)

  function Wanted(asked: seq<string>): seq<string> {
    if asked == [] then []
    else
      var f := WithoutTrailingSlash(Normalize(asked[0]));
      (if f == [] then [] else [f]) + Wanted(asked[1..])
  }

  function Prepend(c: char, cs: seq<string>): (r: seq<string>)
    requires cs != []
    ensures r != []
  {
    if c == '/' then [[]] + cs else [[c] + cs[0]] + cs[1..]
  }

  lemma PrependAppend(c: char, a: seq<string>, b: seq<string>)
    requires a != []
    ensures Prepend(c, a + b) == Prepend(c, a) + b
  {
    assert (a + b)[0] == a[0] && (a + b)[1..] == a[1..] + b;
    assert [[]] + (a + b) == ([[]] + a) + b;
    assert [[c] + a[0]] + (a[1..] + b) == ([[c] + a[0]] + a[1..]) + b;
  }

  lemma {:induction false} ComponentsOfJoin(f: string, rest: string)
    ensures Components(f + "/" + rest) == Components(f) + Components(rest)
  {
    hide Prepend;
    var p := f + "/" + rest;
    if f == [] {
      assert p[0] == '/' && p[1..] == rest;
      PrependSlash(Components(rest));
    } else {
      assert p[0] == f[0] && p[1..] == f[1..] + "/" + rest;
      ComponentsOfJoin(f[1..], rest);
      PrependAppend(f[0], Components(f[1..]), Components(rest));
    }
  }

  lemma PrependSlash(cs: seq<string>)
    requires cs != []
    ensures Prepend('/', cs) == [[]] + cs
  {
  }

  function Join(cs: seq<string>): string
    requires cs != []
  {
    if |cs| == 1 then cs[0] else cs[0] + "/" + Join(cs[1..])
  }

  lemma {:induction false} JoinComponents(p: string)
    ensures Join(Components(p)) == p
  {
    if p != [] {
      JoinComponents(p[1..]);
      var rest := Components(p[1..]);
      var cs := Components(p);
      if p[0] == '/' {
        assert cs[1..] == rest;
        assert Join(cs) == [] + "/" + Join(rest);
      } else if |rest| == 1 {
        assert cs == [[p[0]] + rest[0]];
      } else {
        assert cs[1..] == rest[1..];
        assert Join(cs) == [p[0]] + rest[0] + "/" + Join(rest[1..]);
        assert Join(cs) == [p[0]] + (rest[0] + "/" + Join(rest[1..]));
      }
      assert p == [p[0]] + p[1..];
    }
  }

  lemma {:induction false} JoinAppend(a: seq<string>, b: seq<string>)
    requires a != [] && b != []
    ensures Join(a + b) == Join(a) + "/" + Join(b)
  {
    assert (a + b)[0] == a[0] && (a + b)[1..] == a[1..] + b;
    if |a| == 1 {
      assert a[1..] + b == b;
    } else {
      JoinAppend(a[1..], b);
      assert a[0] + "/" + (Join(a[1..]) + "/" + Join(b)) == (a[0] + "/" + Join(a[1..])) + "/" + Join(b);
    }
  }

  /** A path is selected by a name exactly when the name's components are its first components. */
  lemma {:induction false} SelectsWholeComponents(f: string, p: string)
    ensures (p == f || f + "/" <= p) <==> Components(f) <= Components(p)
  {
    if f + "/" <= p {
      var rest := p[|f| + 1..];
      assert p == f + "/" + rest;
      ComponentsOfJoin(f, rest);
    }
    if Components(f) <= Components(p) {
      var rest := Components(p)[|Components(f)|..];
      assert Components(p) == Components(f) + rest;
      JoinComponents(f);
      JoinComponents(p);
      if rest == [] {
        assert Components(p) == Components(f);
      } else {
        JoinAppend(Components(f), rest);
        assert p == f + "/" + Join(rest);
      }
    }
  }

  /** A requested path as the choice uses it: normalised, and without trailing slashes. */
  function Trimmed(f: string): string {
    WithoutTrailingSlash(Normalize(f))
  }

  lemma {:induction false} WantedAre(asked: seq<string>)
    ensures forall f :: f in Wanted(asked) <==> f != [] && exists a :: a in asked && Trimmed(a) == f
    decreases |asked|
  {
    hide Normalize, WithoutTrailingSlash;
    if asked != [] {
      WantedAre(asked[1..]);
      assert asked == [asked[0]] + asked[1..];
      var first := Trimmed(asked[0]);
      assert Wanted(asked) == (if first == [] then [] else [first]) + Wanted(asked[1..]);
      forall f
        ensures f in Wanted(asked) <==> (f != [] && f == first) || f in Wanted(asked[1..])
      {
      }
      forall f | f in Wanted(asked[1..])
        ensures f != [] && exists a :: a in asked && Trimmed(a) == f
      {
        var a :| a in asked[1..] && Trimmed(a) == f;
        assert a in asked;
      }
      assert asked[0] in asked;
    }
  }

  /**
   * restore_file selects a path exactly when nothing is asked for (every request trims to
   * nothing), or the components of some request are the path's first components.
   */
  lemma {:induction false} SelectedExactly(asked: seq<string>, path: string)
    ensures Selected(asked, path) <==>
            (forall a :: a in asked ==> Trimmed(a) == []) ||
            exists a :: a in asked && Trimmed(a) != [] && Components(Trimmed(a)) <= Components(Normalize(path))
  {
    hide Normalize, Components, Wanted, Trimmed;
    WantedAre(asked);
    var wanted, p := Wanted(asked), Normalize(path);
    forall f
      ensures p == f || f + "/" <= p <==> Components(f) <= Components(p)
    {
      SelectsWholeComponents(f, p);
    }
    forall a | a in asked && Trimmed(a) != []
      ensures Trimmed(a) in wanted
    {
    }
    if wanted != [] {
      assert wanted[0] in wanted;
    }
  }

  // ---------------------------------------------------------------- one block

  /** Read, decode and check the hash of one block. */
  function Fetch(server: Server, store: map<Hash, bytes>, id: Hash): Result<bytes, RestoreError> {
    if id !in store then Err(BlockMissing)
    else
      match Decode(server.alg, store[id], server.key)
      case Err(_) => Err(Undecodable)
      case Ok(data) => if server.alg.sha256(data) == id then Ok(data) else Err(Corrupt)
  }

  /** In a sound state an indexed block yields the content that was backed up under its hash. */
  lemma FetchIndexed(server: Server, seen: iset<bytes>, v: State, data: bytes)
    requires Sound(server, seen, v) && InjectiveOn(server.alg, seen) && data in seen
    requires server.alg.sha256(data) in v.refs
    ensures Fetch(server, v.store, server.alg.sha256(data)) == Ok(data)
  {
    assert Holds(server, seen, server.alg.sha256(data), v.store[server.alg.sha256(data)]);
  }

  // ---------------------------------------------------------------- one file

  predicate Ascending(bs: seq<FileBlock>) {
    forall i, j :: 0 <= i < j < |bs| ==> bs[i].offset < bs[j].offset
  }

  /** Insertion into a map ordered by offset; an equal offset is replaced. */
  function Insert(bs: seq<FileBlock>, b: FileBlock): seq<FileBlock> {
    if bs == [] then [b]
    else if bs[0].offset < b.offset then [bs[0]] + Insert(bs[1..], b)
    else if bs[0].offset == b.offset then [b] + bs[1..]
    else [b] + bs
  }

  lemma {:induction false} InsertSorted(bs: seq<FileBlock>, b: FileBlock)
    requires Ascending(bs)
    ensures Ascending(Insert(bs, b))
    ensures forall x :: x in Insert(bs, b) <==> x == b || (x in bs && x.offset != b.offset)
  {
    if bs != [] {
      assert bs == [bs[0]] + bs[1..];
      if bs[0].offset < b.offset {
        InsertSorted(bs[1..], b);
        var tail := Insert(bs[1..], b);
        assert forall i :: 0 <= i < |tail| ==> tail[i] in tail;
      }
    }
  }

  lemma {:induction false} InsertLast(bs: seq<FileBlock>, b: FileBlock)
    requires forall i :: 0 <= i < |bs| ==> bs[i].offset < b.offset
    ensures Insert(bs, b) == bs + [b]
  {
    if bs != [] {
      InsertLast(bs[1..], b);
      assert bs == [bs[0]] + bs[1..];
    }
  }

  /** Fetches and writes blocks in turn: what has been written when it ends, and how. */
  function WriteAll(server: Server, store: map<Hash, bytes>, bs: seq<FileBlock>): (bytes, Outcome) {
    if bs == [] then ([], Ok(0))
    else
      match Fetch(server, store, bs[0].id)
      case Err(e) => ([], Err(e))
      case Ok(data) => Preceded(data, |data|, WriteAll(server, store, bs[1..]))
  }

  function Preceded(content: bytes, written: int, rest: (bytes, Outcome)): (bytes, Outcome) {
    (content + rest.0, if rest.1.Ok? then Ok(written + rest.1.value) else rest.1)
  }

  lemma PrecededTwice(content: bytes, written: int, data: bytes, rest: (bytes, Outcome))
    ensures Preceded(content, written, Preceded(data, |data|, rest)) == Preceded(content + data, written + |data|, rest)
  {
    ConcatAssoc(content, data, rest.0);
  }

  lemma PrecededEnds(content: bytes, written: int, rest: (bytes, Outcome))
    ensures Preceded([], 0, rest) == rest
    ensures rest.0 == [] && rest.1.Err? ==> Preceded(content, written, rest) == (content, rest.1)
    ensures rest == ([], Ok(0)) ==> Preceded(content, written, rest) == (content, Ok(written))
  {
    assert [] + rest.0 == rest.0 && content + [] == content;
  }

  // ---------------------------------------------------------------- all files

  /** Selected blocks by path, in offset order. */
  function Groups(bs: Manifest, wanted: string -> bool): map<string, seq<FileBlock>> {
    if bs == [] then map[]
    else
      var last := bs[|bs| - 1];
      Grouped(Groups(bs[..|bs| - 1], wanted), wanted, last)
  }

  function Grouped(groups: map<string, seq<FileBlock>>, wanted: string -> bool, b: FileBlock): map<string, seq<FileBlock>> {
    if !wanted(b.path) then groups
    else groups[b.path := Insert(if b.path in groups then groups[b.path] else [], b)]
  }

  type Files = map<string, bytes>

  function RestorePath(server: Server, store: map<Hash, bytes>, files: Files, path: string, bs: seq<FileBlock>, overwrite: bool)
    : (Files, Outcome)
  {
    match SafeJoin(path)
    case None => (files, Err(UnsafePath))
    case Some(target) =>
      if target in files && !overwrite then (files, Ok(0))
      else
        var (content, r) := WriteAll(server, store, bs);
        (files[target := content], r)
  }

  function Continued(done: int, rest: (Files, Outcome)): (Files, Outcome) {
    (rest.0, if rest.1.Ok? then Ok(done + rest.1.value) else rest.1)
  }

  /** The paths in some order, up to the first error. */
  function RestoreAll(server: Server, store: map<Hash, bytes>, files: Files, groups: map<string, seq<FileBlock>>,
                      order: seq<string>, overwrite: bool): (Files, Outcome)
    requires forall p :: p in order ==> p in groups
    decreases |order|
  {
    if order == [] then (files, Ok(0))
    else
      var (files', r) := RestorePath(server, store, files, order[0], groups[order[0]], overwrite);
      if r.Err? then (files', r)
      else Continued(r.value, RestoreAll(server, store, files', groups, order[1..], overwrite))
  }

  /** The blocks of one path, in manifest order. */
  function OnPath(bs: Manifest, path: string): seq<FileBlock> {
    if bs == [] then []
    else
      var last := bs[|bs| - 1];
      OnPath(bs[..|bs| - 1], path) + if last.path == path then [last] else []
  }

  lemma AscendingSnoc(bs: seq<FileBlock>, b: FileBlock)
    requires Ascending(bs + [b])
    ensures Ascending(bs) && forall i :: 0 <= i < |bs| ==> bs[i].offset < b.offset
  {
    var all := bs + [b];
    assert all[|bs|] == b;
    assert forall i :: 0 <= i < |bs| ==> all[i] == bs[i];
  }

  /** When a path's blocks come in offset order, its group is those blocks. */
  lemma {:induction false} GroupIsOnPath(bs: Manifest, wanted: string -> bool, path: string)
    requires wanted(path) && Ascending(OnPath(bs, path))
    ensures if OnPath(bs, path) == [] then path !in Groups(bs, wanted)
            else path in Groups(bs, wanted) && Groups(bs, wanted)[path] == OnPath(bs, path)
    decreases |bs|
  {
    if bs != [] {
      var init, last := bs[..|bs| - 1], bs[|bs| - 1];
      var before := OnPath(init, path);
      if last.path == path {
        AscendingSnoc(before, last);
        GroupIsOnPath(init, wanted, path);
        InsertLast(before, last);
      } else {
        assert OnPath(bs, path) == before;
        GroupIsOnPath(init, wanted, path);
      }
    }
  }

  lemma {:induction false} GroupedPaths(bs: Manifest, wanted: string -> bool)
    ensures forall p :: p in Groups(bs, wanted) ==> wanted(p) && OnPath(bs, p) != []
    decreases |bs|
  {
    if bs != [] {
      GroupedPaths(bs[..|bs| - 1], wanted);
    }
  }

  /** The path is safe and its blocks all deliver: together, this content. */
  ghost predicate Delivers(server: Server, store: map<Hash, bytes>, groups: map<string, seq<FileBlock>>, path: string, content: bytes) {
    SafeJoin(path).Some? && path in groups && WriteAll(server, store, groups[path]) == (content, Ok(|content|))
  }

  predicate DistinctTargets(order: seq<string>) {
    forall i, j :: 0 <= i < j < |order| ==> Normalize(order[i]) != Normalize(order[j])
  }

  /** What a file holds after the restore. */
  function Final(files: Files, target: string, content: bytes, overwrite: bool): bytes {
    if target in files && !overwrite then files[target] else content
  }

  /** In whatever order the paths are taken, every file is written with its content and no other file changes. */
  lemma {:induction false} RestoreWrites(server: Server, store: map<Hash, bytes>, files: Files, groups: map<string, seq<FileBlock>>,
                                         order: seq<string>, contents: map<string, bytes>, overwrite: bool)
    requires DistinctTargets(order)
    requires forall p :: p in order ==> p in groups && p in contents && Delivers(server, store, groups, p, contents[p])
    ensures var (files', r) := RestoreAll(server, store, files, groups, order, overwrite);
            && r.Ok?
            && (forall p :: p in order ==> Normalize(p) in files' && files'[Normalize(p)] == Final(files, Normalize(p), contents[p], overwrite))
            && (forall t :: t in files' && t !in files ==> exists p :: p in order && Normalize(p) == t)
            && (forall t :: t in files && (forall p :: p in order ==> Normalize(p) != t) ==> t in files' && files'[t] == files[t])
    decreases |order|
  {
    hide Normalize, WriteAll;
    if order != [] {
      var p, rest := order[0], order[1..];
      assert order == [p] + rest && p in order;
      var t := Normalize(p);
      DistinctTail(order);
      var (files1, r) := RestorePath(server, store, files, p, groups[p], overwrite);
      assert files1 == files[t := Final(files, t, contents[p], overwrite)];
      RestoreWrites(server, store, files1, groups, rest, contents, overwrite);
    }
  }

  lemma DistinctTail(order: seq<string>)
    requires order != [] && DistinctTargets(order)
    ensures DistinctTargets(order[1..])
    ensures forall q :: q in order[1..] ==> Normalize(q) != Normalize(order[0])
    ensures forall q :: q in order <==> q == order[0] || q in order[1..]
  {
    assert order == [order[0]] + order[1..];
  }

  // ---------------------------------------------------------------- the imperative restore

  /** The directory files are restored to. */
  class RestoreTarget {
    var files: Files

    constructor (existing: Files)
      ensures files == existing
    {
      files := existing;
    }

    /** One file: created empty, then extended block by block, so an error leaves what was written. */
    method WriteFile(server: Server, store: map<Hash, bytes>, target: string, bs: seq<FileBlock>) returns (r: Outcome)
      modifies this
      ensures files == old(files)[target := WriteAll(server, store, bs).0]
      ensures r == WriteAll(server, store, bs).1
    {
      hide Fetch, Preceded;
      var content: bytes, written := [], 0;
      files := files[target := content];
      assert bs[0..] == bs;
      PrecededEnds([], 0, WriteAll(server, store, bs));
      for i := 0 to |bs|
        invariant files == old(files)[target := content]
        invariant WriteAll(server, store, bs) == Preceded(content, written, WriteAll(server, store, bs[i..]))
      {
        assert bs[i..][0] == bs[i] && bs[i..][1..] == bs[i + 1..];
        var fetched := Fetch(server, store, bs[i].id);
        PrecededEnds(content, written, WriteAll(server, store, bs[i..]));
        if fetched.Err? {
          return Err(fetched.error);
        }
        PrecededTwice(content, written, fetched.value, WriteAll(server, store, bs[i + 1..]));
        content, written := content + fetched.value, written + |fetched.value|;
        files := files[target := content];
      }
      PrecededEnds(content, written, WriteAll(server, store, []));
      return Ok(written);
    }

    method RestoreOne(server: Server, store: map<Hash, bytes>, path: string, bs: seq<FileBlock>, overwrite: bool)
      returns (r: Outcome)
      modifies this
      ensures (files, r) == RestorePath(server, store, old(files), path, bs, overwrite)
    {
      var target := SafeJoin(path);
      if target.None? {
        return Err(UnsafePath);
      }
      if target.value in files && !overwrite {
        return Ok(0);
      }
      r := WriteFile(server, store, target.value, bs);
    }

    /** `order` is the order in which the hash map of groups happens to yield its paths. */
    method StreamRestore(server: Server, store: map<Hash, bytes>, manifest: Manifest, wanted: string -> bool, overwrite: bool,
                         order: seq<string>)
      returns (r: Outcome)
      requires Enumerates(order, Groups(manifest, wanted).Keys)
      modifies this
      ensures (files, r) == RestoreAll(server, store, old(files), Groups(manifest, wanted), order, overwrite)
    {
      var byPath: map<string, seq<FileBlock>> := map[];
      for i := 0 to |manifest|
        invariant byPath == Groups(manifest[..i], wanted)
      {
        assert manifest[..i + 1][..i] == manifest[..i];
        byPath := Grouped(byPath, wanted, manifest[i]);
      }
      assert manifest[..|manifest|] == manifest;
      r := RestoreGroups(server, store, byPath, order, overwrite);
    }

    /** The requests that trim to something, in order. */
    static method NormalizeRequests(asked: seq<string>) returns (wanted: seq<string>)
      ensures wanted == Wanted(asked)
    {
      hide Normalize, WithoutTrailingSlash;
      wanted := [];
      assert asked[0..] == asked;
      for i := 0 to |asked|
        invariant wanted + Wanted(asked[i..]) == Wanted(asked)
      {
        assert asked[i..][0] == asked[i] && asked[i..][1..] == asked[i + 1..];
        var f := WithoutTrailingSlash(Normalize(asked[i]));
        if f != [] {
          SnocShift(wanted, f, Wanted(asked[i + 1..]));
          wanted := wanted + [f];
        }
      }
    }

    /** restore_file: the requests are normalised, then the selected paths of the snapshot's manifest are restored. */
    method RestoreFile(server: Server, v: State, snap: SnapId, asked: seq<string>, overwrite: bool, order: seq<string>)
      returns (r: Result<int, SnapshotError>)
      requires snap in v.manifests ==> Enumerates(order, Groups(v.manifests[snap], Choice(asked)).Keys)
      modifies this
      ensures snap !in v.manifests ==> r == Err(SnapshotNotFound) && files == old(files)
      ensures snap in v.manifests ==>
                var (files', outcome) := RestoreAll(server, v.store, old(files), Groups(v.manifests[snap], Choice(asked)), order, overwrite);
                files == files' && r == if outcome.Ok? then Ok(outcome.value) else Err(RestoreFailed(outcome.error))
    {
      hide RestoreAll, Groups, Enumerates;
      if snap !in v.manifests {
        return Err(SnapshotNotFound);
      }
      var wanted := NormalizeRequests(asked);
      var outcome := StreamRestore(server, v.store, v.manifests[snap], Matching(wanted), overwrite, order);
      if outcome.Err? {
        return Err(RestoreFailed(outcome.error));
      }
      return Ok(outcome.value);
    }

    method RestoreGroups(server: Server, store: map<Hash, bytes>, byPath: map<string, seq<FileBlock>>, order: seq<string>, overwrite: bool)
      returns (r: Outcome)
      requires forall p :: p in order ==> p in byPath
      modifies this
      ensures (files, r) == RestoreAll(server, store, old(files), byPath, order, overwrite)
    {
      hide RestorePath;
      var processed := 0;
      for i := 0 to |order|
        invariant RestoreAll(server, store, old(files), byPath, order, overwrite) ==
                  Continued(processed, RestoreAll(server, store, files, byPath, order[i..], overwrite))
      {
        assert order[i..][0] == order[i] && order[i..][1..] == order[i + 1..];
        var one := RestoreOne(server, store, order[i], byPath[order[i]], overwrite);
        if one.Err? {
          return one;
        }
        processed := processed + one.value;
      }
      return Ok(processed);
    }
  }

  ghost predicate Enumerates(order: seq<string>, keys: set<string>) {
    (forall p :: p in order <==> p in keys) && forall i, j :: 0 <= i < j < |order| ==> order[i] != order[j]
  }
}
