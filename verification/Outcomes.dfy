/**
 * What a restore answers and leaves, whatever is missing or damaged (stream_restore and
 * safe_join in core/src/restore/mod.rs:226-279, 379-400): stated over the paths in their
 * order, the stored bytes, the decoder and the hash, without the restore's loops.
 */
module Outcomes {
  import opened Common
  import opened Codec
  import opened Vault
  import opened Restore

  // ---------------------------------------------------------------- one block

  /** The block is stored, decodes, and has its id as SHA-256. */
  predicate Intact(server: Server, store: map<Hash, bytes>, b: FileBlock) {
    && b.id in store
    && var r := Decode(server.alg, store[b.id], server.key);
       r.Ok? && server.alg.sha256(r.value) == b.id
  }

  /** The decoded bytes of an intact block. */
  function Plain(server: Server, store: map<Hash, bytes>, b: FileBlock): bytes {
    if Intact(server, store, b) then Decode(server.alg, store[b.id], server.key).value else []
  }

  /** Why a block is not intact. */
  function Damage(server: Server, store: map<Hash, bytes>, b: FileBlock): RestoreError {
    if b.id !in store then BlockMissing
    else if Decode(server.alg, store[b.id], server.key).Err? then Undecodable
    else Corrupt
  }

  lemma FetchExactly(server: Server, store: map<Hash, bytes>, b: FileBlock)
    ensures Fetch(server, store, b.id) ==
            if Intact(server, store, b) then Ok(Plain(server, store, b)) else Err(Damage(server, store, b))
  {
    hide Decode;
  }

  // ---------------------------------------------------------------- one file

  predicate AllIntact(server: Server, store: map<Hash, bytes>, bs: seq<FileBlock>) {
    forall b :: b in bs ==> Intact(server, store, b)
  }

  /** The blocks' bytes, one after another. */
  function Joined(server: Server, store: map<Hash, bytes>, bs: seq<FileBlock>): bytes {
    if bs == [] then [] else Plain(server, store, bs[0]) + Joined(server, store, bs[1..])
  }

  /** Block i is the first that is not intact. */
  predicate BreaksAt(server: Server, store: map<Hash, bytes>, bs: seq<FileBlock>, i: nat) {
    i < |bs| && !Intact(server, store, bs[i]) && AllIntact(server, store, bs[..i])
  }

  lemma {:induction false} FileJoins(server: Server, store: map<Hash, bytes>, bs: seq<FileBlock>)
    requires AllIntact(server, store, bs)
    ensures WriteAll(server, store, bs) == (Joined(server, store, bs), Ok(|Joined(server, store, bs)|))
    decreases |bs|
  {
    hide Intact, Damage, Fetch, Plain;
    if bs != [] {
      assert bs[0] in bs;
      FetchExactly(server, store, bs[0]);
      FileJoins(server, store, bs[1..]);
    }
  }

  lemma {:induction false} FileBreaks(server: Server, store: map<Hash, bytes>, bs: seq<FileBlock>, i: nat)
    requires BreaksAt(server, store, bs, i)
    ensures WriteAll(server, store, bs) == (Joined(server, store, bs[..i]), Err(Damage(server, store, bs[i])))
    decreases |bs|
  {
    hide Intact, Damage, Fetch, Plain;
    FetchExactly(server, store, bs[0]);
    if i > 0 {
      assert bs[0] in bs[..i];
      assert bs[..i][0] == bs[0] && bs[..i][1..] == bs[1..][..i - 1];
      FileBreaks(server, store, bs[1..], i - 1);
    }
  }

  lemma {:induction false} FirstBreak(server: Server, store: map<Hash, bytes>, bs: seq<FileBlock>) returns (i: nat)
    requires !AllIntact(server, store, bs)
    ensures BreaksAt(server, store, bs, i)
    decreases |bs|
  {
    hide Intact;
    var n := |bs| - 1;
    assert bs == bs[..n] + [bs[n]];
    if AllIntact(server, store, bs[..n]) {
      i := n;
    } else {
      i := FirstBreak(server, store, bs[..n]);
      assert bs[..n][..i] == bs[..i];
    }
  }

  /** A file is written with all its blocks, or with those before the first that is not intact. */
  lemma {:induction false} FileExactly(server: Server, store: map<Hash, bytes>, bs: seq<FileBlock>)
    ensures AllIntact(server, store, bs) ==> WriteAll(server, store, bs) == (Joined(server, store, bs), Ok(|Joined(server, store, bs)|))
    ensures forall i: nat :: BreaksAt(server, store, bs, i) ==>
              WriteAll(server, store, bs) == (Joined(server, store, bs[..i]), Err(Damage(server, store, bs[i])))
    ensures !AllIntact(server, store, bs) ==> exists i: nat :: BreaksAt(server, store, bs, i)
  {
    hide Intact, Damage, WriteAll, Joined, AllIntact;
    if AllIntact(server, store, bs) {
      FileJoins(server, store, bs);
    } else {
      var i := FirstBreak(server, store, bs);
    }
    forall i: nat | BreaksAt(server, store, bs, i)
      ensures WriteAll(server, store, bs) == (Joined(server, store, bs[..i]), Err(Damage(server, store, bs[i])))
    {
      FileBreaks(server, store, bs, i);
    }
  }

  // ---------------------------------------------------------------- all files

  /** What the restore is asked for: the blocks of each path, the order of the paths, the files there, and the policy. */
  datatype Request = Request(server: Server, store: map<Hash, bytes>, groups: map<string, seq<FileBlock>>, order: seq<string>,
                             files: Files, overwrite: bool)
  {
    ghost predicate Valid() {
      forall p :: p in order ==> p in groups
    }

    predicate Safe(k: nat)
      requires k < |order|
    {
      Normalize(order[k]) != [] && ".." !in Components(Normalize(order[k]))
    }

    /** The file of the k-th path. */
    function Target(k: nat): string
      requires k < |order|
    {
      Normalize(order[k])
    }

    /** Without overwriting, a path is skipped if its file was there before or is an earlier path's. */
    ghost predicate Skipped(k: nat)
      requires k < |order|
    {
      !overwrite && (Target(k) in files || exists j :: 0 <= j < k && Target(j) == Target(k))
    }

    ghost predicate Fails(k: nat)
      requires k < |order| && Valid()
    {
      !Safe(k) || (!Skipped(k) && !AllIntact(server, store, groups[order[k]]))
    }

    /** The content of the k-th path's blocks. */
    function Content(k: nat): bytes
      requires k < |order| && order[k] in groups
    {
      Joined(server, store, groups[order[k]])
    }

    /** The bytes in the files the first k paths write. */
    ghost function Volume(k: nat): nat
      requires k <= |order| && Valid()
    {
      if k == 0 then 0 else Volume(k - 1) + if Skipped(k - 1) then 0 else |Content(k - 1)|
    }

    /** The k-th path's file is written, and by no later one of the first n paths. */
    ghost predicate Writes(k: nat, n: nat)
      requires k < n <= |order|
    {
      !Skipped(k) && forall j :: k < j < n && !Skipped(j) ==> Target(j) != Target(k)
    }

    /** The files after the first n paths: the last write of each file, every other file as it was, and no more files. */
    ghost predicate FilesAfter(n: nat, after: Files)
      requires n <= |order| && Valid()
    {
      && (forall k :: 0 <= k < n ==> Target(k) in after)
      && (forall k :: 0 <= k < n && Writes(k, n) ==> after[Target(k)] == Content(k))
      && (forall t :: t in files && (forall k :: 0 <= k < n && !Skipped(k) ==> Target(k) != t) ==> t in after && after[t] == files[t])
      && (forall t :: t in after ==> t in files || exists k :: 0 <= k < n && Target(k) == t)
    }

    /** The restore stops at path k: nothing of it if it is unsafe, else its file with the blocks before the first that is not intact. */
    ghost predicate StopsAt(k: nat, after: Files, error: RestoreError)
      requires k < |order| && Valid()
    {
      if !Safe(k) then error == UnsafePath && FilesAfter(k, after)
      else
        exists i: nat, before ::
          && BreaksAt(server, store, groups[order[k]], i) && error == Damage(server, store, groups[order[k]][i])
          && FilesAfter(k, before) && after == before[Target(k) := Joined(server, store, groups[order[k]][..i])]
    }

    ghost predicate FirstFailure(k: nat)
      requires k < |order| && Valid()
    {
      Fails(k) && forall j :: 0 <= j < k ==> !Fails(j)
    }

    function Rest(k: nat, now: Files): (Files, Outcome)
      requires k <= |order| && forall p :: p in order ==> p in groups
    {
      RestoreAll(server, store, now, groups, order[k..], overwrite)
    }

    // -------------------------------------------------------------- path by path

    lemma SkipTest(k: nat, now: Files)
      requires Valid() && k < |order| && FilesAfter(k, now)
      ensures Skipped(k) <==> !overwrite && Target(k) in now
    {
      hide Normalize;
    }

    lemma WritesBefore(j: nat, k: nat)
      requires j <= k < |order| && Writes(j, k + 1)
      ensures j < k ==> Writes(j, k) && (!Skipped(k) ==> Target(j) != Target(k))
      ensures j == k ==> !Skipped(k)
    {
      hide Normalize, Skipped;
    }

    lemma NextSkipped(k: nat, now: Files)
      requires Valid() && k < |order| && FilesAfter(k, now) && Skipped(k)
      ensures FilesAfter(k + 1, now)
    {
      hide Normalize, Joined, Skipped, Writes;
      SkipTest(k, now);
      forall j | 0 <= j < k + 1 && Writes(j, k + 1)
        ensures now[Target(j)] == Content(j)
      {
        WritesBefore(j, k);
      }
    }

    lemma NextWritten(k: nat, now: Files)
      requires Valid() && k < |order| && FilesAfter(k, now) && !Skipped(k)
      ensures FilesAfter(k + 1, now[Target(k) := Content(k)])
    {
      hide Normalize, Joined, Skipped, Writes;
      var next := now[Target(k) := Content(k)];
      forall j | 0 <= j < k + 1 && Writes(j, k + 1)
        ensures next[Target(j)] == Content(j)
      {
        WritesBefore(j, k);
      }
      forall t | t in next
        ensures t in files || exists j :: 0 <= j < k + 1 && Target(j) == t
      {
        if t != Target(k) && t !in files {
          var j :| 0 <= j < k && Target(j) == t;
        }
      }
      forall t | t in files && (forall j :: 0 <= j < k + 1 && !Skipped(j) ==> Target(j) != t)
        ensures t in next && next[t] == files[t]
      {
        assert forall j :: 0 <= j < k && !Skipped(j) ==> Target(j) != t;
      }
    }

    /** One path: an error that stops the restore there, or the files after it. */
    lemma OnePath(k: nat, now: Files)
      requires Valid() && k < |order| && FilesAfter(k, now)
      ensures var (next, r) := RestorePath(server, store, now, order[k], groups[order[k]], overwrite);
              if Fails(k) then r.Err? && StopsAt(k, next, r.error)
              else r == Ok(if Skipped(k) then 0 else |Content(k)|) && FilesAfter(k + 1, next)
    {
      hide Normalize, Components, Joined, WriteAll, BreaksAt, AllIntact, FilesAfter, Damage;
      SkipTest(k, now);
      FileExactly(server, store, groups[order[k]]);
      if Safe(k) {
        if Skipped(k) {
          NextSkipped(k, now);
        } else if AllIntact(server, store, groups[order[k]]) {
          NextWritten(k, now);
        } else {
          var i: nat :| BreaksAt(server, store, groups[order[k]], i);
          assert FilesAfter(k, now);
        }
      }
    }

    /** The restore of the paths from the k-th on, when those before went well. */
    ghost predicate EndsWell(k: nat, done: (Files, Outcome))
      requires k <= |order| && Valid()
    {
      && (done.1.Ok? <==> forall j :: k <= j < |order| ==> !Fails(j))
      && (done.1.Ok? ==> Volume(k) + done.1.value == Volume(|order|) && FilesAfter(|order|, done.0))
      && (done.1.Err? ==> forall j :: k <= j < |order| && FirstFailure(j) ==> StopsAt(j, done.0, done.1.error))
    }

    lemma {:induction false} FromPath(k: nat, now: Files)
      requires Valid() && k <= |order| && FilesAfter(k, now) && forall j :: 0 <= j < k ==> !Fails(j)
      ensures EndsWell(k, Rest(k, now))
      decreases |order| - k
    {
      hide FilesAfter, Fails, StopsAt, RestorePath, Skipped, Joined;
      if k < |order| {
        OnePath(k, now);
        assert order[k..][0] == order[k] && order[k..][1..] == order[k + 1..];
        var (next, r) := RestorePath(server, store, now, order[k], groups[order[k]], overwrite);
        if r.Ok? {
          FromPath(k + 1, next);
        }
      }
    }
  }

  /**
   * For all stores, groups, orders and files: a restore ends well exactly when every path is
   * safe and, unless it is skipped, each of its blocks is stored, decodes and has its id as
   * SHA-256; it then reports the bytes of the files written, which hold their blocks' bytes.
   * Otherwise it reports the error of the first path that fails, whose file holds the blocks
   * before the failing one, and touches no later path's file.
   */
  lemma {:induction false} RestoreExactly(q: Request)
    requires q.Valid()
    ensures var (after, r) := RestoreAll(q.server, q.store, q.files, q.groups, q.order, q.overwrite);
            && (r.Ok? <==> forall k :: 0 <= k < |q.order| ==> !q.Fails(k))
            && (r.Ok? ==> r.value == q.Volume(|q.order|) && q.FilesAfter(|q.order|, after))
            && (r.Err? ==> exists k :: 0 <= k < |q.order| && q.FirstFailure(k) && q.StopsAt(k, after, r.error))
  {
    hide Request.Fails, Request.StopsAt, Normalize, Joined;
    assert q.FilesAfter(0, q.files);
    q.FromPath(0, q.files);
    assert q.order[0..] == q.order;
    if k :| 0 <= k < |q.order| && q.Fails(k) {
      var first := FirstFailing(q, k);
    }
  }

  lemma {:induction false} FirstFailing(q: Request, k: nat) returns (first: nat)
    requires q.Valid() && k < |q.order| && q.Fails(k)
    ensures first <= k && q.FirstFailure(first)
    decreases k
  {
    hide Request.Fails;
    if j :| 0 <= j < k && q.Fails(j) {
      first := FirstFailing(q, j);
    } else {
      first := k;
    }
  }
}
