/**
 * What the path functions of a restore compute, character by character, and where a
 * restore can write (normalize_manifest_path, safe_join and the request trimming of
 * restore_file in core/src/restore/mod.rs:162-176, 281-287, 379-400).
 */
module Paths {
  import opened Common
  import opened Codec
  import opened Vault
  import opened Restore

  // ---------------------------------------------------------------- normalising and trimming

  /** What a character of a manifest path becomes. */
  function Forward(c: char): char {
    if c == '\\' then '/' else c
  }

  lemma {:induction false} ForwardSlashesAre(p: string)
    ensures forall i :: 0 <= i < |p| ==> ForwardSlashes(p)[i] == Forward(p[i])
  {
    if p != [] {
      ForwardSlashesAre(p[1..]);
    }
  }

  lemma {:induction false} LeadingAre(p: string) returns (k: nat)
    ensures k <= |p| && WithoutLeadingSlash(p) == p[k..] && (forall i :: 0 <= i < k ==> p[i] == '/')
    ensures k < |p| ==> p[k] != '/'
  {
    if p != [] && p[0] == '/' {
      k := LeadingAre(p[1..]);
      k := k + 1;
    } else {
      k := 0;
    }
  }

  lemma {:induction false} TrailingAre(p: string) returns (k: nat)
    ensures k <= |p| && WithoutTrailingSlash(p) == p[..k] && (forall i :: k <= i < |p| ==> p[i] == '/')
    ensures k > 0 ==> p[k - 1] != '/'
  {
    if p != [] && p[|p| - 1] == '/' {
      k := TrailingAre(p[..|p| - 1]);
      assert p[..|p| - 1][..k] == p[..k];
      assert forall i :: k <= i < |p| - 1 ==> p[..|p| - 1][i] == p[i];
    } else {
      k := |p|;
    }
  }

  /**
   * A normalised path is the rest of the path from its first character that is no slash of
   * either kind, with backslashes turned: it starts with no slash and has no backslash.
   */
  lemma {:induction false} NormalizeExactly(p: string) returns (k: nat)
    ensures k <= |p| && |Normalize(p)| == |p| - k
    ensures forall i :: 0 <= i < k ==> p[i] in {'/', '\\'}
    ensures forall i :: k <= i < |p| ==> Normalize(p)[i - k] == if p[i] == '\\' then '/' else p[i]
    ensures '\\' !in Normalize(p) && (Normalize(p) != [] ==> Normalize(p)[0] != '/')
  {
    ForwardSlashesAre(p);
    k := LeadingAre(ForwardSlashes(p));
    forall i | k <= i < |p|
      ensures Normalize(p)[i - k] == Forward(p[i])
    {
      assert ForwardSlashes(p)[k..][i - k] == ForwardSlashes(p)[i];
    }
    forall i | 0 <= i < |Normalize(p)|
      ensures Normalize(p)[i] != '\\'
    {
      assert Normalize(p)[i] == Forward(p[i + k]);
    }
  }

  /** A trimmed request is the normalised one up to its last character that is no slash. */
  lemma {:induction false} TrimmedExactly(f: string) returns (k: nat)
    ensures k <= |Normalize(f)| && Trimmed(f) == Normalize(f)[..k]
    ensures forall i :: k <= i < |Normalize(f)| ==> Normalize(f)[i] == '/'
    ensures k > 0 ==> Trimmed(f)[k - 1] != '/'
  {
    hide Normalize;
    k := TrailingAre(Normalize(f));
  }

  // ---------------------------------------------------------------- components

  /** The components are the pieces between the slashes: without a slash, and with slashes between them the path. */
  lemma {:induction false} ComponentsExactly(p: string)
    ensures Join(Components(p)) == p && forall c :: c in Components(p) ==> '/' !in c
  {
    JoinComponents(p);
    NoSlashInside(p);
  }

  lemma {:induction false} NoSlashInside(p: string)
    ensures forall c :: c in Components(p) ==> '/' !in c
  {
    if p != [] {
      NoSlashInside(p[1..]);
      var rest := Components(p[1..]);
      assert rest == [rest[0]] + rest[1..];
    }
  }

  /** Only one way of cutting a path between slashes exists. */
  lemma {:induction false} ComponentsOnly(cs: seq<string>)
    requires cs != [] && forall c :: c in cs ==> '/' !in c
    ensures Components(Join(cs)) == cs
    decreases |cs|
  {
    SingleComponent(cs[0]);
    if |cs| > 1 {
      ComponentsOnly(cs[1..]);
      ComponentsOfJoin(cs[0], Join(cs[1..]));
      assert cs == [cs[0]] + cs[1..];
    } else {
      assert cs == [cs[0]];
    }
  }

  lemma {:induction false} SingleComponent(c: string)
    requires '/' !in c
    ensures Components(c) == [c]
  {
    if c != [] {
      assert c == [c[0]] + c[1..];
      assert c[0] in c;
      SingleComponent(c[1..]);
    }
  }

  // ---------------------------------------------------------------- where a restore writes

  /** Below the restore root: not empty, not absolute, without backslashes, and never up. */
  predicate Below(t: string) {
    t != [] && t[0] != '/' && '\\' !in t && ".." !in Components(t)
  }

  /** safe_join accepts a path exactly if it is more than slashes and has no component "..", and gives its normalised form, which is below the root. */
  lemma {:induction false} SafeJoinExactly(path: string)
    ensures SafeJoin(path).Some? <==> (exists i :: 0 <= i < |path| && path[i] !in {'/', '\\'}) && ".." !in Components(Normalize(path))
    ensures SafeJoin(path).Some? ==> SafeJoin(path).value == Normalize(path) && Below(Normalize(path))
  {
    hide Normalize, Components;
    var k := NormalizeExactly(path);
    if k < |path| {
      assert Normalize(path)[k - k] == if path[k] == '\\' then '/' else path[k];
    }
  }

  /** However a restore ends, every file it has created or changed is below the restore root. */
  lemma {:induction false} RestoreStaysBelow(server: Server, store: map<Hash, bytes>, files: Files, groups: map<string, seq<FileBlock>>,
                                             order: seq<string>, overwrite: bool)
    requires forall p :: p in order ==> p in groups
    ensures var after := RestoreAll(server, store, files, groups, order, overwrite).0;
            && files.Keys <= after.Keys
            && forall t :: t in after && (t !in files || after[t] != files[t]) ==> Below(t)
    decreases |order|
  {
    hide SafeJoin, Normalize, WriteAll, Below;
    if order != [] {
      SafeJoinExactly(order[0]);
      var (next, r) := RestorePath(server, store, files, order[0], groups[order[0]], overwrite);
      if r.Ok? {
        RestoreStaysBelow(server, store, next, groups, order[1..], overwrite);
      }
    }
  }

  // ---------------------------------------------------------------- grouping

  /** The last block of a manifest with its path and offset. */
  ghost predicate LastAt(m: Manifest, i: nat)
    requires i < |m|
  {
    forall j :: i < j < |m| && m[j].path == m[i].path ==> m[j].offset != m[i].offset
  }

  /** The block is the path's last at its offset. */
  ghost predicate Stands(m: Manifest, p: string, b: FileBlock) {
    b.path == p && exists i :: 0 <= i < |m| && m[i] == b && LastAt(m, i)
  }

  /** A wanted path with blocks is grouped, as the last block of each of its offsets, in ascending order of offsets. */
  lemma {:induction false} GroupsExactly(m: Manifest, wanted: string -> bool, p: string)
    ensures p in Groups(m, wanted) <==> wanted(p) && exists i :: 0 <= i < |m| && m[i].path == p
    ensures p in Groups(m, wanted) ==> Ascending(Groups(m, wanted)[p])
    ensures p in Groups(m, wanted) ==>
              forall b :: b in Groups(m, wanted)[p] <==> Stands(m, p, b)
    decreases |m|
  {
    if m != [] {
      var n := |m| - 1;
      var init, last := m[..n], m[n];
      GroupsExactly(init, wanted, p);
      assert m == init + [last];
      if wanted(p) && last.path == p {
        var before := if p in Groups(init, wanted) then Groups(init, wanted)[p] else [];
        InsertSorted(before, last);
        forall b
          ensures b in Groups(m, wanted)[p] <==> Stands(m, p, b)
        {
          GroupedNext(m, b);
        }
      } else if last.path != p {
        forall b
          ensures Stands(m, p, b) <==> Stands(init, p, b)
        {
          OtherPath(m, b, p);
        }
      }
    }
  }

  lemma LastInInit(m: Manifest, i: nat)
    requires i < |m| - 1 && m[|m| - 1].path != m[i].path
    ensures LastAt(m, i) <==> LastAt(m[..|m| - 1], i)
  {
    var init := m[..|m| - 1];
    assert forall j :: 0 <= j < |init| ==> init[j] == m[j];
    if LastAt(init, i) {
      forall j | i < j < |m| && m[j].path == m[i].path
        ensures m[j].offset != m[i].offset
      {
        assert init[j] == m[j];
      }
    }
  }

  /** A block of another path changes nothing for this one. */
  lemma OtherPath(m: Manifest, b: FileBlock, p: string)
    requires m != [] && m[|m| - 1].path != p
    ensures Stands(m, p, b) <==> Stands(m[..|m| - 1], p, b)
  {
    hide LastAt;
    var n := |m| - 1;
    var init := m[..n];
    if Stands(m, p, b) {
      var i :| 0 <= i < |m| && m[i] == b && LastAt(m, i);
      LastInInit(m, i);
      assert init[i] == b;
    }
    if Stands(init, p, b) {
      var i :| 0 <= i < n && init[i] == b && LastAt(init, i);
      LastInInit(m, i);
      assert m[i] == b;
    }
  }

  /** With one more block of the path: that one, and those before that are last at another offset. */
  lemma GroupedNext(m: Manifest, b: FileBlock)
    requires m != []
    ensures var n, last := |m| - 1, m[|m| - 1];
            Stands(m, last.path, b) <==> b == last || (b.offset != last.offset && Stands(m[..n], last.path, b))
  {
    var n := |m| - 1;
    var init, last := m[..n], m[n];
    assert forall j :: 0 <= j < n ==> init[j] == m[j];
    if Stands(m, last.path, b) {
      var i :| 0 <= i < |m| && m[i] == b && LastAt(m, i);
      if i < n {
        assert m[n].path == m[i].path;
        assert LastAt(init, i) && init[i] == b;
      }
    }
    if b == last {
      assert LastAt(m, n);
    } else if b.offset != last.offset && Stands(init, last.path, b) {
      var i :| 0 <= i < n && init[i] == b && LastAt(init, i);
      assert LastAt(m, i);
    }
  }
}
