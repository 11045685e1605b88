/**
 * The durable state of a backup server with one repository and one key, and the atomic
 * steps that change it: rows of the application database, the block index (refcounts,
 * manifests, snapshot entries; core/src/index/mod.rs) and the stored blocks.
 *
 * A crash leaves the state some prefix of an operation's steps has produced.
 */
module Vault {
  import opened Common
  import opened Codec

  type SnapId = string

  datatype FileBlock = FileBlock(path: string, offset: nat, size: nat, id: Hash)
  type Manifest = seq<FileBlock>

  datatype State = State(
    rows: set<SnapId>,
    refs: map<Hash, nat>,
    manifests: map<SnapId, Manifest>,
    entries: set<SnapId>,
    store: map<Hash, bytes>)

  const EMPTY := State({}, map[], map[], {}, map[])

  datatype Step =
    | WriteBlock(id: Hash, raw: bytes)
    | AddBlock(id: Hash)
    | RemoveBlock(id: Hash)
    | DeleteBlock(id: Hash)
    | SaveManifest(snap: SnapId, manifest: Manifest)
    | DropManifest(snap: SnapId)
    | AddEntry(snap: SnapId)
    | DropEntry(snap: SnapId)
    | InsertRow(snap: SnapId)
    | DeleteRow(snap: SnapId)

  // ---------------------------------------------------------------- refcounts

  function RefCount(refs: map<Hash, nat>, id: Hash): nat {
    if id in refs then refs[id] else 0
  }

  /** INSERT ... ON CONFLICT DO UPDATE SET refcount = refcount + 1 */
  function Added(refs: map<Hash, nat>, id: Hash): map<Hash, nat> {
    refs[id := RefCount(refs, id) + 1]
  }

  /** The decrement and the sweep of one transaction; a missing or zero row is left alone. */
  function Removed(refs: map<Hash, nat>, id: Hash): map<Hash, nat> {
    if RefCount(refs, id) == 0 then refs
    else if refs[id] == 1 then refs - {id}
    else refs[id := refs[id] - 1]
  }

  predicate Frees(refs: map<Hash, nat>, id: Hash) {
    RefCount(refs, id) == 1
  }

  // ---------------------------------------------------------------- steps

  function Apply(v: State, step: Step): State {
    match step
    case WriteBlock(id, raw) => v.(store := v.store[id := raw])
    case AddBlock(id) => v.(refs := Added(v.refs, id))
    case RemoveBlock(id) => v.(refs := Removed(v.refs, id))
    case DeleteBlock(id) => v.(store := v.store - {id})
    case SaveManifest(snap, manifest) => v.(manifests := v.manifests[snap := manifest])
    case DropManifest(snap) => v.(manifests := v.manifests - {snap})
    case AddEntry(snap) => v.(entries := v.entries + {snap})
    case DropEntry(snap) => v.(entries := v.entries - {snap})
    case InsertRow(snap) => v.(rows := v.rows + {snap})
    case DeleteRow(snap) => v.(rows := v.rows - {snap})
  }

  function ApplyAll(v: State, steps: seq<Step>): State
    decreases |steps|
  {
    if steps == [] then v else ApplyAll(Apply(v, steps[0]), steps[1..])
  }

  lemma {:induction false} ApplyConcat(v: State, a: seq<Step>, b: seq<Step>)
    ensures ApplyAll(v, a + b) == ApplyAll(ApplyAll(v, a), b)
    decreases |a|
  {
    if a == [] {
      assert a + b == b;
    } else {
      assert (a + b)[0] == a[0] && (a + b)[1..] == a[1..] + b;
      ApplyConcat(Apply(v, a[0]), a[1..], b);
    }
  }

  /** An invariant holds before, between and after the steps. */
  ghost predicate Along(inv: State -> bool, v: State, steps: seq<Step>)
    decreases |steps|
  {
    inv(v) && (steps == [] || Along(inv, Apply(v, steps[0]), steps[1..]))
  }

  lemma {:induction false} AlongConcat(inv: State -> bool, v: State, a: seq<Step>, b: seq<Step>)
    requires Along(inv, v, a) && Along(inv, ApplyAll(v, a), b)
    ensures Along(inv, v, a + b)
    decreases |a|
  {
    if a == [] {
      assert a + b == b;
    } else {
      assert (a + b)[0] == a[0] && (a + b)[1..] == a[1..] + b;
      AlongConcat(inv, Apply(v, a[0]), a[1..], b);
    }
  }

  /** A crash after any number of the steps leaves the invariant. */
  lemma {:induction false} AlongPrefix(inv: State -> bool, v: State, steps: seq<Step>, k: nat)
    requires Along(inv, v, steps) && k <= |steps|
    ensures inv(ApplyAll(v, steps[..k]))
    decreases |steps|
  {
    if k > 0 {
      assert steps[..k][0] == steps[0] && steps[..k][1..] == steps[1..][..k - 1];
      AlongPrefix(inv, Apply(v, steps[0]), steps[1..], k - 1);
    }
  }

  lemma {:induction false} AlongEnds(inv: State -> bool, v: State, steps: seq<Step>)
    requires Along(inv, v, steps)
    ensures inv(ApplyAll(v, steps))
  {
    assert steps[..|steps|] == steps;
    AlongPrefix(inv, v, steps, |steps|);
  }

  lemma {:induction false} TwoSteps(inv: State -> bool, v: State, a: Step, b: Step)
    ensures ApplyAll(v, [a, b]) == Apply(Apply(v, a), b)
    ensures Along(inv, v, [a, b]) <==> inv(v) && inv(Apply(v, a)) && inv(Apply(Apply(v, a), b))
  {
    assert [a, b][1..] == [b] && [b][1..] == [];
    assert ApplyAll(Apply(v, a), [b]) == ApplyAll(Apply(Apply(v, a), b), []);
    assert Along(inv, Apply(v, a), [b]) <==> inv(Apply(v, a)) && Along(inv, Apply(Apply(v, a), b), []);
  }

  lemma {:induction false} ThreeSteps(inv: State -> bool, v: State, a: Step, b: Step, c: Step)
    ensures ApplyAll(v, [a, b, c]) == Apply(Apply(Apply(v, a), b), c)
    ensures Along(inv, v, [a, b, c]) <==>
            inv(v) && inv(Apply(v, a)) && inv(Apply(Apply(v, a), b)) && inv(Apply(Apply(Apply(v, a), b), c))
  {
    assert [a, b, c][1..] == [b, c];
    TwoSteps(inv, Apply(v, a), b, c);
  }

  lemma {:induction false} AlongImplies(inv: State -> bool, weaker: State -> bool, v: State, steps: seq<Step>)
    requires Along(inv, v, steps) && forall w :: inv(w) ==> weaker(w)
    ensures Along(weaker, v, steps)
    decreases |steps|
  {
    if steps != [] {
      AlongImplies(inv, weaker, Apply(v, steps[0]), steps[1..]);
    }
  }

  // ---------------------------------------------------------------- what is kept

  /** The algorithms and the one repository key. */
  datatype Server = Server(alg: Algorithms, key: Option<bytes>)

  /** The stored bytes decode to backed-up content (one of `seen`) with this hash. */
  ghost predicate Holds(server: Server, seen: iset<bytes>, id: Hash, raw: bytes) {
    var r := Decode(server.alg, raw, server.key);
    r.Ok? && r.value in seen && server.alg.sha256(r.value) == id
  }

  /** Every block the index lists is counted, stored and readable; every row has its manifest and entry. */
  ghost predicate Sound(server: Server, seen: iset<bytes>, v: State) {
    && (forall id :: id in v.refs ==> v.refs[id] > 0 && id in v.store && Holds(server, seen, id, v.store[id]))
    && v.rows <= v.manifests.Keys
    && v.rows <= v.entries
  }

  /** Steps on rows, manifests and entries keep the state sound if rows stay backed. */
  lemma SoundFrame(server: Server, seen: iset<bytes>, v: State, w: State)
    requires Sound(server, seen, v) && w.refs == v.refs && w.store == v.store
    ensures v.rows <= v.manifests.Keys && v.rows <= v.entries
    ensures w.rows <= w.manifests.Keys && w.rows <= w.entries ==> Sound(server, seen, w)
  {
  }

  ghost function Soundness(server: Server, seen: iset<bytes>): (inv: State -> bool)
    ensures forall v :: inv(v) <==> Sound(server, seen, v)
  {
    v => Sound(server, seen, v)
  }
}
