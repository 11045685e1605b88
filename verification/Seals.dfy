/**
 * A tier's persisted list of sealed backups under reads that may fail
 * (core/src/sobr/tier.rs:131-165): a list that cannot be read counts as empty.
 */
module Seals {
  import opened Common
  import opened Vault

  /** A call of seal_backup, and whether its read of the list succeeds. */
  datatype Sealing = Sealing(id: SnapId, readable: bool)

  function Found(stored: Option<set<SnapId>>, readable: bool): set<SnapId> {
    if readable && stored.Some? then stored.value else {}
  }

  /** The list is read, the backup added, and the whole list written back. */
  function AfterSealing(stored: Option<set<SnapId>>, call: Sealing): Option<set<SnapId>> {
    Some(Found(stored, call.readable) + {call.id})
  }

  function AfterSealings(stored: Option<set<SnapId>>, calls: seq<Sealing>): Option<set<SnapId>>
    decreases |calls|
  {
    if calls == [] then stored else AfterSealing(AfterSealings(stored, calls[..|calls| - 1]), calls[|calls| - 1])
  }

  predicate AllRead(calls: seq<Sealing>) {
    forall call :: call in calls ==> call.readable
  }

  /** The backups sealed from the last call on whose read failed, or by any call if none did. */
  function Since(calls: seq<Sealing>): set<SnapId> {
    if calls == [] then {}
    else
      var last := calls[|calls| - 1];
      if last.readable then Since(calls[..|calls| - 1]) + {last.id} else {last.id}
  }

  /** After any sealings the list has what was sealed since the last failed read, and what it had before if there was none. */
  lemma {:induction false} ListAfter(stored: Option<set<SnapId>>, calls: seq<Sealing>)
    ensures Found(AfterSealings(stored, calls), true) == Since(calls) + if AllRead(calls) then Found(stored, true) else {}
    decreases |calls|
  {
    if calls != [] {
      var n := |calls| - 1;
      assert calls == calls[..n] + [calls[n]];
      ListAfter(stored, calls[..n]);
      if AllRead(calls) {
        assert AllRead(calls[..n]);
      } else if calls[n].readable {
        assert !AllRead(calls[..n]);
      }
    }
  }

  /** A seal outlasts some sealings exactly when all their reads succeed, or its backup is sealed again since the last that failed. */
  lemma {:induction false} SealStaysExactly(stored: Option<set<SnapId>>, calls: seq<Sealing>, id: SnapId)
    requires id in Found(stored, true)
    ensures id in Found(AfterSealings(stored, calls), true) <==> AllRead(calls) || id in Since(calls)
  {
    ListAfter(stored, calls);
  }

  /** Some sealings keep the whole list exactly when all their reads succeed, or everything on it is sealed again since the last that failed. */
  lemma {:induction false} SealsLastExactly(stored: Option<set<SnapId>>, calls: seq<Sealing>)
    ensures Found(stored, true) <= Found(AfterSealings(stored, calls), true) <==> AllRead(calls) || Found(stored, true) <= Since(calls)
  {
    hide AfterSealings, Since;
    ListAfter(stored, calls);
  }

  /** While the list can be read, sealing keeps every seal and adds each backup's. */
  lemma {:induction false} ReadableListGrows(stored: Option<set<SnapId>>, calls: seq<Sealing>)
    requires AllRead(calls)
    ensures Found(stored, true) <= Found(AfterSealings(stored, calls), true)
    ensures forall call :: call in calls ==> call.id in Found(AfterSealings(stored, calls), true)
    decreases |calls|
  {
    if calls != [] {
      var n := |calls| - 1;
      assert calls == calls[..n] + [calls[n]];
      ReadableListGrows(stored, calls[..n]);
    }
  }

  /** Sealing one backup while the list cannot be read loses the seals of all others. */
  lemma {:induction false} UnreadListIsLost(sealed: set<SnapId>, id: SnapId)
    ensures AfterSealings(Some(sealed), [Sealing(id, false)]) == Some({id})
  {
    assert [Sealing(id, false)][..0] == [];
    assert {} + {id} == {id};
  }

  /** No sealings, whose reads may fail only if `failing`, lose a seal. */
  ghost predicate SealsLast(failing: bool) {
    forall stored: Option<set<SnapId>>, calls: seq<Sealing> :: AllRead(calls) || failing ==>
      Found(stored, true) <= Found(AfterSealings(stored, calls), true)
  }

  /** All runs keep all seals exactly when no read may fail. */
  lemma {:induction false} AllRunsKeepSeals(failing: bool)
    ensures SealsLast(failing) <==> !failing
  {
    hide AfterSealings;
    if failing {
      UnreadListIsLost({"a"}, "b");
      assert "a" in Found(Some({"a"}), true) && "a" !in Found(AfterSealings(Some({"a"}), [Sealing("b", false)]), true);
    } else {
      forall stored: Option<set<SnapId>>, calls: seq<Sealing> | AllRead(calls)
        ensures Found(stored, true) <= Found(AfterSealings(stored, calls), true)
      {
        ReadableListGrows(stored, calls);
      }
    }
  }

  /** The block that holds a tier's seal list; None before the first seal. */
  class SealIndex {
    var stored: Option<set<SnapId>>

    constructor ()
      ensures stored == None
    {
      stored := None;
    }

    /** A failed read answers with no seals. */
    method SealedBackups(readable: bool) returns (sealed: set<SnapId>)
      ensures sealed == Found(stored, readable)
    {
      sealed := {};
      if readable && stored.Some? {
        sealed := stored.value;
      }
    }

    method IsSealed(id: SnapId, readable: bool) returns (found: bool)
      ensures found <==> id in Found(stored, readable)
    {
      var sealed := SealedBackups(readable);
      found := id in sealed;
    }

    method SealBackup(id: SnapId, readable: bool)
      modifies this
      ensures stored == AfterSealing(old(stored), Sealing(id, readable))
    {
      var sealed := SealedBackups(readable);
      if id !in sealed {
        sealed := sealed + {id};
      }
      assert sealed == Found(stored, readable) + {id};
      stored := Some(sealed);
    }
  }
}
