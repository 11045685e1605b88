/**
 * The chunker's own rolling hash: multiply by 131 and wrap at 64 bits, take the leaving
 * byte out at 131^48, and cut where the masked hash is zero (core/src/chunker/mod.rs).
 *
 * The byte taken out is the one 49 places back, so the hash is not a 48-byte window
 * hash. The main result is the exact set of configurations for which boundaries are
 * nevertheless determined by the chunk's content.
 */
module BuzHash {
  import opened Common
  import opened Words
  import opened Chunking

  datatype ChunkSizeConfig = ChunkSizeConfig(min: u32, avg: u32, max: u32)

  const DEFAULT_CONFIG := ChunkSizeConfig(4096, 8192, 65536)

  /** The original underflows `avg - 1` when `avg` is zero and never advances when `max` is zero. */
  predicate Usable(cfg: ChunkSizeConfig) {
    1 <= cfg.avg && 1 <= cfg.max
  }

  function Push(hash: nat, entering: byte): nat {
    Wrap(hash * 131 + entering)
  }

  function Drop(hash: nat, exiting: byte): nat {
    Wrap(hash - exiting * WINDOW_POWER)
  }

  function Configured(cfg: ChunkSizeConfig): Chunker
    requires Usable(cfg)
  {
    var mask: nat := cfg.avg - 1;
    ChunkerParts(cfg.min, cfg.max, Rolling(Push, Drop, (hash: nat) => BitAnd(hash, mask) == 0))
  }

  /** The power loop at the head of find_chunk_boundary. */
  method WindowPower() returns (power: nat)
    ensures power == WINDOW_POWER
  {
    power := 1;
    for k := 0 to WINDOW
      invariant power == Power(k)
    {
      power := Wrap(power * 131);
    }
    PowerOfWindow();
  }

  /** The default configuration has content-determined boundaries. */
  lemma DefaultIsContentDetermined()
    ensures Usable(DEFAULT_CONFIG) && ContentDetermined(Configured(DEFAULT_CONFIG))
  {
    LongMinimumSuffices(Configured(DEFAULT_CONFIG));
  }

  // ---------------------------------------------------------------- the leaving byte

  lemma LeavingBytesCoverHigh()
    ensures Covers(277890147707363, 256042943356735, 16)
  {
    CoversNibble(67844274342, 4240267146, 0, 1, 1, 0, 62510484217, 3906905263, 1, 0, 0, 1, 0);
    CoversNibble(1085508389481, 67844274342, 1, 0, 0, 1, 1000167747487, 62510484217, 1, 1, 1, 1, 4);
    CoversNibble(17368134231710, 1085508389481, 1, 1, 1, 0, 16002683959795, 1000167747487, 0, 0, 1, 1, 8);
    CoversNibble(277890147707363, 17368134231710, 0, 0, 1, 1, 256042943356735, 16002683959795, 1, 1, 1, 1, 12);
  }

  lemma LeavingBytesCover()
    ensures Covers(18211808720149806841, 16780030335827021206, 32)
  {
    hide Covers;
    LeavingBytesCoverHigh();
    CoversNibble(4446242363317823, 277890147707363, 1, 1, 1, 1, 4096687093707768, 256042943356735, 1, 0, 0, 0, 16);
    CoversNibble(71139877813085182, 4446242363317823, 1, 1, 1, 0, 65546993499324301, 4096687093707768, 1, 1, 0, 1, 20);
    CoversNibble(1138238045009362927, 71139877813085182, 1, 1, 1, 1, 1048751895989188825, 65546993499324301, 1, 0, 0, 1, 24);
    CoversNibble(18211808720149806841, 1138238045009362927, 1, 0, 0, 1, 16780030335827021206, 1048751895989188825, 0, 1, 1, 0, 28);
  }

  lemma LeavingBytes()
    ensures Drop(0, 199) == 18211808720149806841 && Drop(0, 234) == 16780030335827021206
  {
    WrapIs(0 - 199 * WINDOW_POWER, -172, 18211808720149806841);
    WrapIs(0 - 234 * WINDOW_POWER, -202, 16780030335827021206);
  }

  /** The hash after a lone byte has just left: two values of it reach all 32 mask bits. */
  lemma LeavingByteMeetsMask(mask: nat) returns (x: byte)
    requires 0 < mask < 0x1_0000_0000
    ensures BitAnd(Drop(0, x), mask) != 0
  {
    hide BitAnd, Covers, Drop, Pow2;
    LeavingBytes();
    LeavingBytesCover();
    Pow2Of32();
    CoverMeetsMask(18211808720149806841, 16780030335827021206, mask, 32);
    x := if BitAnd(Drop(0, 199), mask) != 0 then 199 else 234;
  }

  // ---------------------------------------------------------------- exactness

  /** Cuts are taken at the first position searched, or the search has at most one position. */
  lemma TrivialSearchSuffices(cfg: ChunkSizeConfig)
    requires Usable(cfg) && cfg.min <= cfg.max && (cfg.avg == 1 || cfg.max <= cfg.min + 1)
    ensures ContentDetermined(Configured(cfg))
  {
  }

  lemma {:induction false} FoldZeros(c: Chunker, data: bytes, lo: nat, hi: nat)
    requires lo <= hi <= |data| && c.rolling.push(0, 0) == 0
    requires forall k :: lo <= k < hi ==> data[k] == 0
    ensures Fold(c, data, lo, hi) == 0
    decreases hi
  {
    if lo < hi {
      FoldZeros(c, data, lo, hi - 1);
    }
  }

  /** A byte 49 before the first position searched moves the cut of an otherwise empty chunk. */
  lemma LeakedByte(c: Chunker, x: byte) returns (data: bytes, start: nat)
    requires c.min <= WINDOW && c.min + 2 <= c.max && c.rolling.push(0, 0) == 0 == c.rolling.drop(0, 0)
    requires c.rolling.isCut(0) && !c.rolling.isCut(c.rolling.drop(0, x))
    ensures start < |data| && Boundary(c, data, start, |data|) != OwnCut(c, data, start)
  {
    start := WINDOW + 1;
    var i := start + c.min;
    data := seq(i + 2, k => if k == c.min then x else 0);
    FoldZeros(c, data, i - WINDOW, i);
    assert Boundary(c, data, start, |data|) == i + 2;
    var own := data[start..];
    FoldZeros(c, own, 0, c.min);
    assert Boundary(c, own, 0, c.min + 2) == c.min + 1;
  }

  lemma HashOfNothing()
    ensures Push(0, 0) == 0 && Drop(0, 0) == 0
  {
    WrapIs(0, 0, 0);
  }

  lemma ShortMinimumLeaks(cfg: ChunkSizeConfig)
    requires Usable(cfg) && cfg.min <= WINDOW && cfg.avg != 1 && cfg.min + 2 <= cfg.max
    ensures !ContentDetermined(Configured(cfg))
  {
    hide Wrap, Drop, Push;
    var c := Configured(cfg);
    HashOfNothing();
    assert c.rolling.isCut(0);
    var x := LeavingByteMeetsMask(cfg.avg - 1);
    var data, start := LeakedByte(c, x);
  }

  /** The exact configurations for which boundaries are determined by content, as chunk_reader's comment claims. */
  lemma ContentDeterminedExactly(cfg: ChunkSizeConfig)
    requires Usable(cfg)
    ensures ContentDetermined(Configured(cfg)) <==>
            cfg.min <= cfg.max && (WINDOW + 1 <= cfg.min || cfg.avg == 1 || cfg.max <= cfg.min + 1)
  {
    var c := Configured(cfg);
    if cfg.max < cfg.min {
      var data := Zeros(cfg.min);
      assert Boundary(c, data, 0, |data|) != OwnCut(c, data, 0);
    } else if WINDOW + 1 <= cfg.min {
      LongMinimumSuffices(c);
    } else if cfg.avg == 1 || cfg.max <= cfg.min + 1 {
      TrivialSearchSuffices(cfg);
    } else {
      ShortMinimumLeaks(cfg);
    }
  }

  lemma {:induction false} LeakInThreeBytes(c: Chunker)
    requires c.min == 0 && c.max == 2
    requires c.rolling.push(0, 0) == 0 == c.rolling.drop(0, 0) && c.rolling.isCut(0)
    requires c.rolling.push(0, 1) == 1
    requires !c.rolling.isCut(c.rolling.drop(c.rolling.push(1, 0), 0))
    ensures OwnChunks(c, [1, 0, 0], 0) != Chunks(c, [1, 0, 0], 0)
  {
    var data: bytes := [1, 0, 0];
    assert Boundary(c, data, 0, 3) == 1;
    assert Fold(c, data, 0, 1) == 1;
    assert Boundary(c, data, 1, 3) == 3;
    assert OwnCut(c, data, 0) == 1;
    assert OwnCut(c, data, 1) == 2;
    assert OwnChunks(c, data, 0)[1].size == 1;
    assert Chunks(c, data, 0)[1].size == 2;
  }

  lemma HashOfOne()
    ensures Push(0, 1) == 1 && Drop(Push(1, 0), 0) == 131 && BitAnd(0, 1) == 0 && BitAnd(131, 1) != 0
  {
    WrapIs(1, 0, 1);
    WrapIs(131, 0, 131);
  }

  /** Below the window the claim fails: a first byte of 1 leaks into the second cut of 1, 0, 0. */
  lemma StreamDiffersBelowWindow()
    ensures var c := Configured(ChunkSizeConfig(0, 2, 2));
            OwnChunks(c, [1, 0, 0], 0) != Chunks(c, [1, 0, 0], 0)
  {
    hide Push, Drop, BitAnd;
    HashOfNothing();
    HashOfOne();
    LeakInThreeBytes(Configured(ChunkSizeConfig(0, 2, 2)));
  }
}
