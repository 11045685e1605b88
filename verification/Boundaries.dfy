/**
 * Where a boundary search cuts, in one formula (core/src/chunker/mod.rs:91-150): at the
 * first position at which the mask sees nothing of a sum over all bytes that have entered
 * and left the hash since before the search. The loop that rolls the hash does not occur.
 */
module Boundaries {
  import opened Common
  import opened Words
  import opened Residues
  import opened Chunking
  import opened BuzHash
  import opened Streams

  // ---------------------------------------------------------------- the formula

  /** The byte that enters at position i: none in the last 47 positions of a search. */
  function Coming(data: bytes, i: nat, searchEnd: nat): int
    requires i < searchEnd <= |data|
  {
    if i + 48 <= searchEnd then data[i] else 0
  }

  /** The byte that leaves at position i: the one 49 places back. */
  function Going(data: bytes, i: nat): int
    requires i < |data|
  {
    if i >= 49 then data[i - 49] else 0
  }

  /** The bytes at positions lo to hi - 1, entering as digits to base 131 and leaving at 131^48, as they count at position i. */
  function Rolled(data: bytes, lo: nat, hi: nat, searchEnd: nat, i: int): int
    requires lo <= hi <= searchEnd <= |data| && hi <= i + 1
    decreases hi - lo
  {
    if lo == hi then 0
    else (Coming(data, lo, searchEnd) - Going(data, lo) * Pow(48)) * Pow(i - lo) + Rolled(data, lo + 1, hi, searchEnd, i)
  }

  /** The low 32 bits of the hash when a search from `searchStart` has rolled over position i. */
  function SeenAt(data: bytes, searchStart: nat, searchEnd: nat, i: nat): (h: nat)
    requires searchStart <= i < searchEnd <= |data|
  {
    Low(Value(data[Max(searchStart - 48, 0)..searchStart]) * Pow(i + 1 - searchStart) + Rolled(data, searchStart, i + 1, searchEnd, i))
  }

  /** The mask sees nothing of the hash at position i. */
  predicate Open(data: bytes, searchStart: nat, searchEnd: nat, mask: nat, i: nat)
    requires searchStart <= i < searchEnd <= |data|
  {
    BitAnd(SeenAt(data, searchStart, searchEnd, i), mask) == 0
  }

  // ---------------------------------------------------------------- one position on

  lemma LowTimes131(a: int, b: int)
    requires Low(a) == Low(b)
    ensures Low(a * 131) == Low(b * 131)
  {
    LowMul(a, 131);
    LowMul(b, 131);
  }

  lemma LowSum(a: int, b: int, c: int, d: int)
    requires Low(a) == Low(b) && Low(c) == Low(d)
    ensures Low(a + c) == Low(b + d)
  {
    LowAdd(a, c);
    LowAdd(b, c);
    LowAdd(c, b);
    LowAdd(d, b);
  }

  /** What has rolled by counts 131 times as much one position on. */
  lemma PowOn(t: int, k: nat)
    ensures Low(t * Pow(k + 1)) == Low((t * Pow(k)) * 131)
  {
    LowMulRight(t, Pow(k) * 131);
    Associate(t, Pow(k), 131);
  }

  lemma {:induction false} RolledOn(data: bytes, lo: nat, hi: nat, searchEnd: nat, i: int)
    requires lo <= hi <= searchEnd <= |data| && hi <= i + 1
    ensures Low(Rolled(data, lo, hi, searchEnd, i + 1)) == Low(Rolled(data, lo, hi, searchEnd, i) * 131)
    decreases hi - lo
  {
    hide Low, Pow, Coming, Going;
    if lo < hi {
      var t := Coming(data, lo, searchEnd) - Going(data, lo) * Pow(48);
      RolledOn(data, lo + 1, hi, searchEnd, i);
      PowOn(t, i - lo);
      LowSum(t * Pow(i + 1 - lo), (t * Pow(i - lo)) * 131,
             Rolled(data, lo + 1, hi, searchEnd, i + 1), Rolled(data, lo + 1, hi, searchEnd, i) * 131);
    }
  }

  lemma {:induction false} RolledSnoc(data: bytes, lo: nat, hi: nat, searchEnd: nat, i: int)
    requires lo <= hi < searchEnd <= |data| && hi <= i
    ensures Rolled(data, lo, hi + 1, searchEnd, i) ==
            Rolled(data, lo, hi, searchEnd, i) + (Coming(data, hi, searchEnd) - Going(data, hi) * Pow(48)) * Pow(i - hi)
    decreases hi - lo
  {
    hide Pow, Coming, Going;
    if lo < hi {
      RolledSnoc(data, lo + 1, hi, searchEnd, i);
    } else {
      assert Rolled(data, hi + 1, hi + 1, searchEnd, i) == 0;
    }
  }

  /** The exact number of which the hash has the low 32 bits before it rolls over position i. */
  function Before(data: bytes, searchStart: nat, searchEnd: nat, i: nat): int
    requires searchStart <= i <= searchEnd <= |data|
  {
    Value(data[Max(searchStart - 48, 0)..searchStart]) * Pow(i - searchStart) + Rolled(data, searchStart, i, searchEnd, i - 1)
  }

  lemma BeforeIsSeen(data: bytes, searchStart: nat, searchEnd: nat, i: nat)
    requires searchStart <= i < searchEnd <= |data|
    ensures Low(Before(data, searchStart, searchEnd, i + 1)) == SeenAt(data, searchStart, searchEnd, i)
  {
    hide Low, Value, Rolled, Pow;
  }

  lemma {:induction false} BeforeNext(data: bytes, searchStart: nat, searchEnd: nat, i: nat)
    requires searchStart <= i < searchEnd <= |data|
    ensures SeenAt(data, searchStart, searchEnd, i) ==
            Low(Low(Before(data, searchStart, searchEnd, i)) * 131 + Coming(data, i, searchEnd) - Going(data, i) * Pow(48))
  {
    hide Low, Value, Rolled, Pow, Coming, Going;
    var v := Value(data[Max(searchStart - 48, 0)..searchStart]);
    var x := v * Pow(i - searchStart);
    var y := Rolled(data, searchStart, i, searchEnd, i - 1);
    var t := Coming(data, i, searchEnd) - Going(data, i) * Pow(48);
    PowOn(v, i - searchStart);
    RolledOn(data, searchStart, i, searchEnd, i - 1);
    RolledSnoc(data, searchStart, i, searchEnd, i);
    assert t * Pow(0) == t by { assert Pow(0) == 1 by { PowOfNothing(); } }
    LowSum(v * Pow(i + 1 - searchStart), x * 131, Rolled(data, searchStart, i, searchEnd, i), y * 131);
    LowSum(v * Pow(i + 1 - searchStart) + Rolled(data, searchStart, i, searchEnd, i), x * 131 + y * 131, t, t);
    assert x * 131 + y * 131 == (x + y) * 131;
    LowStepped(x + y, t);
  }

  lemma PowOfNothing()
    ensures Pow(0) == 1
  {
  }

  lemma LowStepped(h: int, d: int)
    ensures Low(Low(h) * 131 + d) == Low(h * 131 + d)
  {
    LowMul(h, 131);
    LowAdd(h * 131, d);
    LowAdd(Low(h) * 131, d);
  }

  // ---------------------------------------------------------------- the search

  /** The position after the first open one from i on, or the end of the search. */
  ghost predicate CutsAt(data: bytes, searchStart: nat, searchEnd: nat, mask: nat, i: nat, cut: nat)
    requires searchStart <= i <= searchEnd <= |data|
  {
    && i <= cut <= searchEnd
    && (forall j :: i <= j < cut - 1 ==> !Open(data, searchStart, searchEnd, mask, j))
    && (cut < searchEnd ==> i < cut && Open(data, searchStart, searchEnd, mask, cut - 1))
  }

  lemma CutsHere(data: bytes, searchStart: nat, searchEnd: nat, mask: nat, i: nat)
    requires searchStart <= i <= searchEnd <= |data|
    ensures i == searchEnd ==> CutsAt(data, searchStart, searchEnd, mask, i, i)
    ensures i < searchEnd && Open(data, searchStart, searchEnd, mask, i) ==> CutsAt(data, searchStart, searchEnd, mask, i, i + 1)
  {
    hide Open;
  }

  lemma CutsLater(data: bytes, searchStart: nat, searchEnd: nat, mask: nat, i: nat, cut: nat)
    requires searchStart <= i < searchEnd <= |data| && !Open(data, searchStart, searchEnd, mask, i)
    requires CutsAt(data, searchStart, searchEnd, mask, i + 1, cut)
    ensures CutsAt(data, searchStart, searchEnd, mask, i, cut)
  {
    hide Open;
  }

  lemma {:induction false} ScanIsFirst(c: Chunker, mask: nat, data: bytes, searchStart: nat, searchEnd: nat, i: nat, hash: nat)
    requires RollsLow(c, mask) && searchStart <= i <= searchEnd <= |data|
    requires Low(hash) == Low(Before(data, searchStart, searchEnd, i))
    ensures CutsAt(data, searchStart, searchEnd, mask, i, Scan(c, data, i, searchEnd, hash))
    decreases searchEnd - i
  {
    hide Low, BitAnd, Before, SeenAt, Coming, Going, Slide, CutsAt, RollsLow, Pow;
    CutsHere(data, searchStart, searchEnd, mask, i);
    if i < searchEnd {
      var h := Slide(c, data, i, searchEnd, hash);
      BeforeNext(data, searchStart, searchEnd, i);
      SlideIs(c, mask, data, searchEnd, i, hash);
      BeforeIsSeen(data, searchStart, searchEnd, i);
      if !c.rolling.isCut(h) {
        ScanIsFirst(c, mask, data, searchStart, searchEnd, i + 1, h);
        CutsLater(data, searchStart, searchEnd, mask, i, Scan(c, data, i + 1, searchEnd, h));
      }
    }
  }

  lemma {:induction false} SlideIs(c: Chunker, mask: nat, data: bytes, searchEnd: nat, i: nat, hash: nat)
    requires RollsLow(c, mask) && i < searchEnd <= |data|
    ensures var h := Slide(c, data, i, searchEnd, hash);
            && Low(h) == Low(Low(hash) * 131 + Coming(data, i, searchEnd) - Going(data, i) * Pow(48))
            && (c.rolling.isCut(h) <==> BitAnd(Low(h), mask) == 0)
  {
    hide Low, BitAnd, Pow;
    LeavingIsPower();
    var entering, exiting := Coming(data, i, searchEnd), Going(data, i);
    var pushed := c.rolling.push(hash, entering);
    LowSub(Low(hash) * 131 + entering, exiting * LEAVING);
    LowSub(pushed, exiting * LEAVING);
    LowTwice(pushed);
    LowSub(Low(pushed), exiting * LEAVING);
  }

  /** Position i is the first open one of the search. */
  predicate FirstOpen(data: bytes, lo: nat, hi: nat, mask: nat, i: nat)
    requires lo <= i < hi <= |data|
  {
    Open(data, lo, hi, mask, i) && forall j :: lo <= j < i ==> !Open(data, lo, hi, mask, j)
  }

  /** No position before the last is open. */
  predicate NoneOpen(data: bytes, lo: nat, hi: nat, mask: nat)
    requires lo < hi <= |data|
  {
    forall j :: lo <= j < hi - 1 ==> !Open(data, lo, hi, mask, j)
  }

  lemma {:induction false} CutsFirst(data: bytes, lo: nat, hi: nat, mask: nat, cut: nat, i: nat)
    requires lo <= i < hi - 1 < |data| && CutsAt(data, lo, hi, mask, lo, cut) && lo < cut
    ensures cut == i + 1 <==> FirstOpen(data, lo, hi, mask, i)
  {
    hide Open;
    if cut - 1 < i {
      assert Open(data, lo, hi, mask, cut - 1);
    }
  }

  lemma {:induction false} CutsLast(data: bytes, lo: nat, hi: nat, mask: nat, cut: nat)
    requires lo < hi <= |data| && CutsAt(data, lo, hi, mask, lo, cut) && lo < cut
    ensures cut == hi <==> NoneOpen(data, lo, hi, mask)
  {
    hide Open;
  }

  lemma {:induction false} SearchCuts(c: Chunker, mask: nat, data: bytes, start: nat, end: nat)
    requires RollsLow(c, mask) && start < end <= |data| && start + c.min < Min(start + c.max, end)
    ensures var lo, hi := start + c.min, Min(start + c.max, end);
            CutsAt(data, lo, hi, mask, lo, Boundary(c, data, start, end)) && lo < Boundary(c, data, start, end) <= hi
  {
    hide CutsAt, RollsLow, Scan;
    var lo, hi := start + c.min, Min(start + c.max, end);
    FoldLow(c, mask, data, Max(lo - WINDOW, 0), lo);
    BeforeSearch(data, lo, hi);
    ScanIsFirst(c, mask, data, lo, hi, lo, InitialHash(c, data, lo));
  }

  /**
   * A search from min bytes after the chunk's start to max bytes after it (or the end of the
   * data) cuts after position i, short of its end, exactly when i is the first open position,
   * and at its end exactly when there is no open one before the last.
   */
  lemma {:induction false} BoundaryExactly(c: Chunker, mask: nat, data: bytes, start: nat, end: nat)
    requires RollsLow(c, mask) && start < end <= |data|
    ensures start + c.min >= end ==> Boundary(c, data, start, end) == end
    ensures c.max <= c.min && start + c.min < end ==> Boundary(c, data, start, end) == start + c.max
    ensures var cut, lo, hi := Boundary(c, data, start, end), start + c.min, Min(start + c.max, end);
            lo < hi ==>
              && lo < cut <= hi
              && (forall i :: lo <= i < hi - 1 ==> (cut == i + 1 <==> FirstOpen(data, lo, hi, mask, i)))
              && (cut == hi <==> NoneOpen(data, lo, hi, mask))
  {
    hide RollsLow, CutsAt, FirstOpen, NoneOpen, Scan;
    var lo, hi := start + c.min, Min(start + c.max, end);
    if lo < hi {
      var cut := Boundary(c, data, start, end);
      SearchCuts(c, mask, data, start, end);
      CutsLast(data, lo, hi, mask, cut);
      forall i | lo <= i < hi - 1
        ensures cut == i + 1 <==> FirstOpen(data, lo, hi, mask, i)
      {
        CutsFirst(data, lo, hi, mask, cut, i);
      }
    }
  }

  lemma BeforeSearch(data: bytes, searchStart: nat, searchEnd: nat)
    requires searchStart <= searchEnd <= |data|
    ensures Low(Before(data, searchStart, searchEnd, searchStart)) == Value(data[Max(searchStart - 48, 0)..searchStart])
  {
    hide Value;
    var v := Value(data[Max(searchStart - 48, 0)..searchStart]);
    PowOfNothing();
    LowIs(v, 0, v);
  }

  // ---------------------------------------------------------------- averages that are powers of two

  /** The mask of a power of two sees nothing of its multiples only. */
  lemma {:induction false} MaskIsRemainder(h: nat, k: nat)
    ensures BitAnd(h, Pow2(k) - 1) == 0 <==> h % Pow2(k) == 0
    decreases k
  {
    if k > 0 {
      var p := Pow2(k - 1);
      MaskIsRemainder(h / 2, k - 1);
      assert (2 * p - 1) / 2 == p - 1;
      HalfOf(h, p);
      if h > 0 && p > 1 {
        assert (2 * p - 1) % 2 == 1;
      }
    }
  }

  /** With the default configuration a position is open exactly when its sum is a multiple of 8192. */
  lemma {:induction false} DefaultOpensAtMultiples(data: bytes, lo: nat, hi: nat, i: nat)
    requires lo <= i < hi <= |data|
    ensures Open(data, lo, hi, DEFAULT_CONFIG.avg - 1, i) <==> SeenAt(data, lo, hi, i) % 8192 == 0
  {
    hide SeenAt, BitAnd, Pow2;
    Pow2Of13();
    MaskIsRemainder(SeenAt(data, lo, hi, i), 13);
  }

  /** The server's own chunker does so with its mask. */
  lemma {:induction false} ConfiguredBoundary(cfg: ChunkSizeConfig, data: bytes, start: nat)
    requires Usable(cfg) && start + cfg.min < Min(start + cfg.max, |data|)
    ensures var cut, lo, hi := Boundary(Configured(cfg), data, start, |data|), start + cfg.min, Min(start + cfg.max, |data|);
            var mask: nat := cfg.avg - 1;
            && (forall i :: lo <= i < hi - 1 ==> (cut == i + 1 <==> FirstOpen(data, lo, hi, mask, i)))
            && (cut == hi <==> NoneOpen(data, lo, hi, mask))
  {
    hide FirstOpen, NoneOpen, RollsLow, Boundary;
    ConfiguredRollsLow(cfg);
    BoundaryExactly(Configured(cfg), cfg.avg - 1, data, start, |data|);
  }

  lemma Pow2Of13()
    ensures Pow2(13) == 8192
  {
    assert Pow2(4) == 16;
    assert Pow2(8) == 256;
    assert Pow2(12) == 4096;
  }
}
