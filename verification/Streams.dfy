/**
 * When the streaming chunker with the server's own hash cuts every input as the
 * whole-buffer chunker does (core/src/chunker/mod.rs:42-150): exactly for the
 * configurations whose boundaries are determined by content.
 *
 * For every other configuration there is an input on which a byte of one chunk changes
 * where a later chunk is cut in the whole buffer, and not in the stream.
 */
module Streams {
  import opened Common
  import opened Words
  import opened Residues
  import opened Chunking
  import opened BuzHash

  /** Streaming and whole-buffer chunking agree on the input. */
  ghost predicate Agree(c: Chunker, data: bytes) {
    OwnChunks(c, data, 0) == Chunks(c, data, 0)
  }

  lemma {:induction false} SameCut(c: Chunker, data: bytes, start: nat)
    requires start < |data| && OwnChunks(c, data, start) == Chunks(c, data, start)
    ensures Boundary(c, data, start, |data|) == OwnCut(c, data, start)
    ensures OwnChunks(c, data, OwnCut(c, data, start)) == Chunks(c, data, OwnCut(c, data, start))
  {
    hide Boundary, OwnCut;
    var own, whole := OwnChunks(c, data, start), Chunks(c, data, start);
    assert own[0].size == OwnCut(c, data, start) - start;
    assert whole[0].size == Boundary(c, data, start, |data|) - start;
    assert own[1..] == whole[1..];
  }

  // ---------------------------------------------------------------- the first position searched

  /** 131^48, at which a leaving byte is taken out. */
  const LEAVING: nat := 2796830145

  /** What the mask sees at the first position a boundary search looks at. */
  function Seen(c: Chunker, data: bytes, start: nat, end: nat): (h: nat)
    requires start + c.min < Min(start + c.max, end) && end <= |data|
  {
    var i := start + c.min;
    Low(Value(data[Max(i - WINDOW, 0)..i]) * 131 + Entering(data, i, Min(start + c.max, end)) - Exiting(data, i) * LEAVING)
  }

  /** On the low 32 bits the chunker rolls a number to base 131, and a mask decides on its cuts. */
  ghost predicate RollsLow(c: Chunker, mask: nat) {
    && (forall h: nat, d: byte :: Low(c.rolling.push(h, d)) == Low(Low(h) * 131 + d))
    && (forall h: nat, d: byte :: Low(c.rolling.drop(h, d)) == Low(Low(h) - d * LEAVING))
    && (forall h: nat :: c.rolling.isCut(h) <==> BitAnd(Low(h), mask) == 0)
  }

  lemma {:induction false} FoldLow(c: Chunker, mask: nat, data: bytes, lo: nat, hi: nat)
    requires RollsLow(c, mask) && lo <= hi <= |data|
    ensures Low(Fold(c, data, lo, hi)) == Value(data[lo..hi])
    decreases hi
  {
    hide Low, BitAnd;
    if lo == hi {
      LowIs(0, 0, 0);
      assert data[lo..hi] == [];
    } else {
      FoldLow(c, mask, data, lo, hi - 1);
      assert data[lo..hi][..hi - lo - 1] == data[lo..hi - 1];
    }
  }

  lemma LowStep(h: nat, d: int)
    ensures Low(Low(h) * 131 + d) == Low(h * 131 + d)
  {
    LowMul(h, 131);
    LowAdd(h * 131, d);
    LowAdd(Low(h) * 131, d);
  }

  lemma LeavingIsPower()
    ensures Low(WINDOW_POWER) == LEAVING == Pow(WINDOW)
  {
    hide Low, Pow, Power;
    LowIs(WINDOW_POWER, 3690925164, LEAVING);
    PowerOfWindow();
    PowIsPower(48);
  }

  /** The server's chunker does. */
  lemma {:induction false} ConfiguredRollsLow(cfg: ChunkSizeConfig)
    requires Usable(cfg)
    ensures RollsLow(Configured(cfg), cfg.avg - 1)
  {
    hide Wrap, Low, BitAnd;
    forall h: nat, d: byte ensures Low(Push(h, d)) == Low(Low(h) * 131 + d) {
      LowOfWord(h * 131 + d);
      LowStep(h, d);
    }
    forall h: nat, d: byte ensures Low(Drop(h, d)) == Low(Low(h) - d * LEAVING) {
      LowOfWord(h - d * WINDOW_POWER);
      LowIs(WINDOW_POWER, 3690925164, LEAVING);
      LowMulRight(d, WINDOW_POWER);
      LowSub(h, d * WINDOW_POWER);
      LowSub(Low(h), d * LEAVING);
      LowTwice(h);
    }
    forall h: nat ensures BitAnd(h, cfg.avg - 1) == BitAnd(Low(h), cfg.avg - 1) {
      MaskLow(h, cfg.avg - 1);
    }
  }

  lemma LowTwice(a: int)
    ensures Low(Low(a)) == Low(a)
  {
  }

  lemma LowSub(a: int, b: int)
    ensures Low(Low(a) - Low(b)) == Low(a - b)
  {
  }

  lemma {:induction false} SlideLow(c: Chunker, mask: nat, h: nat, entering: byte, exiting: byte)
    requires RollsLow(c, mask)
    ensures var slid := c.rolling.drop(c.rolling.push(h, entering), exiting);
            c.rolling.isCut(slid) <==> BitAnd(Low(Low(h) * 131 + entering - exiting * LEAVING), mask) == 0
  {
    hide BitAnd, Low;
    var pushed := c.rolling.push(h, entering);
    LowSub(Low(h) * 131 + entering, exiting * LEAVING);
    LowSub(pushed, exiting * LEAVING);
    LowTwice(pushed);
    LowSub(Low(pushed), exiting * LEAVING);
  }

  /** The search cuts at its first position exactly when the mask sees nothing there. */
  lemma {:induction false} FirstCut(c: Chunker, mask: nat, data: bytes, start: nat, end: nat)
    requires RollsLow(c, mask) && end <= |data| && start + c.min + 2 <= Min(start + c.max, end)
    ensures Boundary(c, data, start, end) == start + c.min + 1 <==> BitAnd(Seen(c, data, start, end), mask) == 0
  {
    hide BitAnd, Low, Fold, Value, RollsLow;
    var i, searchEnd := start + c.min, Min(start + c.max, end);
    var first := InitialHash(c, data, i);
    FoldLow(c, mask, data, Max(i - WINDOW, 0), i);
    SlideLow(c, mask, first, Entering(data, i, searchEnd), Exiting(data, i));
    assert Boundary(c, data, start, end) == Scan(c, data, i, searchEnd, first);
  }

  /** The streaming chunker's cut is the search on the bytes from the start on. */
  lemma {:induction false} FirstOwnCut(c: Chunker, mask: nat, data: bytes, start: nat)
    requires RollsLow(c, mask) && c.min + 2 <= c.max && start + c.min + 2 <= |data|
    ensures var n := Min(c.max, |data| - start);
            OwnCut(c, data, start) == start + c.min + 1 <==> BitAnd(Seen(c, data[start..], 0, n), mask) == 0
  {
    hide Boundary, BitAnd, Seen;
    FirstCut(c, mask, data[start..], 0, Min(c.max, |data| - start));
  }

  // ---------------------------------------------------------------- minima from 5 to 48

  /**
   * Two chunks: the first ends in a byte 1 and starts with five digits that hide it from the
   * first search, the second ends in five digits and two zeros.
   */
  function Crossing(min: nat, lead: nat, tail: nat): (data: bytes)
    requires 5 <= min
    ensures |data| == 2 * min + 3
  {
    (Digits(lead, 5) + Zeros(min - 5) + [1]) + (Zeros(min - 5) + Digits(tail, 5) + [0, 0])
  }

  lemma {:induction false} CrossingParts(min: nat, lead: nat, tail: nat)
    requires 5 <= min
    ensures var data := Crossing(min, lead, tail);
            && data[..min] == Digits(lead, 5) + Zeros(min - 5) && data[min] == 1
            && data[min + 1..][..min] == Zeros(min - 5) + Digits(tail, 5)
            && forall i :: 5 <= i < min ==> data[i] == 0
  {
  }

  lemma {:induction false} DigitsOfZero(k: nat)
    ensures Digits(0, k) == Zeros(k)
  {
    if k > 0 {
      DigitsOfZero(k - 1);
    }
  }

  lemma {:induction false} ValueShifted(w: nat, n: nat)
    requires w < WORD
    ensures Value(Digits(w, 5) + Zeros(n)) == Low(w * Pow(n)) && Value(Zeros(n) + Digits(w, 5)) == w
  {
    hide Digits, Value, Reach;
    FiveDigitsReach();
    DigitsValue(w, 5);
    ValueZeros(n);
    ValueConcat(Digits(w, 5), Zeros(n));
    ValueConcat(Zeros(n), Digits(w, 5));
    LowIs(w, 0, w);
  }

  lemma {:induction false} NothingInFront(min: nat, tail: nat)
    requires 5 <= min
    ensures forall i :: 0 <= i < min ==> Crossing(min, 0, tail)[i] == 0
  {
    hide Crossing, Digits;
    CrossingParts(min, 0, tail);
    DigitsOfZero(5);
    forall i | 0 <= i < min ensures Crossing(min, 0, tail)[i] == 0 {
      assert Crossing(min, 0, tail)[i] == Crossing(min, 0, tail)[..min][i];
    }
  }

  /** The byte 1 enters the first search when the search reaches 48 bytes past it. */
  function Enters(c: Chunker): nat {
    if c.min + WINDOW <= Min(c.max, 2 * c.min + 3) then 1 else 0
  }

  lemma {:induction false} SeenAtFront(c: Chunker, lead: nat, tail: nat)
    requires 5 <= c.min <= WINDOW && c.min + 2 <= c.max && lead < WORD
    ensures var data := Crossing(c.min, lead, tail);
            Seen(c, data, 0, |data|) == Low(Low(lead * Pow(c.min - 5)) * 131 + Enters(c))
  {
    hide Digits, Value, Crossing, Pow, Low;
    CrossingParts(c.min, lead, tail);
    ValueShifted(lead, c.min - 5);
    assert Crossing(c.min, lead, tail)[0..c.min] == Crossing(c.min, lead, tail)[..c.min];
  }

  lemma {:induction false} SeenInStream(c: Chunker, lead: nat, tail: nat)
    requires 5 <= c.min <= WINDOW && c.min + 2 <= c.max && tail < WORD
    ensures var own := Crossing(c.min, lead, tail)[c.min + 1..];
            |own| == c.min + 2 && Min(c.max, |own|) == |own| && Seen(c, own, 0, |own|) == Low(tail * 131)
  {
    hide Digits, Value, Crossing, Pow, Low;
    CrossingParts(c.min, lead, tail);
    ValueShifted(tail, c.min - 5);
    var own := Crossing(c.min, lead, tail)[c.min + 1..];
    assert own[0..c.min] == own[..c.min];
  }

  lemma {:induction false} LeakedBytes(min: nat, lead: nat, tail: nat, lo: nat)
    requires 5 <= min && lo <= min && (lead == 0 || 5 <= lo)
    ensures Crossing(min, lead, tail)[lo..2 * min + 1] == (Zeros(min - lo) + [1]) + (Zeros(min - 5) + Digits(tail, 5))
  {
    hide Crossing, Digits;
    var data := Crossing(min, lead, tail);
    CrossingParts(min, lead, tail);
    if lead == 0 {
      NothingInFront(min, tail);
    }
    assert data[lo..min + 1] == Zeros(min - lo) + [1];
    assert data[lo..2 * min + 1] == data[lo..min + 1] + data[min + 1..][..min];
  }

  lemma {:induction false} LeakedValue(min: nat, lead: nat, tail: nat, lo: nat)
    requires 5 <= min && lo <= min && (lead == 0 || 5 <= lo) && tail < WORD
    ensures Value(Crossing(min, lead, tail)[lo..2 * min + 1]) == Low(Pow(min) + tail)
  {
    hide Value, Pow, Low, Crossing, Digits;
    LeakedBytes(min, lead, tail, lo);
    var z, rest := Zeros(min - lo), Zeros(min - 5) + Digits(tail, 5);
    ValueZeros(min - lo);
    ValueOne(1);
    ValueConcat(z, [1]);
    ValueShifted(tail, min - 5);
    ValueConcat(z + [1], rest);
    LowIs(1, 0, 1);
    assert 0 * Pow(1) == 0 && 1 * Pow(min) == Pow(min);
  }

  /** In the whole buffer the byte 1 of the first chunk shows in the second search. */
  lemma {:induction false} SeenInBuffer(c: Chunker, lead: nat, tail: nat)
    requires 5 <= c.min <= WINDOW && c.min + 2 <= c.max && tail < WORD && (lead == 0 || Enters(c) == 1)
    ensures var data := Crossing(c.min, lead, tail);
            Seen(c, data, c.min + 1, |data|) ==
            if c.min < WINDOW then Low(Low(Pow(c.min) + tail) * 131) else Low(tail * 131 - LEAVING)
  {
    hide Value, Pow, Low, Crossing, Digits;
    var data := Crossing(c.min, lead, tail);
    var i := 2 * c.min + 1;
    CrossingParts(c.min, lead, tail);
    if c.min < WINDOW {
      LeakedValue(c.min, lead, tail, Max(i - WINDOW, 0));
      if i >= WINDOW + 1 {
        if lead == 0 {
          NothingInFront(c.min, tail);
        }
        assert data[i - WINDOW - 1] == 0;
      }
    } else {
      assert data[c.min + 1..i] == data[c.min + 1..][..c.min];
      ValueShifted(tail, c.min - 5);
    }
  }

  /** Digits that hide the byte 1 from the first search, if it enters it. */
  lemma {:induction false} Hidden(c: Chunker) returns (lead: nat)
    requires 5 <= c.min <= WINDOW
    ensures lead < WORD && Low(Low(lead * Pow(c.min - 5)) * 131 + Enters(c)) == 0 && (lead == 0 || Enters(c) == 1)
  {
    hide Pow, Low;
    LowIs(0, 0, 0);
    if Enters(c) == 0 {
      lead := 0;
      assert 0 * Pow(c.min - 5) == 0;
    } else {
      var p := Pow(c.min - 5);
      var y := Unit(c.min - 4);
      PowStep(c.min - 5);
      var z: int := y;
      lead := Low(-z);
      LowMul(-z, p);
      LowMul(-z * p, 131);
      LowMul(p * 131, z);
      Negated(z, p);
      LowNegated((p * 131) * z);
      LowAdd(Low(lead * p) * 131, 1);
    }
  }

  lemma PowStep(k: nat)
    ensures Pow(k + 1) == Low(Pow(k) * 131)
  {
  }

  lemma Negated(y: int, p: int)
    ensures (-y * p) * 131 == -((p * 131) * y)
  {
    assert -y * p == -(p * y);
    assert (p * 131) * y == (p * y) * 131;
  }

  lemma LowNegated(x: int)
    requires Low(x) == 1
    ensures Low(Low(-x) + 1) == 0
  {
    LowAdd(-x, 1);
    LowIs(1 - x, -(x / WORD), 0);
  }

  lemma Quotient(v: nat) returns (w: nat)
    requires v < WORD
    ensures w < WORD && Low(w * 131) == v
  {
    w := Low(v * INVERSE);
    LowMul(v * INVERSE, 131);
    Associate(v, INVERSE, 131);
    LowMulRight(v, INVERSE * 131);
    LowIs(INVERSE * 131, 103, 1);
    LowIs(v, 0, v);
  }

  /** The second search of the stream and that of the buffer can be made to differ in whether they cut at once. */
  lemma {:induction false} Tail(c: Chunker, mask: nat) returns (tail: nat)
    requires 5 <= c.min <= WINDOW && 0 < mask < WORD
    ensures tail < WORD
    ensures var whole := if c.min < WINDOW then Low(Low(Pow(c.min) + tail) * 131) else Low(tail * 131 - LEAVING);
            (BitAnd(Low(tail * 131), mask) == 0) != (BitAnd(whole, mask) == 0)
  {
    hide BitAnd, Pow, Low;
    if c.min < WINDOW {
      var delta := Pow(c.min + 1);
      var y := Unit(c.min + 1);
      var t := NeighboursDiffer(delta, y, mask);
      tail := Quotient(Low(t * delta));
      PowStep(c.min);
      LowStep(Pow(c.min) + tail, 0);
      Spread(Pow(c.min), tail, t, delta);
    } else {
      var delta := LEAVING;
      LeavingIsPower();
      var y := Unit(WINDOW);
      var t := NeighboursDiffer(delta, y, mask);
      tail := Quotient(Low((t + 1) * delta));
      Retract(tail, t, delta);
    }
  }

  lemma Spread(p: nat, tail: nat, t: nat, delta: nat)
    requires delta == Low(p * 131) && Low(tail * 131) == Low(t * delta)
    ensures Low((p + tail) * 131) == Low((t + 1) * delta)
  {
    assert (p + tail) * 131 == p * 131 + tail * 131;
    assert (t + 1) * delta == t * delta + delta;
    LowAdd(p * 131, tail * 131);
    LowAdd(tail * 131, delta);
    LowAdd(t * delta, delta);
  }

  lemma Retract(tail: nat, t: nat, delta: nat)
    requires Low(tail * 131) == Low((t + 1) * delta)
    ensures Low(tail * 131 - delta) == Low(t * delta)
  {
    assert (t + 1) * delta == t * delta + delta;
    var d: int := delta;
    LowAdd(tail * 131, -d);
    LowAdd((t + 1) * delta, -d);
  }

  lemma {:induction false} CrossingDisagrees(c: Chunker, mask: nat) returns (data: bytes)
    requires RollsLow(c, mask) && 5 <= c.min <= WINDOW && 0 < mask < WORD && c.min + 2 <= c.max
    ensures !Agree(c, data)
  {
    hide Boundary, OwnCut, OwnChunks, Chunks, BitAnd, Seen, Pow, Low, Crossing, Digits;
    var lead := Hidden(c);
    var tail := Tail(c, mask);
    data := Crossing(c.min, lead, tail);
    SeenAtFront(c, lead, tail);
    NothingSeen(mask);
    FirstCut(c, mask, data, 0, |data|);
    SeenInStream(c, lead, tail);
    SeenInBuffer(c, lead, tail);
    FirstCut(c, mask, data, c.min + 1, |data|);
    FirstOwnCut(c, mask, data, c.min + 1);
    if Agree(c, data) {
      SameCut(c, data, 0);
      SameCut(c, data, c.min + 1);
      assert false;
    }
  }

  lemma {:induction false} NothingSeen(mask: nat)
    ensures BitAnd(0, mask) == 0
  {
  }

  // ---------------------------------------------------------------- minima from 0 to 4

  /** One byte among zeros, too short for any byte to enter a search. */
  function Lone(min: nat, x: byte): (data: bytes)
    ensures |data| == min + 47
  {
    Zeros(min) + [x] + Zeros(46)
  }

  lemma LoneParts(min: nat, x: byte, start: nat)
    requires min < start <= 45
    ensures Lone(min, x)[..min] == Zeros(min)
    ensures Lone(min, x)[..start + min] == Zeros(min) + [x] + Zeros(start - 1)
    ensures Lone(min, x)[start..] == Zeros(min + 47 - start)
  {
  }

  /** In the stream every chunk of a lone byte among zeros is cut as soon as it may be. */
  lemma {:induction false} LoneInStream(c: Chunker, mask: nat, x: byte, start: nat)
    requires RollsLow(c, mask) && c.min <= 4 && c.min + 2 <= c.max && (start == 0 || c.min < start <= 45)
    ensures OwnCut(c, Lone(c.min, x), start) == start + c.min + 1
  {
    hide BitAnd, OwnCut, Value, Pow, Low, Lone;
    var data := Lone(c.min, x);
    var own := data[start..];
    if start == 0 {
      LoneParts(c.min, x, c.min + 1);
    } else {
      LoneParts(c.min, x, start);
    }
    assert own[0..c.min] == Zeros(c.min);
    ValueZeros(c.min);
    LowIs(0, 0, 0);
    NothingSeen(mask);
    FirstOwnCut(c, mask, data, start);
  }

  lemma {:induction false} LoneValue(min: nat, x: byte, start: nat)
    requires min < start <= 45
    ensures Low(Value(Lone(min, x)[..start + min]) * 131) == Low(x * Pow(start))
  {
    hide Value, Low, Lone, Pow;
    LoneParts(min, x, start);
    ValueZeros(min);
    ValueOne(x);
    ValueConcat(Zeros(min), [x]);
    ValueZeros(start - 1);
    ValueConcat(Zeros(min) + [x], Zeros(start - 1));
    LowIs(x, 0, x);
    assert 0 * Pow(1) == 0;
    PowStep(start - 1);
    LowAssociate(x, Pow(start - 1), 131);
  }

  /** In the whole buffer the lone byte still shows in every search up to 45 bytes on. */
  lemma {:induction false} LoneInBuffer(c: Chunker, mask: nat, x: byte, start: nat)
    requires RollsLow(c, mask) && c.min <= 4 && c.min + 2 <= c.max && c.min < start <= 44
    ensures var data := Lone(c.min, x);
            Boundary(c, data, start, |data|) == start + c.min + 1 <==> BitAnd(Low(x * Pow(start)), mask) == 0
  {
    hide BitAnd, Boundary, Value, Pow, Low, Lone;
    var data := Lone(c.min, x);
    LoneValue(c.min, x, start);
    assert data[0..start + c.min] == data[..start + c.min];
    FirstCut(c, mask, data, start, |data|);
  }

  /** Where the k-th chunk after the first starts when all are of min + 1 bytes. */
  function Place(min: nat, k: nat): nat {
    if k == 0 then 0 else Place(min, k - 1) + min + 1
  }

  lemma {:induction false} PlaceIs(min: nat, k: nat)
    ensures Place(min, k) == k * (min + 1) && (k > 0 ==> Place(min, k) > min)
  {
    if k > 0 {
      PlaceIs(min, k - 1);
    }
  }

  /** Until they first differ, stream and buffer are cut every min + 1 bytes. */
  lemma {:induction false} AlikeUpTo(c: Chunker, mask: nat, x: byte, k: nat)
    requires RollsLow(c, mask) && c.min <= 4 && c.min + 2 <= c.max && Place(c.min, k) <= 45
    requires Agree(c, Lone(c.min, x))
    ensures OwnChunks(c, Lone(c.min, x), Place(c.min, k)) == Chunks(c, Lone(c.min, x), Place(c.min, k))
    decreases k
  {
    hide Boundary, OwnCut, OwnChunks, Chunks, Lone, RollsLow;
    if k > 0 {
      AlikeUpTo(c, mask, x, k - 1);
      PlaceIs(c.min, k - 1);
      LoneInStream(c, mask, x, Place(c.min, k - 1));
      SameCut(c, Lone(c.min, x), Place(c.min, k - 1));
    }
  }

  lemma {:induction false} LoneDisagrees(c: Chunker, mask: nat, x: byte, k: nat)
    requires RollsLow(c, mask) && c.min <= 4 && c.min + 2 <= c.max && 1 <= k && Place(c.min, k) <= 44
    requires BitAnd(Low(x * Pow(Place(c.min, k))), mask) != 0
    ensures !Agree(c, Lone(c.min, x))
  {
    hide Boundary, OwnCut, OwnChunks, Chunks, Lone, BitAnd, Low, Pow, RollsLow;
    var start := Place(c.min, k);
    PlaceIs(c.min, k);
    LoneInBuffer(c, mask, x, start);
    if Agree(c, Lone(c.min, x)) {
      AlikeUpTo(c, mask, x, k);
      LoneInStream(c, mask, x, start);
      SameCut(c, Lone(c.min, x), start);
      assert false;
    }
  }

  lemma FirstPowers()
    ensures Pow(2) == 17161 && Pow(3) == 2248091
  {
    assert Pow(1) == 131;
  }

  lemma PowersAt12And5()
    ensures Pow(12) == 1084521969 && Pow(5) == 4219751283
  {
    hide Low, Pow;
    FirstPowers();
    PowAdd(3, 3);
    LowIs(2248091 * 2248091, 1176, 3031604185);
    PowAdd(6, 6);
    LowIs(3031604185 * 3031604185, 2139858886, 1084521969);
    PowAdd(3, 2);
    LowIs(2248091 * 17161, 8, 4219751283);
  }

  lemma CoverAt12High()
    ensures Covers(57342, 58757, 16)
  {
    CoversNibble(13, 0, 1, 1, 0, 1, 14, 0, 1, 1, 1, 0, 0);
    CoversNibble(223, 13, 1, 1, 1, 1, 229, 14, 0, 1, 0, 1, 4);
    CoversNibble(3583, 223, 1, 1, 1, 1, 3672, 229, 1, 0, 0, 0, 8);
    CoversNibble(57342, 3583, 1, 1, 1, 0, 58757, 3672, 0, 1, 0, 1, 12);
  }

  /** Two values of a lone byte, twelve places on, reach all 32 mask bits. */
  lemma CoverAt12()
    ensures Covers(3757997929, 3850746558, 32)
  {
    hide Covers;
    CoverAt12High();
    CoversNibble(917479, 57342, 0, 1, 1, 1, 940123, 58757, 1, 0, 1, 1, 16);
    CoversNibble(14679679, 917479, 1, 1, 1, 1, 15041978, 940123, 1, 0, 1, 0, 20);
    CoversNibble(234874870, 14679679, 0, 1, 1, 0, 240671659, 15041978, 1, 0, 1, 1, 24);
    CoversNibble(3757997929, 234874870, 1, 0, 0, 1, 3850746558, 240671659, 1, 1, 1, 0, 28);
  }

  lemma CoverAt5High()
    ensures Covers(44079, 24569, 16)
  {
    CoversNibble(10, 0, 1, 0, 1, 0, 5, 0, 0, 1, 0, 1, 0);
    CoversNibble(172, 10, 1, 1, 0, 0, 95, 5, 1, 1, 1, 1, 4);
    CoversNibble(2754, 172, 0, 0, 1, 0, 1535, 95, 1, 1, 1, 1, 8);
    CoversNibble(44079, 2754, 1, 1, 1, 1, 24569, 1535, 1, 0, 0, 1, 12);
  }

  /** Two values of a lone byte, five places on, reach all 32 mask bits. */
  lemma CoverAt5()
    ensures Covers(2888826714, 1610154493, 32)
  {
    hide Covers;
    CoverAt5High();
    CoversNibble(705279, 44079, 1, 1, 1, 1, 393104, 24569, 0, 0, 0, 0, 16);
    CoversNibble(11284479, 705279, 1, 1, 1, 1, 6289665, 393104, 0, 0, 0, 1, 20);
    CoversNibble(180551669, 11284479, 0, 1, 0, 1, 100634655, 6289665, 1, 1, 1, 1, 24);
    CoversNibble(2888826714, 180551669, 1, 0, 1, 0, 1610154493, 100634655, 1, 1, 0, 1, 28);
  }

  /** Every mask sees a lone byte of some value a multiple of min + 1 places on. */
  lemma {:induction false} LoneIsSeen(min: nat, mask: nat) returns (x: byte, k: nat)
    requires min <= 4 && 0 < mask < WORD
    ensures 1 <= k && Place(min, k) <= 44 && BitAnd(Low(x * Pow(Place(min, k))), mask) != 0
  {
    hide BitAnd, Covers, Low, Pow, Pow2, Place;
    PowersAt12And5();
    Pow2Of32();
    if min == 4 {
      CoverAt5();
      CoverMeetsMask(2888826714, 1610154493, mask, 32);
      LowIs(190 * 4219751283, 186, 2888826714);
      LowIs(207 * 4219751283, 203, 1610154493);
      k := 1;
      PlaceIs(min, k);
      x := if BitAnd(2888826714, mask) != 0 then 190 else 207;
    } else {
      CoverAt12();
      CoverMeetsMask(3757997929, 3850746558, mask, 32);
      LowIs(249 * 1084521969, 62, 3757997929);
      LowIs(158 * 1084521969, 39, 3850746558);
      k := 12 / (min + 1);
      PlaceIs(min, k);
      assert k * (min + 1) == 12;
      x := if BitAnd(3757997929, mask) != 0 then 249 else 158;
    }
  }

  // ---------------------------------------------------------------- exactness

  /**
   * Streaming and whole-buffer chunking agree on every input exactly when min is at most max
   * and min is at least 49, or avg is 1, or a search has at most one position.
   */
  lemma {:induction false} StreamMatchesExactly(cfg: ChunkSizeConfig)
    requires Usable(cfg)
    ensures (forall data: bytes :: Agree(Configured(cfg), data)) <==>
            cfg.min <= cfg.max && (WINDOW + 1 <= cfg.min || cfg.avg == 1 || cfg.max <= cfg.min + 1)
  {
    hide OwnChunks, Chunks, ContentDetermined;
    var c := Configured(cfg);
    ContentDeterminedExactly(cfg);
    if ContentDetermined(c) {
      forall data: bytes ensures Agree(c, data) {
        OwnChunksAreChunks(c, data, 0);
      }
    } else if cfg.max < cfg.min {
      StreamSplitsShortMaximum(c);
      var data: bytes :| OwnChunks(c, data, 0) != Chunks(c, data, 0);
      assert !Agree(c, data);
    } else if cfg.min <= 4 {
      var x, k := LoneIsSeen(cfg.min, cfg.avg - 1);
      ConfiguredRollsLow(cfg);
      LoneDisagrees(c, cfg.avg - 1, x, k);
    } else {
      ConfiguredRollsLow(cfg);
      var data := CrossingDisagrees(c, cfg.avg - 1);
    }
  }
}
