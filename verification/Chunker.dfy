/**
 * Content-defined chunking (core/src/chunker/mod.rs), for any rolling hash; module
 * BuzHash below supplies the original's.
 *
 * `Boundary` and `Chunks` specify the whole-buffer chunker; the methods are the
 * imperative originals. The main results are that the chunks tile the input, and that
 * the streaming chunker cuts where the whole-buffer chunker cuts, however the input
 * arrives in reads.
 */
module Chunking {
  import opened Common

  const WINDOW: nat := 48
  const READ_UNIT: nat := 0x10_0000

  datatype Chunk = Chunk(offset: nat, size: nat, data: bytes)

  /** A rolling hash: a byte enters it, a byte leaves it, and some values of it mark a cut. */
  datatype Rolling = Rolling(push: (nat, byte) -> nat, drop: (nat, byte) -> nat, isCut: nat -> bool)

  datatype ChunkerParts = ChunkerParts(min: nat, max: nat, rolling: Rolling)

  /** The original never advances when `max` is zero. */
  type Chunker = c: ChunkerParts | 1 <= c.max
    witness ChunkerParts(1, 1, Rolling((h, b) => h, (h, b) => h, h => true))

  // ---------------------------------------------------------------- specification

  /** The hash of data[lo..hi], first byte most significant. */
  function Fold(c: Chunker, data: bytes, lo: nat, hi: nat): nat
    requires lo <= hi <= |data|
  {
    if lo == hi then 0 else c.rolling.push(Fold(c, data, lo, hi - 1), data[hi - 1])
  }

  function Entering(data: bytes, i: nat, searchEnd: nat): byte
    requires i < searchEnd <= |data|
  {
    if i + WINDOW <= searchEnd then data[i] else 0
  }

  function Exiting(data: bytes, i: nat): byte
    requires i < |data|
  {
    if i >= WINDOW + 1 then data[i - WINDOW - 1] else 0
  }

  function Slide(c: Chunker, data: bytes, i: nat, searchEnd: nat, hash: nat): nat
    requires i < searchEnd <= |data|
  {
    c.rolling.drop(c.rolling.push(hash, Entering(data, i, searchEnd)), Exiting(data, i))
  }

  /** The first cut at or after position i, or the end of the search window. */
  function Scan(c: Chunker, data: bytes, i: nat, searchEnd: nat, hash: nat): (end: nat)
    requires i <= searchEnd <= |data|
    ensures i <= end <= searchEnd
    ensures i < searchEnd ==> i < end
    decreases searchEnd - i
  {
    if i == searchEnd then searchEnd
    else
      var h := Slide(c, data, i, searchEnd, hash);
      if c.rolling.isCut(h) then i + 1 else Scan(c, data, i + 1, searchEnd, h)
  }

  /** The hash the scan starts from: up to 48 bytes before the search window. */
  function InitialHash(c: Chunker, data: bytes, searchStart: nat): nat
    requires searchStart <= |data|
  {
    Fold(c, data, Max(searchStart - WINDOW, 0), searchStart)
  }

  function Boundary(c: Chunker, data: bytes, start: nat, end: nat): (cut: nat)
    requires start < end <= |data|
    ensures start < cut <= end
  {
    if start + c.min >= end then end
    else
      var searchStart := start + c.min;
      var searchEnd := Min(start + c.max, end);
      if searchStart >= searchEnd then searchEnd
      else Scan(c, data, searchStart, searchEnd, InitialHash(c, data, searchStart))
  }

  function Piece(data: bytes, lo: nat, hi: nat): Chunk
    requires lo <= hi <= |data|
  {
    Chunk(lo, hi - lo, data[lo..hi])
  }

  function Chunks(c: Chunker, data: bytes, start: nat): seq<Chunk>
    requires start <= |data|
    decreases |data| - start
  {
    if start == |data| then []
    else
      var cut := Boundary(c, data, start, |data|);
      [Piece(data, start, cut)] + Chunks(c, data, cut)
  }

  // ---------------------------------------------------------------- locality of a cut

  /** The n bytes of a from `start` are the first n bytes of b. */
  ghost predicate SameWindow(a: bytes, start: nat, b: bytes, n: nat) {
    start + n <= |a| && n <= |b| && forall k :: 0 <= k < n ==> a[start + k] == b[k]
  }

  lemma {:induction false} FoldLocal(c: Chunker, a: bytes, start: nat, b: bytes, n: nat, lo: nat, hi: nat)
    requires SameWindow(a, start, b, n) && lo <= hi <= n
    ensures Fold(c, a, start + lo, start + hi) == Fold(c, b, lo, hi)
    decreases hi
  {
    if lo < hi {
      FoldLocal(c, a, start, b, n, lo, hi - 1);
      assert a[start + (hi - 1)] == b[hi - 1];
    }
  }

  /** A scan sees only its own window when it starts at the front of the data or 49 bytes into the window. */
  lemma {:induction false} ScanLocal(c: Chunker, a: bytes, start: nat, b: bytes, n: nat, i: nat, hash: nat)
    requires SameWindow(a, start, b, n) && i <= n
    requires start == 0 || WINDOW + 1 <= i
    ensures Scan(c, a, start + i, start + n, hash) == start + Scan(c, b, i, n, hash)
    decreases n - i
  {
    if i < n {
      assert a[start + i] == b[i];
      assert i >= WINDOW + 1 ==> a[start + (i - WINDOW - 1)] == b[i - WINDOW - 1];
      var h := Slide(c, b, i, n, hash);
      assert h == Slide(c, a, start + i, start + n, hash);
      if !c.rolling.isCut(h) {
        ScanLocal(c, a, start, b, n, i + 1, h);
      }
    }
  }

  /**
   * A boundary search up to `end` depends only on the bytes from its start, when that
   * is the front of the data or the minimum is at least 49.
   */
  lemma BoundaryLocal(c: Chunker, a: bytes, start: nat, b: bytes, end: nat)
    requires 0 < end && SameWindow(a, start, b, end)
    requires start == 0 || WINDOW + 1 <= c.min
    ensures Boundary(c, a, start, start + end) == start + Boundary(c, b, 0, end)
  {
    var n := Min(c.max, end);
    assert Min(start + c.max, start + end) == start + n;
    if c.min < n {
      var lo := Max(c.min - WINDOW, 0);
      FoldLocal(c, a, start, b, n, lo, c.min);
      ScanLocal(c, a, start, b, n, c.min, Fold(c, b, lo, c.min));
    }
  }

  /** The cut a chunker finds when it sees nothing before `start`, and at most one maximal chunk after it. */
  function OwnCut(c: Chunker, data: bytes, start: nat): (cut: nat)
    requires start < |data|
    ensures start < cut <= |data|
  {
    start + Boundary(c, data[start..], 0, Min(c.max, |data| - start))
  }

  function OwnChunks(c: Chunker, data: bytes, start: nat): seq<Chunk>
    requires start <= |data|
    decreases |data| - start
  {
    if start == |data| then []
    else
      var cut := OwnCut(c, data, start);
      [Piece(data, start, cut)] + OwnChunks(c, data, cut)
  }

  /** Every whole-buffer cut is found from the bytes of the chunk alone. */
  ghost predicate ContentDetermined(c: Chunker) {
    forall data: bytes, start: nat | start < |data| ::
      Boundary(c, data, start, |data|) == OwnCut(c, data, start)
  }

  /** A minimum past the hash window makes every boundary a function of its chunk's content. */
  lemma LongMinimumSuffices(c: Chunker)
    requires WINDOW + 1 <= c.min <= c.max
    ensures ContentDetermined(c)
  {
    forall data: bytes, start: nat | start < |data|
      ensures Boundary(c, data, start, |data|) == OwnCut(c, data, start)
    {
      var n := Min(c.max, |data| - start);
      assert Boundary(c, data, start, |data|) == Boundary(c, data, start, start + n);
      BoundaryLocal(c, data, start, data[start..], n);
    }
  }

  // ---------------------------------------------------------------- chunk sequences

  /** The chunks carry consecutive pieces of data[start..], in order and with nothing left over. */
  ghost predicate Tiles(chunks: seq<Chunk>, data: bytes, start: nat)
    requires start <= |data|
    decreases |chunks|
  {
    if chunks == [] then start == |data|
    else
      var c := chunks[0];
      0 < c.size && start + c.size <= |data| && c == Piece(data, start, start + c.size)
      && Tiles(chunks[1..], data, start + c.size)
  }

  /** Chunks tile the input; with min at most max none exceeds max, and only the last may be shorter than min. */
  lemma {:induction false} ChunksTile(c: Chunker, data: bytes, start: nat)
    requires start <= |data|
    ensures var cs := Chunks(c, data, start);
            && Tiles(cs, data, start)
            && (c.min <= c.max ==> forall k :: 0 <= k < |cs| ==> cs[k].size <= c.max)
            && (c.min <= c.max ==> forall k :: 0 <= k < |cs| - 1 ==> c.min <= cs[k].size)
    decreases |data| - start
  {
    if start < |data| {
      var cut := Boundary(c, data, start, |data|);
      ChunksTile(c, data, cut);
      var rest := Chunks(c, data, cut);
      assert Chunks(c, data, start)[1..] == rest;
      assert rest != [] ==> cut < |data|;
    }
  }

  /** The streaming chunker's chunks tile the input and never exceed max. */
  lemma {:induction false} OwnChunksTile(c: Chunker, data: bytes, start: nat)
    requires start <= |data|
    ensures var cs := OwnChunks(c, data, start);
            Tiles(cs, data, start) && forall k :: 0 <= k < |cs| ==> cs[k].size <= c.max
    decreases |data| - start
  {
    if start < |data| {
      var cut := OwnCut(c, data, start);
      OwnChunksTile(c, data, cut);
      assert OwnChunks(c, data, start)[1..] == OwnChunks(c, data, cut);
    }
  }

  function Payloads(chunks: seq<Chunk>): (r: seq<bytes>)
    ensures |r| == |chunks| && forall k :: 0 <= k < |r| ==> r[k] == chunks[k].data
  {
    if chunks == [] then [] else [chunks[0].data] + Payloads(chunks[1..])
  }

  /** Tiles are, put together, the bytes they tile. */
  lemma {:induction false} TilesConcat(chunks: seq<Chunk>, data: bytes, start: nat)
    requires start <= |data| && Tiles(chunks, data, start)
    ensures Flatten(Payloads(chunks)) == data[start..]
    decreases |chunks|
  {
    if chunks != [] {
      var next := start + chunks[0].size;
      TilesConcat(chunks[1..], data, next);
      assert data[start..] == data[start..next] + data[next..];
    }
  }

  function Shift(chunks: seq<Chunk>, delta: nat): (r: seq<Chunk>)
    ensures |r| == |chunks| && forall k :: 0 <= k < |r| ==> r[k] == chunks[k].(offset := chunks[k].offset + delta)
  {
    if chunks == [] then []
    else [chunks[0].(offset := chunks[0].offset + delta)] + Shift(chunks[1..], delta)
  }

  lemma {:induction false} ShiftNothing(delta: nat)
    ensures Shift([], delta) == []
  {
  }

  lemma {:induction false} ShiftCons(chunk: Chunk, rest: seq<Chunk>, delta: nat)
    ensures Shift([chunk] + rest, delta) == [chunk.(offset := chunk.offset + delta)] + Shift(rest, delta)
  {
    assert ([chunk] + rest)[1..] == rest;
  }

  lemma PieceShift(data: bytes, from: nat, lo: nat, hi: nat)
    requires from <= lo <= hi <= |data|
    ensures var piece := Piece(data[from..], lo - from, hi - from);
            Piece(data, lo, hi) == piece.(offset := piece.offset + from)
  {
    assert data[from..] == data[from..|data|];
    SliceOfSlice(data, from, |data|, lo - from, hi - from);
  }

  lemma BoundaryShift(c: Chunker, data: bytes, from: nat, start: nat)
    requires WINDOW + 1 <= c.min && from <= start < |data|
    ensures Boundary(c, data, start, |data|) == from + Boundary(c, data[from..], start - from, |data| - from)
  {
    hide Boundary;
    var rest := data[start..];
    BoundaryLocal(c, data, start, rest, |rest|);
    BoundaryLocal(c, data[from..], start - from, rest, |rest|);
  }

  /** Chunking the bytes from any position on gives, shifted, the chunks the whole buffer has from there. */
  lemma {:induction false} SuffixChunks(c: Chunker, data: bytes, from: nat, start: nat)
    requires WINDOW + 1 <= c.min && from <= start <= |data|
    ensures Chunks(c, data, start) == Shift(Chunks(c, data[from..], start - from), from)
    decreases |data| - start
  {
    hide Boundary, Shift;
    if start == |data| {
      ShiftNothing(from);
    } else {
      BoundaryShift(c, data, from, start);
      var cut := Boundary(c, data, start, |data|);
      SuffixChunks(c, data, from, cut);
      PieceShift(data, from, start, cut);
      ShiftCons(Piece(data[from..], start - from, cut - from), Chunks(c, data[from..], cut - from), from);
    }
  }

  /** A chunker that sees only its own buffer produces the whole-buffer chunks. */
  lemma {:induction false} OwnChunksAreChunks(c: Chunker, data: bytes, start: nat)
    requires ContentDetermined(c) && start <= |data|
    ensures OwnChunks(c, data, start) == Chunks(c, data, start)
    decreases |data| - start
  {
    hide Boundary, OwnCut;
    if start < |data| {
      OwnChunksAreChunks(c, data, Boundary(c, data, start, |data|));
    }
  }

  /**
   * With a minimum past the hash window, streaming and whole-buffer chunking agree on
   * every input exactly when the maximum is no smaller than the minimum.
   */
  lemma {:induction false} StreamMatchesBufferExactly(c: Chunker)
    requires WINDOW + 1 <= c.min
    ensures (forall data: bytes :: OwnChunks(c, data, 0) == Chunks(c, data, 0)) <==> c.min <= c.max
  {
    if c.min <= c.max {
      LongMinimumSuffices(c);
      forall data: bytes
        ensures OwnChunks(c, data, 0) == Chunks(c, data, 0)
      {
        OwnChunksAreChunks(c, data, 0);
      }
    } else {
      StreamSplitsShortMaximum(c);
    }
  }

  lemma {:induction false} StreamSplitsShortMaximum(c: Chunker)
    requires c.max < c.min
    ensures exists data: bytes :: OwnChunks(c, data, 0) != Chunks(c, data, 0)
  {
    var data := Zeros(c.min);
    assert Chunks(c, data, 0)[0].size == c.min;
    assert OwnChunks(c, data, 0)[0].size == c.max;
  }

  // ---------------------------------------------------------------- the imperative chunker

  method HashBefore(c: Chunker, data: bytes, searchStart: nat) returns (hash: nat)
    requires searchStart <= |data|
    ensures hash == InitialHash(c, data, searchStart)
  {
    hash := 0;
    var low := Max(searchStart - WINDOW, 0);
    for k := 0 to WINDOW
      invariant hash == Fold(c, data, low, Min(low + k, searchStart))
    {
      var idx := low + k;
      if idx < searchStart {
        hash := c.rolling.push(hash, data[idx]);
      }
    }
  }

  method FindChunkBoundary(c: Chunker, data: bytes, start: nat, end: nat) returns (cut: nat)
    requires start < end <= |data|
    ensures cut == Boundary(c, data, start, end)
  {
    if start + c.min >= end {
      return end;
    }
    var searchStart := Min(start + c.min, end);
    var searchEnd := Min(start + c.max, end);
    if searchStart >= searchEnd {
      return searchEnd;
    }
    var hash := HashBefore(c, data, searchStart);
    for i := searchStart to searchEnd
      invariant Boundary(c, data, start, end) == Scan(c, data, i, searchEnd, hash)
    {
      var entering := if i + WINDOW <= searchEnd then data[i] else 0;
      var exiting := if i >= WINDOW + 1 then data[i - WINDOW - 1] else 0;
      hash := c.rolling.push(hash, entering);
      hash := c.rolling.drop(hash, exiting);
      if c.rolling.isCut(hash) && i - start >= c.min {
        return i + 1;
      }
    }
    return searchEnd;
  }

  method ChunkData(c: Chunker, data: bytes) returns (chunks: seq<Chunk>)
    ensures chunks == Chunks(c, data, 0)
  {
    hide Boundary;
    chunks := [];
    var start := 0;
    while start < |data|
      invariant start <= |data|
      invariant chunks + Chunks(c, data, start) == Chunks(c, data, 0)
    {
      var end := FindChunkBoundary(c, data, start, |data|);
      SnocShift(chunks, Piece(data, start, end), Chunks(c, data, end));
      chunks := chunks + [Piece(data, start, end)];
      start := end;
    }
  }

  /** The buffer holds the input from `offset` on, up to what has been read. */
  ghost predicate Buffered(buffer: bytes, input: bytes, offset: nat, unread: bytes) {
    offset <= |input| && input[offset..] == buffer + unread
  }

  lemma BufferedCut(c: Chunker, buffer: bytes, input: bytes, offset: nat, unread: bytes, end: nat)
    requires Buffered(buffer, input, offset, unread) && 0 < end <= |buffer|
    requires end == c.max || (end < c.max && end == |buffer| && unread == [])
    ensures offset < |input| && OwnCut(c, input, offset) == offset + Boundary(c, buffer, 0, end)
    ensures var cut := Boundary(c, buffer, 0, end);
            input[offset..offset + cut] == buffer[..cut] && Buffered(buffer[cut..], input, offset + cut, unread)
  {
    hide Boundary;
    var view := input[offset..];
    BoundaryLocal(c, view, 0, buffer, end);
    var cut := Boundary(c, buffer, 0, end);
    assert input[offset..offset + cut] == view[..cut] == buffer[..cut];
    assert input[offset + cut..] == view[cut..] == buffer[cut..] + unread;
  }

  /** What the streaming loops keep: the chunks so far and those still to come are all of the input's. */
  ghost predicate Streaming(c: Chunker, chunks: seq<Chunk>, buffer: bytes, offset: nat, input: bytes, unread: bytes) {
    Buffered(buffer, input, offset, unread)
    && chunks + OwnChunks(c, input, offset) == OwnChunks(c, input, 0)
  }

  /** Cuts one chunk off the front of the buffer, searching at most `end` bytes of it. */
  method CutFront(c: Chunker, buffer: bytes, end: nat, offset: nat,
                  ghost chunks: seq<Chunk>, ghost input: bytes, ghost unread: bytes)
    returns (chunk: Chunk)
    requires 0 < end <= |buffer| && Streaming(c, chunks, buffer, offset, input, unread)
    requires end == c.max || (end < c.max && end == |buffer| && unread == [])
    ensures 0 < chunk.size <= |buffer| && chunk.size == Boundary(c, buffer, 0, end)
    ensures Streaming(c, chunks + [chunk], buffer[chunk.size..], offset + chunk.size, input, unread)
  {
    hide Boundary, OwnCut;
    var boundary := FindChunkBoundary(c, buffer, 0, end);
    BufferedCut(c, buffer, input, offset, unread, end);
    chunk := Chunk(offset, boundary, buffer[..boundary]);
    SnocShift(chunks, chunk, OwnChunks(c, input, offset + boundary));
  }

  /** What stays buffered when no full search window is left. */
  function Leftover(c: Chunker, buffer: bytes): (rest: bytes)
    ensures |rest| < c.max
    decreases |buffer|
  {
    if |buffer| >= c.max then Leftover(c, buffer[Boundary(c, buffer, 0, c.max)..]) else buffer
  }

  /** The most that is buffered at any time, from a buffer on. */
  function Peak(c: Chunker, buffer: bytes, readings: seq<bytes>): nat
    decreases |readings|
  {
    if readings == [] then 0
    else Max(|buffer + readings[0]|, Peak(c, Leftover(c, buffer + readings[0]), readings[1..]))
  }

  lemma {:induction false} PeakBounded(c: Chunker, buffer: bytes, readings: seq<bytes>)
    requires |buffer| < c.max && forall r :: r in readings ==> |r| <= READ_UNIT
    ensures Peak(c, buffer, readings) < c.max + READ_UNIT
    decreases |readings|
  {
    hide Leftover;
    if readings != [] {
      assert readings[0] in readings;
      PeakBounded(c, Leftover(c, buffer + readings[0]), readings[1..]);
    }
  }

  ghost predicate IsReading(readings: seq<bytes>) {
    forall r :: r in readings ==> 0 < |r| <= READ_UNIT
  }

  /** At most two maximal chunks are ever buffered exactly when a read unit is at most max plus one. */
  lemma {:induction false} DoubleBufferExactly(c: Chunker)
    ensures (forall readings :: IsReading(readings) ==> Peak(c, [], readings) <= 2 * c.max) <==> 0x10_0000 <= c.max + 1
  {
    hide Leftover, Boundary;
    if READ_UNIT <= c.max + 1 {
      forall readings | IsReading(readings) ensures Peak(c, [], readings) <= 2 * c.max {
        PeakBounded(c, [], readings);
      }
    } else {
      var full := Zeros(READ_UNIT);
      if c.max == 1 {
        assert [] + full == full;
        assert IsReading([full]) && Peak(c, [], [full]) >= READ_UNIT;
      } else {
        var part := Zeros(c.max - 1);
        SmallStays(c, part);
        assert [] + part == part && [part, full][1..] == [full];
        assert IsReading([part, full]);
        assert Peak(c, part, [full]) >= c.max - 1 + READ_UNIT;
        assert Peak(c, [], [part, full]) >= Peak(c, part, [full]);
      }
    }
  }

  lemma {:induction false} SmallStays(c: Chunker, buffer: bytes)
    requires |buffer| < c.max
    ensures Leftover(c, buffer) == buffer
  {
  }

  /** Cuts chunks off the front while a full search window is buffered. */
  method CutFullWindows(c: Chunker, chunks0: seq<Chunk>, buffer0: bytes, offset0: nat,
                        ghost input: bytes, ghost unread: bytes)
    returns (chunks: seq<Chunk>, buffer: bytes, offset: nat)
    requires Streaming(c, chunks0, buffer0, offset0, input, unread)
    ensures Streaming(c, chunks, buffer, offset, input, unread) && buffer == Leftover(c, buffer0)
  {
    hide Streaming, Boundary;
    chunks, buffer, offset := chunks0, buffer0, offset0;
    while |buffer| >= c.max
      invariant Streaming(c, chunks, buffer, offset, input, unread) && Leftover(c, buffer) == Leftover(c, buffer0)
      decreases |buffer|
    {
      var chunk := CutFront(c, buffer, c.max, offset, chunks, input, unread);
      chunks, buffer, offset := chunks + [chunk], buffer[chunk.size..], offset + chunk.size;
    }
  }

  /** Flushes what is left at the end of the input. */
  method Flush(c: Chunker, chunks0: seq<Chunk>, buffer0: bytes, offset0: nat, ghost input: bytes)
    returns (chunks: seq<Chunk>)
    requires Streaming(c, chunks0, buffer0, offset0, input, []) && |buffer0| < c.max
    ensures chunks == OwnChunks(c, input, 0)
  {
    hide Boundary, OwnCut;
    var buffer: bytes, offset: nat := buffer0, offset0;
    chunks := chunks0;
    while buffer != []
      invariant Streaming(c, chunks, buffer, offset, input, []) && |buffer| < c.max
      decreases |buffer|
    {
      var chunk := CutFront(c, buffer, |buffer|, offset, chunks, input, []);
      chunks, buffer, offset := chunks + [chunk], buffer[chunk.size..], offset + chunk.size;
    }
    assert input[offset..] == [];
  }

  /**
   * The streaming chunker. `readings` are the successive non-empty results of the
   * reader, after which it reports end of input. The chunks do not depend on how the
   * input is split, and the buffer never reaches max plus one read unit; `peak` is the
   * most it holds.
   */
  method ChunkReader(c: Chunker, readings: seq<bytes>) returns (chunks: seq<Chunk>, ghost peak: nat)
    requires forall r :: r in readings ==> 0 < |r| <= READ_UNIT
    ensures chunks == OwnChunks(c, Flatten(readings), 0)
    ensures ContentDetermined(c) ==> chunks == Chunks(c, Flatten(readings), 0)
    ensures peak == Peak(c, [], readings) < c.max + 0x10_0000
  {
    hide Boundary, OwnCut, Leftover;
    ghost var input := Flatten(readings);
    PeakBounded(c, [], readings);
    assert readings[0..] == readings;
    var buffer: bytes, offset: nat := [], 0;
    chunks, peak := [], 0;
    for k := 0 to |readings|
      invariant Streaming(c, chunks, buffer, offset, input, Flatten(readings[k..]))
      invariant |buffer| < c.max && Max(peak, Peak(c, buffer, readings[k..])) == Peak(c, [], readings)
    {
      ghost var unread := Flatten(readings[k + 1..]);
      assert readings[k..][1..] == readings[k + 1..];
      ConcatAssoc(buffer, readings[k], unread);
      buffer := buffer + readings[k];
      peak := Max(peak, |buffer|);
      chunks, buffer, offset := CutFullWindows(c, chunks, buffer, offset, input, unread);
    }
    chunks := Flush(c, chunks, buffer, offset, input);
    if ContentDetermined(c) {
      OwnChunksAreChunks(c, input, 0);
    }
  }
}
