/**
 * The tape file system (core/src/tape/ltfs.rs): a header with magic, block size and index
 * length, the serialized index in a reserved region of 65536 bytes, then the files, one
 * after another.
 */
module Tape {
  import opened Common
  import opened BigEndian

  const LTFS_MAGIC: bytes := [66, 67, 75, 76, 84, 70, 83, 48, 49]  // "BCKLTFS01"
  const INDEX_PARTITION_RESERVED: nat := 65536
  const MIN_BLOCK_SIZE: nat := 4096
  const HEADER: nat := 21

  datatype Entry = Entry(name: string, size: nat, offset: nat, createdAt: int)

  type Index = seq<Entry>

  datatype TapeError = NoTape | ShortHeader | BadMagic | IndexExceedsTape | BadIndex | NotOnTape

  /** The index serializer: reading what was written gives the index back. */
  datatype Serializer = Serializer(write: Index -> bytes, read: bytes -> Option<Index>)

  ghost predicate Lawful(json: Serializer) {
    forall index :: json.read(json.write(index)) == Some(index)
  }

  // ---------------------------------------------------------------- layout

  /** Cut off or filled up with zeros. */
  function Resized(b: bytes, n: nat): (r: bytes)
    ensures |r| == n
  {
    if |b| >= n then b[..n] else b + Zeros(n - |b|)
  }

  /** Magic, block size in 8 bytes, index length in 4 bytes, index. */
  function Head(blockSize: nat, index: bytes): (head: bytes)
    ensures |head| == HEADER + |index|
  {
    LTFS_MAGIC + ToBytes(blockSize, 8) + ToBytes(|index|, 4) + index
  }

  /** A tape with this index region and this data partition. */
  function Image(blockSize: nat, index: bytes, payload: bytes): bytes {
    Resized(Head(blockSize, index), INDEX_PARTITION_RESERVED) + payload
  }

  function Formatted(json: Serializer, blockSize: nat): bytes {
    var head := Head(Max(blockSize, MIN_BLOCK_SIZE), json.write([]));
    Resized(head, Max(|head|, INDEX_PARTITION_RESERVED))
  }

  function ParseIndex(json: Serializer, data: bytes): Result<Index, TapeError> {
    if |data| < HEADER then Err(ShortHeader)
    else if data[..9] != LTFS_MAGIC then Err(BadMagic)
    else
      var length := FromBytes(data[17..21]);
      if HEADER + length > |data| then Err(IndexExceedsTape)
      else
        match json.read(data[HEADER..HEADER + length])
        case Some(index) => Ok(index)
        case None => Err(BadIndex)
  }

  function BlockSize(data: bytes): nat {
    if |data| >= 17 then FromBytes(data[9..17]) else MIN_BLOCK_SIZE
  }

  function DataPartition(data: bytes): bytes {
    if |data| > INDEX_PARTITION_RESERVED then data[INDEX_PARTITION_RESERVED..] else []
  }

  /** The end of the last file, or the start of the data partition. */
  function DataEnd(index: Index): nat {
    if index == [] then INDEX_PARTITION_RESERVED
    else Max(DataEnd(index[..|index| - 1]), index[|index| - 1].offset + index[|index| - 1].size)
  }

  function WithIndex(json: Serializer, data: bytes, index: Index): bytes {
    Image(BlockSize(data), json.write(index), DataPartition(data))
  }

  function Append(json: Serializer, data: bytes, name: string, content: bytes, now: int): Result<(bytes, Entry), TapeError> {
    match ParseIndex(json, data)
    case Err(e) => Err(e)
    case Ok(index) =>
      var entry := Entry(name, |content|, DataEnd(index), now);
      Ok((WithIndex(json, data, index + [entry]) + content, entry))
  }

  function Find(index: Index, name: string): (found: Option<Entry>)
    ensures found.Some? <==> exists e :: e in index && e.name == name
    ensures found.Some? ==> found.value in index && found.value.name == name
  {
    if index == [] then None
    else if index[0].name == name then Some(index[0])
    else Find(index[1..], name)
  }

  /** A range that leaves the tape is cut off. */
  function Extent(data: bytes, e: Entry): bytes {
    data[Min(e.offset, |data|)..Min(e.offset + e.size, |data|)]
  }

  function ReadFile(json: Serializer, data: bytes, name: string): Result<bytes, TapeError> {
    match ParseIndex(json, data)
    case Err(e) => Err(e)
    case Ok(index) =>
      match Find(index, name)
      case None => Err(NotOnTape)
      case Some(e) => Ok(Extent(data, e))
  }

  // ---------------------------------------------------------------- what a tape holds

  datatype File = File(name: string, content: bytes, createdAt: int)

  function Contents(files: seq<File>): bytes {
    if files == [] then [] else Contents(files[..|files| - 1]) + files[|files| - 1].content
  }

  /** The files in order of their appends, each where the one before it ends. */
  function Entries(files: seq<File>): (index: Index)
    ensures |index| == |files|
  {
    if files == [] then []
    else
      var f := files[|files| - 1];
      var before := files[..|files| - 1];
      Entries(before) + [Entry(f.name, |f.content|, INDEX_PARTITION_RESERVED + |Contents(before)|, f.createdAt)]
  }

  /** The tape that holds exactly these files. */
  function TapeOf(json: Serializer, blockSize: nat, files: seq<File>): bytes {
    Image(blockSize, json.write(Entries(files)), Contents(files))
  }

  /** Header and index fit the reserved region. */
  predicate Fits(json: Serializer, files: seq<File>) {
    HEADER + |json.write(Entries(files))| <= INDEX_PARTITION_RESERVED
  }

  predicate IsBlockSize(n: nat) {
    n < Span(8)
  }

  // ---------------------------------------------------------------- reading an image

  lemma {:induction false} HeadParts(blockSize: nat, index: bytes)
    ensures var head := Head(blockSize, index);
            && head[..9] == LTFS_MAGIC && head[9..17] == ToBytes(blockSize, 8)
            && head[17..21] == ToBytes(|index|, 4) && head[21..] == index
  {
  }

  /** "BCKLTFS01", the block size in eight bytes, the length of the index in four, both with the most significant byte first, the index. */
  lemma {:induction false} HeaderBytes(blockSize: nat, index: bytes, i: nat)
    requires i < 8
    ensures var head := Head(blockSize, index);
            && head[..9] == [66, 67, 75, 76, 84, 70, 83, 48, 49] && head[9 + i] == blockSize / Span(7 - i) % 256
            && head[17..21] == [|index| / 0x100_0000 % 256, |index| / 0x1_0000 % 256, |index| / 0x100 % 256, |index| % 256]
            && head[21..] == index
  {
    hide ToBytes, Span, Head;
    HeadParts(blockSize, index);
    FourBytes(|index|);
    ToBytesAt(blockSize, 8, i);
    var head := Head(blockSize, index);
    assert head[9..17][i] == head[9 + i];
  }

  /** After the header zeros fill the first 65536 bytes, and then come the files. */
  lemma ImageBytes(blockSize: nat, index: bytes, payload: bytes)
    requires 21 + |index| <= 65536
    ensures var data := Image(blockSize, index, payload);
            && |data| == 65536 + |payload| && data[..21 + |index|] == Head(blockSize, index) && data[65536..] == payload
            && forall i :: 21 + |index| <= i < 65536 ==> data[i] == 0
  {
    hide Head;
    var head := Head(blockSize, index);
    assert Resized(head, 65536)[..|head|] == head;
  }

  lemma ImageParts(blockSize: nat, index: bytes, payload: bytes)
    requires HEADER + |index| <= INDEX_PARTITION_RESERVED
    ensures var data := Image(blockSize, index, payload);
            && |data| == INDEX_PARTITION_RESERVED + |payload| && data[..HEADER + |index|] == Head(blockSize, index)
            && DataPartition(data) == payload
  {
    var head := Head(blockSize, index);
    assert Resized(head, INDEX_PARTITION_RESERVED)[..|head|] == head;
  }

  lemma SpanOfFour()
    ensures Span(4) == 0x1_0000_0000
  {
    assert Span(1) == 256 && Span(2) == 0x1_0000 && Span(3) == 0x100_0000;
  }

  lemma ImageReads(json: Serializer, blockSize: nat, index: Index, payload: bytes)
    requires Lawful(json) && IsBlockSize(blockSize) && HEADER + |json.write(index)| <= INDEX_PARTITION_RESERVED
    ensures var data := Image(blockSize, json.write(index), payload);
            ParseIndex(json, data) == Ok(index) && BlockSize(data) == blockSize && DataPartition(data) == payload
  {
    hide Resized, Image;
    var raw := json.write(index);
    var data := Image(blockSize, raw, payload);
    ImageParts(blockSize, raw, payload);
    HeadParts(blockSize, raw);
    SpanOfFour();
    FromToBytes(blockSize, 8);
    FromToBytes(|raw|, 4);
    var head := data[..HEADER + |raw|];
    assert data[..9] == head[..9] && data[9..17] == head[9..17] && data[17..21] == head[17..21];
    assert data[HEADER..HEADER + |raw|] == head[21..];
  }

  lemma {:induction false} EntriesEnd(files: seq<File>)
    ensures DataEnd(Entries(files)) == INDEX_PARTITION_RESERVED + |Contents(files)|
  {
    if files != [] {
      EntriesEnd(files[..|files| - 1]);
      assert Entries(files)[..|files| - 1] == Entries(files[..|files| - 1]);
    }
  }

  // ---------------------------------------------------------------- the main results

  /** Formatting gives the empty tape. */
  lemma FormattedIsEmpty(json: Serializer, blockSize: nat)
    requires Fits(json, [])
    ensures Formatted(json, blockSize) == TapeOf(json, Max(blockSize, MIN_BLOCK_SIZE), [])
  {
  }

  /** A formatted tape is 65536 bytes, has no files, and blocks of the size asked for, of 4096 bytes at the least. */
  lemma {:induction false} FormattedReads(json: Serializer, blockSize: nat)
    requires Lawful(json) && IsBlockSize(blockSize) && Fits(json, [])
    ensures var data := Formatted(json, blockSize);
            && |data| == 65536 && ParseIndex(json, data) == Ok([])
            && BlockSize(data) == if blockSize >= 4096 then blockSize else 4096
  {
    hide ParseIndex, BlockSize, Image;
    MinimumIsBlockSize();
    FormattedIsEmpty(json, blockSize);
    ImageParts(Max(blockSize, MIN_BLOCK_SIZE), json.write([]), []);
    ImageReads(json, Max(blockSize, MIN_BLOCK_SIZE), [], []);
  }

  /** Appending to the tape of some files gives the tape of those files and the new one. */
  lemma {:induction false} AppendAdds(json: Serializer, blockSize: nat, files: seq<File>, f: File)
    requires Lawful(json) && IsBlockSize(blockSize) && Fits(json, files)
    ensures Append(json, TapeOf(json, blockSize, files), f.name, f.content, f.createdAt) ==
            Ok((TapeOf(json, blockSize, files + [f]), Entries(files + [f])[|files|]))
  {
    hide Image, ParseIndex, BlockSize, DataPartition;
    ImageReads(json, blockSize, Entries(files), Contents(files));
    EntriesEnd(files);
    assert (files + [f])[..|files|] == files;
    ImageConcat(blockSize, json.write(Entries(files + [f])), Contents(files), f.content);
  }

  lemma ImageConcat(blockSize: nat, index: bytes, a: bytes, b: bytes)
    ensures Image(blockSize, index, a) + b == Image(blockSize, index, a + b)
  {
  }

  /** Format, then append the files one by one. */
  function Written(json: Serializer, blockSize: nat, files: seq<File>): Result<bytes, TapeError> {
    if files == [] then Ok(Formatted(json, blockSize))
    else
      var f := files[|files| - 1];
      match Written(json, blockSize, files[..|files| - 1])
      case Err(e) => Err(e)
      case Ok(data) =>
        match Append(json, data, f.name, f.content, f.createdAt)
        case Err(e) => Err(e)
        case Ok(r) => Ok(r.0)
  }

  /** The index has fitted its region after the format and after every append. */
  predicate AlwaysFits(json: Serializer, files: seq<File>) {
    forall k :: 0 <= k <= |files| ==> Fits(json, files[..k])
  }

  lemma {:induction false} WritingGivesTheTape(json: Serializer, blockSize: nat, files: seq<File>)
    requires Lawful(json) && IsBlockSize(blockSize) && AlwaysFits(json, files)
    ensures Written(json, blockSize, files) == Ok(TapeOf(json, Max(blockSize, MIN_BLOCK_SIZE), files))
  {
    hide Append, Formatted, TapeOf, Fits;
    if files == [] {
      assert Fits(json, files[..0]);
      FormattedIsEmpty(json, blockSize);
    } else {
      var n := |files| - 1;
      assert forall k :: 0 <= k <= n ==> files[..n][..k] == files[..k];
      WritingGivesTheTape(json, blockSize, files[..n]);
      assert files[..n] + [files[n]] == files;
      MinimumIsBlockSize();
      AppendAdds(json, Max(blockSize, MIN_BLOCK_SIZE), files[..n], files[n]);
    }
  }

  lemma MinimumIsBlockSize()
    ensures IsBlockSize(MIN_BLOCK_SIZE)
  {
    SpanOfFour();
    assert Span(5) >= Span(4) && Span(6) >= Span(5) && Span(7) >= Span(6) && Span(8) >= Span(7);
  }

  lemma {:induction false} ContentsSplit(files: seq<File>, i: nat)
    requires i < |files|
    ensures |Contents(files[..i])| + |files[i].content| <= |Contents(files)|
    ensures Contents(files)[|Contents(files[..i])|..|Contents(files[..i])| + |files[i].content|] == files[i].content
    ensures Entries(files)[i] == Entry(files[i].name, |files[i].content|, INDEX_PARTITION_RESERVED + |Contents(files[..i])|, files[i].createdAt)
  {
    var n := |files| - 1;
    if i < n {
      ContentsSplit(files[..n], i);
      assert files[..n][..i] == files[..i];
      var start, size := |Contents(files[..i])|, |files[i].content|;
      assert Contents(files)[start..start + size] == Contents(files[..n])[start..start + size];
    }
  }

  lemma {:induction false} ContentsStep(files: seq<File>, i: nat)
    requires i < |files|
    ensures |Contents(files[..i + 1])| == |Contents(files[..i])| + |files[i].content|
  {
    assert files[..i + 1][..i] == files[..i];
  }

  /** The entries tile the data partition from its start to the end of the tape. */
  predicate TilesTape(index: Index, data: bytes) {
    && (index == [] ==> |data| == INDEX_PARTITION_RESERVED)
    && (index != [] ==> index[0].offset == INDEX_PARTITION_RESERVED)
    && (forall i :: 0 <= i < |index| ==>
          index[i].offset + index[i].size == if i + 1 < |index| then index[i + 1].offset else |data|)
  }

  lemma {:induction false} EntriesTile(json: Serializer, blockSize: nat, files: seq<File>)
    requires Fits(json, files)
    ensures TilesTape(Entries(files), TapeOf(json, blockSize, files))
  {
    var index, data := Entries(files), TapeOf(json, blockSize, files);
    ImageParts(blockSize, json.write(index), Contents(files));
    assert files[..|files|] == files;
    EmptyContents();
    forall i | 0 <= i < |index| ensures index[i].offset + index[i].size == if i + 1 < |index| then index[i + 1].offset else |data| {
      ContentsSplit(files, i);
      ContentsStep(files, i);
      if i + 1 < |index| {
        ContentsSplit(files, i + 1);
      }
    }
    if index != [] {
      ContentsSplit(files, 0);
      assert files[..0] == [];
      assert index[0].offset == INDEX_PARTITION_RESERVED;
    } else {
      assert files == [];
    }
  }

  lemma EmptyContents()
    ensures Contents([]) == []
  {
  }

  /** Every file's range reads as it was written, under a later file of the same name too. */
  lemma {:induction false} EveryFileReads(json: Serializer, blockSize: nat, files: seq<File>, i: nat)
    requires Fits(json, files) && i < |files|
    ensures Entries(files)[i].name == files[i].name
    ensures Extent(TapeOf(json, blockSize, files), Entries(files)[i]) == files[i].content
  {
    hide Entries, Contents;
    var data := TapeOf(json, blockSize, files);
    ImageParts(blockSize, json.write(Entries(files)), Contents(files));
    ContentsSplit(files, i);
    var start, size := |Contents(files[..i])|, |files[i].content|;
    PartitionSlice(data, Contents(files), start, start + size);
  }

  lemma PartitionSlice(data: bytes, payload: bytes, from: nat, to: nat)
    requires |data| == INDEX_PARTITION_RESERVED + |payload| && DataPartition(data) == payload && from <= to <= |payload|
    ensures data[INDEX_PARTITION_RESERVED + from..INDEX_PARTITION_RESERVED + to] == payload[from..to]
  {
    if payload != [] {
      assert data[INDEX_PARTITION_RESERVED..|data|] == payload;
      SliceOfSlice(data, INDEX_PARTITION_RESERVED, |data|, from, to);
    }
  }

  predicate IsFirst(files: seq<File>, name: string, i: nat)
    requires i < |files|
  {
    files[i].name == name && forall k :: 0 <= k < i ==> files[k].name != name
  }

  lemma {:induction false} FindsFirst(index: Index, name: string, i: nat)
    requires i < |index| && index[i].name == name && forall k :: 0 <= k < i ==> index[k].name != name
    ensures Find(index, name) == Some(index[i])
    decreases i
  {
    if i > 0 {
      FindsFirst(index[1..], name, i - 1);
    }
  }

  lemma {:induction false} NamesMatch(files: seq<File>)
    ensures forall i :: 0 <= i < |files| ==> Entries(files)[i].name == files[i].name
  {
    forall i | 0 <= i < |files| ensures Entries(files)[i].name == files[i].name {
      ContentsSplit(files, i);
    }
  }

  /** read_file gives the content of the first file appended with the name, and an error exactly when there is none. */
  lemma ReadsFirst(json: Serializer, blockSize: nat, files: seq<File>, name: string)
    requires Lawful(json) && IsBlockSize(blockSize) && Fits(json, files)
    ensures var r := ReadFile(json, TapeOf(json, blockSize, files), name);
            && (r == Err(NotOnTape) <==> forall i :: 0 <= i < |files| ==> files[i].name != name)
            && (r.Err? ==> r == Err(NotOnTape))
            && (forall i :: 0 <= i < |files| && IsFirst(files, name, i) ==> r == Ok(files[i].content))
  {
    hide Image, ParseIndex, Entries, Extent;
    ImageReads(json, blockSize, Entries(files), Contents(files));
    NamesMatch(files);
    forall i | 0 <= i < |files| && IsFirst(files, name, i)
      ensures ReadFile(json, TapeOf(json, blockSize, files), name) == Ok(files[i].content)
    {
      FindsFirst(Entries(files), name, i);
      EveryFileReads(json, blockSize, files, i);
    }
    forall i | 0 <= i < |files| && files[i].name == name ensures Find(Entries(files), name).Some? {
      assert Entries(files)[i] in Entries(files);
    }
    if Find(Entries(files), name).Some? {
      var e := Find(Entries(files), name).value;
      var i :| 0 <= i < |files| && Entries(files)[i] == e;
      assert files[i].name == name;
    }
  }

  /**
   * After any appends to a formatted tape whose index always fits: the entries tile the
   * data partition to the end of the tape, every file ever appended is unchanged in its
   * range, and reading a name gives the first file appended with it.
   */
  lemma {:induction false} AppendsReadBack(json: Serializer, blockSize: nat, files: seq<File>)
    requires Lawful(json) && IsBlockSize(blockSize) && AlwaysFits(json, files)
    ensures var w := Written(json, blockSize, files);
            && w.Ok? && ParseIndex(json, w.value) == Ok(Entries(files)) && TilesTape(Entries(files), w.value)
            && BlockSize(w.value) == Max(blockSize, MIN_BLOCK_SIZE)
            && (forall i :: 0 <= i < |files| ==> Extent(w.value, Entries(files)[i]) == files[i].content)
            && (forall i :: 0 <= i < |files| && IsFirst(files, files[i].name, i) ==> ReadFile(json, w.value, files[i].name) == Ok(files[i].content))
  {
    hide Written, ParseIndex, Entries, Image, Extent, ReadFile, TilesTape, BlockSize;
    var size := Max(blockSize, MIN_BLOCK_SIZE);
    WritingGivesTheTape(json, blockSize, files);
    MinimumIsBlockSize();
    assert files[..|files|] == files;
    ImageReads(json, size, Entries(files), Contents(files));
    EntriesTile(json, size, files);
    forall i | 0 <= i < |files| ensures Extent(TapeOf(json, size, files), Entries(files)[i]) == files[i].content {
      EveryFileReads(json, size, files, i);
    }
    forall i | 0 <= i < |files| && IsFirst(files, files[i].name, i)
      ensures ReadFile(json, TapeOf(json, size, files), files[i].name) == Ok(files[i].content)
    {
      ReadsFirst(json, size, files, files[i].name);
    }
  }

  // ---------------------------------------------------------------- which tapes have an index

  /** A header with an index in it, and anything behind. */
  ghost predicate Starts(json: Serializer, data: bytes, index: Index) {
    exists blockSize: nat, raw: bytes, rest: bytes ::
      IsBlockSize(blockSize) && |raw| < 0x1_0000_0000 && json.read(raw) == Some(index) && data == Head(blockSize, raw) + rest
  }

  lemma StartParses(json: Serializer, blockSize: nat, raw: bytes, rest: bytes, index: Index)
    requires |raw| < 0x1_0000_0000 && json.read(raw) == Some(index)
    ensures ParseIndex(json, Head(blockSize, raw) + rest) == Ok(index)
  {
    var head, data := Head(blockSize, raw), Head(blockSize, raw) + rest;
    HeadParts(blockSize, raw);
    SpanOfFour();
    FromToBytes(|raw|, 4);
    assert data[..9] == head[..9] && data[17..21] == head[17..21] && data[HEADER..HEADER + |raw|] == head[21..];
  }

  lemma HeadAssociates(a: bytes, b: bytes, c: bytes, d: bytes, e: bytes)
    ensures a + (b + (c + (d + e))) == a + b + c + d + e
  {
    ConcatAssoc(a, b, c + (d + e));
    ConcatAssoc(a + b, c, d + e);
    ConcatAssoc(a + b + c, d, e);
  }

  lemma ParsedStarts(json: Serializer, data: bytes, index: Index)
    requires ParseIndex(json, data) == Ok(index)
    ensures Starts(json, data, index)
  {
    var length := FromBytes(data[17..21]);
    var raw, rest := data[HEADER..HEADER + length], data[HEADER + length..];
    FromBytesBelow(data[9..17]);
    FromBytesBelow(data[17..21]);
    SpanOfFour();
    ToFromBytes(data[9..17]);
    ToFromBytes(data[17..21]);
    var blockSize := FromBytes(data[9..17]);
    TakeNext(data, 0, 9);
    TakeNext(data, 9, 17);
    TakeNext(data, 17, 21);
    TakeNext(data, 21, HEADER + length);
    HeadAssociates(data[0..9], data[9..17], data[17..21], raw, rest);
    assert data[0..9] == data[..9] && data[0..] == data;
    assert data == Head(blockSize, raw) + rest;
  }

  /** A tape parses to an index exactly when it starts with a header that holds a serialization of it. */
  lemma {:induction false} ParsesExactly(json: Serializer, data: bytes, index: Index)
    ensures ParseIndex(json, data) == Ok(index) <==> Starts(json, data, index)
  {
    hide Head, ParseIndex;
    if ParseIndex(json, data) == Ok(index) {
      ParsedStarts(json, data, index);
    }
    if blockSize: nat, raw: bytes, rest: bytes :|
      IsBlockSize(blockSize) && |raw| < 0x1_0000_0000 && json.read(raw) == Some(index) && data == Head(blockSize, raw) + rest
    {
      StartParses(json, blockSize, raw, rest, index);
    }
  }

  // ---------------------------------------------------------------- where the layout ends

  /** Flushing the index the tape has changes nothing. */
  lemma {:induction false} FlushingOwnIndex(json: Serializer, blockSize: nat, files: seq<File>)
    requires Lawful(json) && IsBlockSize(blockSize) && Fits(json, files)
    ensures WithIndex(json, TapeOf(json, blockSize, files), Entries(files)) == TapeOf(json, blockSize, files)
  {
    hide Image, ParseIndex, BlockSize, DataPartition;
    ImageReads(json, blockSize, Entries(files), Contents(files));
  }

  lemma {:induction false} EntriesPrefix(files: seq<File>, k: nat)
    requires k <= |files|
    ensures Entries(files[..k]) == Entries(files)[..k]
  {
    hide Entries, Contents;
    forall i | 0 <= i < k ensures Entries(files[..k])[i] == Entries(files)[i] {
      ContentsSplit(files, i);
      ContentsSplit(files[..k], i);
      assert files[..k][..i] == files[..i];
    }
  }

  /** The tape of some files after a flush of the index it had when only the first k were on it. */
  function Flushed(json: Serializer, blockSize: nat, files: seq<File>, k: nat): bytes
    requires k <= |files|
  {
    WithIndex(json, TapeOf(json, blockSize, files), Entries(files[..k]))
  }

  lemma {:induction false} FlushedIs(json: Serializer, blockSize: nat, files: seq<File>, k: nat)
    requires Lawful(json) && IsBlockSize(blockSize) && k <= |files| && Fits(json, files) && Fits(json, files[..k])
    ensures Flushed(json, blockSize, files, k) == Image(blockSize, json.write(Entries(files[..k])), Contents(files))
    ensures ParseIndex(json, Flushed(json, blockSize, files, k)) == Ok(Entries(files)[..k])
  {
    hide Image, ParseIndex, BlockSize, DataPartition, Entries;
    ImageReads(json, blockSize, Entries(files), Contents(files));
    ImageReads(json, blockSize, Entries(files[..k]), Contents(files));
    EntriesPrefix(files, k);
  }

  /** The ranges of the first k files still hold them. */
  lemma {:induction false} FlushedExtent(json: Serializer, blockSize: nat, files: seq<File>, k: nat, i: nat)
    requires Lawful(json) && IsBlockSize(blockSize) && i < k <= |files| && Fits(json, files) && Fits(json, files[..k])
    ensures Extent(Flushed(json, blockSize, files, k), Entries(files)[i]) == files[i].content
  {
    hide Entries, Contents, Image, Flushed;
    FlushedIs(json, blockSize, files, k);
    var data := Flushed(json, blockSize, files, k);
    ImageParts(blockSize, json.write(Entries(files[..k])), Contents(files));
    ContentsSplit(files, i);
    var start, size := |Contents(files[..i])|, |files[i].content|;
    PartitionSlice(data, Contents(files), start, start + size);
  }

  predicate HasName(files: seq<File>, k: nat, name: string)
    requires k <= |files|
  {
    exists i :: 0 <= i < k && files[i].name == name
  }

  /** After the flush a name reads as the first of the first k files with it, or not at all. */
  lemma {:induction false} FlushedReads(json: Serializer, blockSize: nat, files: seq<File>, k: nat, name: string)
    requires Lawful(json) && IsBlockSize(blockSize) && k <= |files| && Fits(json, files) && Fits(json, files[..k])
    ensures var r := ReadFile(json, Flushed(json, blockSize, files, k), name);
            && (!HasName(files, k, name) ==> r == Err(NotOnTape))
            && (forall i :: 0 <= i < k && IsFirst(files, name, i) ==> r == Ok(files[i].content))
  {
    hide Image, ParseIndex, Entries, Extent, Flushed;
    FlushedIs(json, blockSize, files, k);
    NamesMatch(files);
    var index := Entries(files)[..k];
    if !HasName(files, k, name) {
      assert forall i :: 0 <= i < k ==> index[i].name == files[i].name;
    }
    forall i | 0 <= i < k && IsFirst(files, name, i)
      ensures ReadFile(json, Flushed(json, blockSize, files, k), name) == Ok(files[i].content)
    {
      FindsFirst(index, name, i);
      FlushedExtent(json, blockSize, files, k, i);
    }
  }

  lemma {:induction false} FirstNamed(files: seq<File>, k: nat, name: string) returns (i: nat)
    requires k <= |files| && HasName(files, k, name)
    ensures i < k && IsFirst(files, name, i)
    decreases k
  {
    if HasName(files, k - 1, name) {
      i := FirstNamed(files, k - 1, name);
    } else {
      i := k - 1;
    }
  }

  /** Every name reads after the flush as it did before it. */
  ghost predicate FlushKeeps(json: Serializer, blockSize: nat, files: seq<File>, k: nat)
    requires k <= |files|
  {
    forall name :: ReadFile(json, Flushed(json, blockSize, files, k), name) == ReadFile(json, TapeOf(json, blockSize, files), name)
  }

  lemma {:induction false} FlushOfName(json: Serializer, blockSize: nat, files: seq<File>, k: nat, name: string)
    requires Lawful(json) && IsBlockSize(blockSize) && k <= |files| && Fits(json, files) && Fits(json, files[..k])
    ensures ReadFile(json, Flushed(json, blockSize, files, k), name) == ReadFile(json, TapeOf(json, blockSize, files), name)
            <==> (HasName(files, |files|, name) ==> HasName(files, k, name))
  {
    hide ReadFile, Flushed, TapeOf, Fits;
    FlushedReads(json, blockSize, files, k, name);
    ReadsFirst(json, blockSize, files, name);
    if HasName(files, k, name) {
      var i := FirstNamed(files, k, name);
    } else if HasName(files, |files|, name) {
      var i := FirstNamed(files, |files|, name);
    }
  }

  /**
   * Flushing an index that is some appends old keeps every file readable exactly when each
   * file appended since has the name of an older one.
   */
  lemma {:induction false} FlushKeepsExactly(json: Serializer, blockSize: nat, files: seq<File>, k: nat)
    requires Lawful(json) && IsBlockSize(blockSize) && k <= |files| && Fits(json, files) && Fits(json, files[..k])
    ensures FlushKeeps(json, blockSize, files, k) <==> forall i :: k <= i < |files| ==> HasName(files, k, files[i].name)
  {
    hide ReadFile, Flushed, TapeOf, Fits, Lawful;
    forall name
      ensures ReadFile(json, Flushed(json, blockSize, files, k), name) == ReadFile(json, TapeOf(json, blockSize, files), name)
              <==> (HasName(files, |files|, name) ==> HasName(files, k, name))
    {
      FlushOfName(json, blockSize, files, k, name);
    }
    forall i | k <= i < |files|
      ensures HasName(files, |files|, files[i].name)
    {
    }
  }

  /** Flushing an index read before an append loses the entry of an appended file with a new name. */
  lemma {:induction false} StaleFlushForgets(json: Serializer, blockSize: nat, files: seq<File>, f: File)
    requires Lawful(json) && IsBlockSize(blockSize) && Fits(json, files) && Fits(json, files + [f])
    requires forall i :: 0 <= i < |files| ==> files[i].name != f.name
    ensures ReadFile(json, WithIndex(json, TapeOf(json, blockSize, files + [f]), Entries(files)), f.name) == Err(NotOnTape)
  {
    assert (files + [f])[..|files|] == files;
    FlushedReads(json, blockSize, files + [f], |files|, f.name);
  }

  /** An index that outgrows its region by more than the data partition makes the tape unreadable. */
  lemma OversizedIndexIsLost(json: Serializer, blockSize: nat, index: bytes, payload: bytes)
    requires HEADER + |index| > INDEX_PARTITION_RESERVED + |payload| && |index| < 0x1_0000_0000
    ensures ParseIndex(json, Image(blockSize, index, payload)) == Err(IndexExceedsTape)
  {
    var head, data := Head(blockSize, index), Image(blockSize, index, payload);
    HeadParts(blockSize, index);
    SpanOfFour();
    FromToBytes(|index|, 4);
    assert data[..9] == head[..9] && data[17..21] == head[17..21];
  }

  /** A written index reads back before every data partition exactly when it fits its region. */
  lemma {:induction false} FitsExactly(json: Serializer, blockSize: nat, index: Index)
    requires Lawful(json) && IsBlockSize(blockSize) && |json.write(index)| < 0x1_0000_0000
    ensures (forall payload: bytes :: ParseIndex(json, Image(blockSize, json.write(index), payload)) == Ok(index))
            <==> HEADER + |json.write(index)| <= INDEX_PARTITION_RESERVED
  {
    hide Image, ParseIndex;
    if HEADER + |json.write(index)| <= INDEX_PARTITION_RESERVED {
      forall payload: bytes
        ensures ParseIndex(json, Image(blockSize, json.write(index), payload)) == Ok(index)
      {
        ImageReads(json, blockSize, index, payload);
      }
    } else {
      OversizedIndexIsLost(json, blockSize, json.write(index), []);
    }
  }

  // ---------------------------------------------------------------- the device

  /** The tape file behind a device; None when there is no such file. */
  class LtfsDevice {
    var tape: Option<bytes>

    constructor ()
      ensures tape == None
    {
      tape := None;
    }

    /** Header and empty index, filled up to the reserved region. */
    method Format(json: Serializer, blockSize: nat)
      modifies this
      ensures tape == Some(Formatted(json, blockSize))
    {
      var index := json.write([]);
      var data := BuildHeader(Max(blockSize, MIN_BLOCK_SIZE), index);
      tape := Some(Resized(data, Max(|data|, INDEX_PARTITION_RESERVED)));
    }

    static method BuildHeader(blockSize: nat, index: bytes) returns (data: bytes)
      ensures data == Head(blockSize, index)
    {
      data := LTFS_MAGIC;
      data := data + ToBytes(blockSize, 8);
      data := data + ToBytes(|index|, 4);
      data := data + index;
    }

    method ReadIndex(json: Serializer) returns (r: Result<Index, TapeError>)
      ensures r == if tape.None? then Err(NoTape) else ParseIndex(json, tape.value)
    {
      if tape.None? {
        return Err(NoTape);
      }
      var data := tape.value;
      if |data| < HEADER {
        return Err(ShortHeader);
      }
      if data[..|LTFS_MAGIC|] != LTFS_MAGIC {
        return Err(BadMagic);
      }
      var idx := |LTFS_MAGIC|;
      var length := FromBytes(data[idx + 8..idx + 12]);
      if idx + 12 + length > |data| {
        return Err(IndexExceedsTape);
      }
      var index := json.read(data[idx + 12..idx + 12 + length]);
      if index.None? {
        return Err(BadIndex);
      }
      return Ok(index.value);
    }

    /** The header is rebuilt with the index given; the data partition is kept. */
    method WriteIndex(json: Serializer, index: Index) returns (r: Result<(), TapeError>)
      modifies this
      ensures old(tape).None? ==> r == Err(NoTape) && tape == None
      ensures old(tape).Some? ==> r == Ok(()) && tape == Some(WithIndex(json, old(tape).value, index))
    {
      if tape.None? {
        return Err(NoTape);
      }
      var data := tape.value;
      var blockSize := if |data| >= 17 then FromBytes(data[9..17]) else MIN_BLOCK_SIZE;
      var out := BuildHeader(blockSize, json.write(index));
      out := Resized(out, INDEX_PARTITION_RESERVED);
      if |data| > INDEX_PARTITION_RESERVED {
        out := out + data[INDEX_PARTITION_RESERVED..];
      } else {
        assert out == out + [];
      }
      tape := Some(out);
      return Ok(());
    }

    static method LastEnd(index: Index) returns (end: nat)
      ensures end == DataEnd(index)
    {
      end := INDEX_PARTITION_RESERVED;
      var i := 0;
      while i < |index|
        invariant 0 <= i <= |index| && end == DataEnd(index[..i])
      {
        assert index[..i + 1][..i] == index[..i];
        end := Max(end, index[i].offset + index[i].size);
        i := i + 1;
      }
      assert index[..i] == index;
    }

    /** The new file goes to the end of the tape; its entry to the end of the index. */
    method AppendFile(json: Serializer, name: string, content: bytes, now: int) returns (r: Result<Entry, TapeError>)
      modifies this
      ensures old(tape).None? ==> r == Err(NoTape) && tape == None
      ensures old(tape).Some? ==>
                match Append(json, old(tape).value, name, content, now)
                case Err(e) => r == Err(e) && tape == old(tape)
                case Ok(after) => r == Ok(after.1) && tape == Some(after.0)
    {
      var parsed := ReadIndex(json);
      if parsed.Err? {
        return Err(parsed.error);
      }
      var end := LastEnd(parsed.value);
      var entry := Entry(name, |content|, end, now);
      var _ := WriteIndex(json, parsed.value + [entry]);
      tape := Some(tape.value + content);
      return Ok(entry);
    }

    /** The first entry with the name; the range is cut off at the end of the tape. */
    method Read(json: Serializer, name: string) returns (r: Result<bytes, TapeError>)
      ensures r == if tape.None? then Err(NoTape) else ReadFile(json, tape.value, name)
    {
      var parsed := ReadIndex(json);
      if parsed.Err? {
        return Err(parsed.error);
      }
      var index, data := parsed.value, tape.value;
      var i := 0;
      assert index[0..] == index;
      while i < |index|
        invariant 0 <= i <= |index| && Find(index[i..], name) == Find(index, name)
      {
        assert index[i..][0] == index[i] && index[i..][1..] == index[i + 1..];
        if index[i].name == name {
          var start := Min(index[i].offset, |data|);
          var end := Min(index[i].offset + index[i].size, |data|);
          return Ok(data[start..end]);
        }
        i := i + 1;
      }
      return Err(NotOnTape);
    }
  }
}
