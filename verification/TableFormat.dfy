/** Table files: block handles, checksummed blocks, the footer, and what a whole table
    file holds. */
module TableFormat {
  import opened InternalKeys
  import opened Crc32c
  import opened Bytes
  import opened Coding
  import opened Blocks
  import opened Filters
  import K = TableKeys

  // ---------------------------------------------------------------- block handles

  datatype BlockHandle = BlockHandle(offset: nat, size: nat)

  const MAX_ENCODED_LENGTH := 20
  const FOOTER_LENGTH := 48
  const MAGIC_NUMBER: nat := 0xdb4775248b80fb57
  const BLOCK_TRAILER_SIZE := 5
  const NO_COMPRESSION: byte := 0

  /** The fields are 64 bits wide. */
  function EncodeHandle(h: BlockHandle): Data {
    Varint(h.offset % TWO_64) + Varint(h.size % TWO_64)
  }

  function DecodeHandle(input: Data): Option<Parsed<BlockHandle>> {
    var offset := GetVarint64(input);
    if offset.None? then None else
    var size := GetVarint64(offset.value.rest);
    if size.None? then None else
    Some(Parsed(BlockHandle(offset.value.value, size.value.value), size.value.rest))
  }

  lemma HandleInverse(h: BlockHandle, rest: Data)
    requires h.offset < TWO_64 && h.size < TWO_64
    ensures DecodeHandle(EncodeHandle(h) + rest) == Some(Parsed(h, rest))
  {
    hide Varint, ParseVarint;
    assert EncodeHandle(h) + rest == Varint(h.offset) + (Varint(h.size) + rest);
    Varint64Inverse(h.offset, Varint(h.size) + rest);
    Varint64Inverse(h.size, rest);
  }

  lemma WholeHandle(h: BlockHandle)
    requires h.offset < TWO_64 && h.size < TWO_64
    ensures DecodeHandle(EncodeHandle(h)) == Some(Parsed(h, []))
  {
    hide EncodeHandle, DecodeHandle;
    HandleInverse(h, []);
    assert EncodeHandle(h) + [] == EncodeHandle(h);
  }

  lemma {:induction false} VarintAtMost(v: nat, n: nat)
    requires n > 0 && v < Weight(n)
    ensures |Varint(v)| <= n
    decreases n
  {
    if v >= 128 {
      Digits(v, n, 0);
      VarintAtMost(v / 128, n - 1);
    }
  }

  lemma HandleLength(h: BlockHandle)
    ensures |EncodeHandle(h)| <= MAX_ENCODED_LENGTH
  {
    hide Varint, Weight;
    Weights();
    VarintAtMost(h.offset % TWO_64, 10);
    VarintAtMost(h.size % TWO_64, 10);
  }

  // ---------------------------------------------------------------- the footer

  /** Two handles, padded to a fixed length, and the magic number. */
  function EncodeFooter(metaindex: BlockHandle, index: BlockHandle): (r: Data)
    ensures |r| == FOOTER_LENGTH
  {
    var handles := EncodeHandle(metaindex) + EncodeHandle(index);
    Resized(handles, 2 * MAX_ENCODED_LENGTH)
    + Fixed(MAGIC_NUMBER % TWO_32, 4) + Fixed(MAGIC_NUMBER / TWO_32, 4)
  }

  function Resized(s: Data, n: nat): (r: Data)
    ensures |r| == n
  {
    if |s| >= n then s[..n] else s + seq(n - |s|, _ => 0)
  }

  /** The handles, if the magic number is there. */
  function DecodeFooter(input: Data): Option<(BlockHandle, BlockHandle)>
    requires |input| == FOOTER_LENGTH
  {
    var magic := FixedValue(input[FOOTER_LENGTH - 4..]) * TWO_32
                 + FixedValue(input[FOOTER_LENGTH - 8..FOOTER_LENGTH - 4]);
    if magic != MAGIC_NUMBER then None else
    var metaindex := DecodeHandle(input);
    if metaindex.None? then None else
    var index := DecodeHandle(metaindex.value.rest);
    if index.None? then None else Some((metaindex.value.value, index.value.value))
  }

  lemma FooterInverse(metaindex: BlockHandle, index: BlockHandle)
    requires metaindex.offset < TWO_64 && metaindex.size < TWO_64 && index.offset < TWO_64 && index.size < TWO_64
    ensures DecodeFooter(EncodeFooter(metaindex, index)) == Some((metaindex, index))
  {
    hide EncodeHandle, DecodeHandle, Fixed, FixedValue;
    HandleLength(metaindex);
    HandleLength(index);
    var footer := EncodeFooter(metaindex, index);
    var handles := EncodeHandle(metaindex) + EncodeHandle(index);
    var padding := footer[|handles|..];
    assert footer == EncodeHandle(metaindex) + (EncodeHandle(index) + padding);
    HandleInverse(metaindex, EncodeHandle(index) + padding);
    HandleInverse(index, padding);
    Powers();
    FixedInverse(MAGIC_NUMBER % TWO_32, 4);
    FixedInverse(MAGIC_NUMBER / TWO_32, 4);
    assert footer[FOOTER_LENGTH - 4..] == Fixed(MAGIC_NUMBER / TWO_32, 4);
    assert footer[FOOTER_LENGTH - 8..FOOTER_LENGTH - 4] == Fixed(MAGIC_NUMBER % TWO_32, 4);
  }

  // ---------------------------------------------------------------- checksummed blocks

  /** What follows a block: its type and the masked checksum of both. */
  function Trailer(contents: Data): (r: Data)
    ensures |r| == BLOCK_TRAILER_SIZE
  {
    [NO_COMPRESSION] + EncodeFixed32(Mask(Crc(contents + [NO_COMPRESSION])))
  }

  ghost predicate OnDisk(file: Data, offset: nat, contents: Data) {
    && offset + |contents| + BLOCK_TRAILER_SIZE <= |file|
    && file[offset..offset + |contents|] == contents
    && file[offset + |contents|..offset + |contents| + BLOCK_TRAILER_SIZE] == Trailer(contents)
  }

  lemma StaysOnDisk(file: Data, offset: nat, contents: Data, after: Data)
    requires OnDisk(file, offset, contents) && file <= after
    ensures OnDisk(after, offset, contents)
  {
    hide Trailer;
    var n := offset + |contents|;
    assert after[offset..n] == file[offset..n];
    assert after[n..n + BLOCK_TRAILER_SIZE] == file[n..n + BLOCK_TRAILER_SIZE];
  }

  lemma AppendedOnDisk(file: Data, contents: Data)
    ensures OnDisk(file + contents + Trailer(contents), |file|, contents)
  {
    hide Trailer;
  }

  /** At most `n` bytes from `offset` on; fewer at the end of the file. */
  function FileRead(file: Data, offset: nat, n: nat): Data {
    if offset > |file| then [] else if offset + n > |file| then file[offset..] else file[offset..offset + n]
  }

  /** The block at a handle, if it is there, its checksum holds (when that is asked for)
      and it is not compressed. The length to read is 64 bits wide: for a size within five
      of the top it wraps, and then the code goes on behind what it read. */
  method ReadBlock(file: Data, verifyChecksums: bool, handle: BlockHandle) returns (r: Option<Data>, overran: bool)
    ensures overran <==> handle.size + BLOCK_TRAILER_SIZE >= TWO_64 && FilePart(file, handle).Some?
    ensures r.Some? ==> handle.offset + handle.size + BLOCK_TRAILER_SIZE <= |file|
                        && r.value == file[handle.offset..handle.offset + handle.size]
    ensures r.Some? && verifyChecksums ==> OnDisk(file, handle.offset, r.value)
    ensures handle.size + BLOCK_TRAILER_SIZE < TWO_64 ==>
      forall contents :: OnDisk(file, handle.offset, contents) && |contents| == handle.size ==> r == Some(contents)
  {
    hide Crc, Unmask, DecodeFixed32, Trailer;
    var n := handle.size;
    r, overran := None, false;
    var part := FilePart(file, handle);
    if part.None? {
      return;
    }
    if n + BLOCK_TRAILER_SIZE >= TWO_64 {
      overran := true;
      return;
    }
    var contents := part.value;
    forall c | OnDisk(file, handle.offset, c) && |c| == n
      ensures |contents| == n + BLOCK_TRAILER_SIZE && contents[..n] == c && contents[n] == NO_COMPRESSION
      ensures Unmask(DecodeFixed32(contents[n + 1..])) == Crc(contents[..n + 1])
    {
      GoodTrailer(contents, c, file, handle.offset);
    }
    if verifyChecksums {
      if Crc(contents[..n + 1]) != Unmask(DecodeFixed32(contents[n + 1..])) {
        return;
      }
    }
    if contents[n] != NO_COMPRESSION {
      return;
    }
    if verifyChecksums {
      TrailerHolds(contents, file, handle.offset);
    }
    r := Some(contents[..n]);
  }

  /** The bytes read for a block, if there are as many as asked for. */
  function FilePart(file: Data, handle: BlockHandle): (r: Option<Data>)
    ensures r.Some? && handle.size + BLOCK_TRAILER_SIZE < TWO_64 ==>
      && handle.offset + handle.size + BLOCK_TRAILER_SIZE <= |file|
      && r.value == file[handle.offset..handle.offset + handle.size + BLOCK_TRAILER_SIZE]
  {
    var n := (handle.size + BLOCK_TRAILER_SIZE) % TWO_64;
    var contents := FileRead(file, handle.offset, n);
    if |contents| == n then Some(contents) else None
  }

  /** A checksum that holds is the one written for these bytes. */
  lemma TrailerHolds(read: Data, file: Data, offset: nat)
    requires |read| >= BLOCK_TRAILER_SIZE && offset + |read| <= |file| && read == file[offset..offset + |read|]
    requires read[|read| - BLOCK_TRAILER_SIZE] == NO_COMPRESSION
    requires Crc(read[..|read| - 4]) == Unmask(DecodeFixed32(read[|read| - 4..]))
    ensures OnDisk(file, offset, read[..|read| - BLOCK_TRAILER_SIZE])
  {
    hide Crc, Mask, Unmask, EncodeFixed32, DecodeFixed32, Load32;
    var n := |read| - BLOCK_TRAILER_SIZE;
    assert file[offset..offset + n] == read[..n];
    assert file[offset + n..offset + |read|] == read[n..] == [read[n]] + read[n + 1..];
    assert read[..n + 1] == read[..n] + [NO_COMPRESSION];
    MaskInverse(DecodeFixed32(read[n + 1..]));
    Fixed32Bytes(read[n + 1..]);
  }

  lemma GoodTrailer(read: Data, c: Data, file: Data, offset: nat)
    requires OnDisk(file, offset, c) && read == FileRead(file, offset, |c| + BLOCK_TRAILER_SIZE)
    ensures |read| == |c| + BLOCK_TRAILER_SIZE && read[..|c|] == c && read[|c|] == NO_COMPRESSION
    ensures Unmask(DecodeFixed32(read[|c| + 1..])) == Crc(read[..|c| + 1])
  {
    hide Crc, Mask, Unmask, EncodeFixed32, Load32;
    var n := |c|;
    assert read[n..] == file[offset + n..offset + n + BLOCK_TRAILER_SIZE];
    assert read[..n] == c;
    var crc := Crc(c + [NO_COMPRESSION]);
    assert read[n] == read[n..][0];
    assert read[n + 1..] == read[n..][1..] == EncodeFixed32(Mask(crc));
    assert read[..n + 1] == c + [NO_COMPRESSION];
    Fixed32Inverse(Mask(crc));
    MaskInverse(crc);
  }

  // ---------------------------------------------------------------- the blocks of a table

  /** A block of entries and where it is in the file. */
  datatype Section = Section(offset: nat, starts: seq<nat>, entries: seq<Pair>)

  ghost predicate SectionOk(s: Section) {
    && RestartsOk(s.starts, |s.entries|) && Fits(s.entries)
    && forall i :: 0 <= i < |s.starts| ==> s.starts[i] <= |s.entries|
  }

  ghost function Raw(s: Section): Data
    requires SectionOk(s)
  {
    BlockBytes(s.starts, s.entries)
  }

  ghost predicate Stored(file: Data, s: Section) {
    SectionOk(s) && OnDisk(file, s.offset, Raw(s))
  }

  ghost function HandleOf(s: Section): BlockHandle
    requires SectionOk(s)
  {
    BlockHandle(s.offset, |Raw(s)|)
  }

  /** All entries of some blocks, in order. */
  ghost function Flat(sections: seq<Section>): seq<Pair> {
    if sections == [] then [] else Flat(sections[..|sections| - 1]) + sections[|sections| - 1].entries
  }

  lemma FlatSnoc(sections: seq<Section>, s: Section)
    ensures Flat(sections + [s]) == Flat(sections) + s.entries
  {
    assert (sections + [s])[..|sections|] == sections;
  }

  lemma FlatTake(sections: seq<Section>, i: nat)
    requires i < |sections|
    ensures Flat(sections[..i + 1]) == Flat(sections[..i]) + sections[i].entries
  {
    FlatSnoc(sections[..i], sections[i]);
    assert sections[..i + 1] == sections[..i] + [sections[i]];
  }

  lemma {:induction false} FlatSplit(sections: seq<Section>, i: nat)
    requires i <= |sections|
    ensures Flat(sections[..i]) <= Flat(sections)
    decreases |sections| - i
  {
    if i == |sections| {
      assert sections[..i] == sections;
    } else {
      FlatTake(sections, i);
      FlatSplit(sections, i + 1);
    }
  }

  /** Entry `d` of block `i`, in the table's numbering. */
  lemma FlatAt(sections: seq<Section>, i: nat, d: nat)
    requires i < |sections| && d < |sections[i].entries|
    ensures |Flat(sections[..i])| + d < |Flat(sections)|
    ensures Flat(sections)[|Flat(sections[..i])| + d] == sections[i].entries[d]
  {
    FlatTake(sections, i);
    FlatSplit(sections, i + 1);
  }

  /** Every entry is in some block. */
  lemma {:induction false} FlatFind(sections: seq<Section>, n: nat) returns (i: nat, d: nat)
    requires n < |Flat(sections)|
    ensures i < |sections| && d < |sections[i].entries|
    ensures n == |Flat(sections[..i])| + d && Flat(sections)[n] == sections[i].entries[d]
  {
    var k := |sections| - 1;
    if n >= |Flat(sections[..k])| {
      i, d := k, n - |Flat(sections[..k])|;
    } else {
      i, d := FlatFind(sections[..k], n);
      assert sections[..k][..i] == sections[..i];
    }
  }

  lemma PositionsOrdered(sections: seq<Section>, i: nat, j: nat)
    requires i <= j <= |sections|
    ensures |Flat(sections[..i])| <= |Flat(sections[..j])|
  {
    assert sections[..j][..i] == sections[..i];
    FlatSplit(sections[..j], i);
  }

  // ---------------------------------------------------------------- the index

  /** Keys in strictly increasing order. */
  ghost predicate Increasing(entries: seq<Pair>) {
    && (forall i :: 0 <= i < |entries| ==> K.IsInternalKey(entries[i].key))
    && forall i, j :: 0 <= i < j < |entries| ==> K.Less(entries[i].key, entries[j].key)
  }

  /** Index keys: at or after everything in their block, before everything in later
      blocks. */
  ghost predicate IndexOrders(keys: seq<Pair>, sections: seq<Section>) {
    && |keys| == |sections| && (forall i :: 0 <= i < |keys| ==> K.IsInternalKey(keys[i].key))
    && (forall i, e :: 0 <= i < |keys| && e in sections[i].entries ==> !K.Less(keys[i].key, e.key))
    && (forall i, j :: 0 <= i < j < |keys| ==> K.Less(keys[i].key, keys[j].key))
    && forall i, j, e :: 0 <= i < j < |keys| && e in sections[j].entries ==> K.Less(keys[i].key, e.key)
  }

  /** The index key of block `s` is its last key, or its user key is below that of `e`. */
  ghost predicate LastOrBelow(key: Data, s: Section, e: Pair) {
    && K.IsInternalKey(key) && K.IsInternalKey(e.key)
    && ((s.entries != [] && s.entries[|s.entries| - 1].key == key)
        || K.BytesLess(K.ExtractUserKey(key), K.ExtractUserKey(e.key)))
  }

  ghost predicate IndexShort(keys: seq<Pair>, sections: seq<Section>) {
    && |keys| == |sections|
    && forall i, j, e :: 0 <= i < j < |keys| && e in sections[j].entries ==> LastOrBelow(keys[i].key, sections[i], e)
  }

  /** The index points to the blocks. */
  ghost predicate IndexPoints(keys: seq<Pair>, sections: seq<Section>) {
    && |keys| == |sections|
    && forall i :: 0 <= i < |keys| ==> SectionOk(sections[i]) && keys[i].value == EncodeHandle(HandleOf(sections[i]))
  }

  // ---------------------------------------------------------------- filters

  /** The finished filter block for these lists of hashes. */
  ghost predicate IsFilterBlock(block: Data, covered: seq<seq<nat>>) {
    && |block| >= 5
    && var last := FixedValue(block[|block| - 5..|block| - 1]);
       && last <= |block| - 5
       && Covers(FilterReader(block, last, (|block| - 5 - last) / 4, block[|block| - 1] as nat), covered)
  }

  /** The key is covered at the block's offset. */
  ghost predicate KeyCovered(hash: Data -> nat, s: Section, e: Pair, covered: seq<seq<nat>>) {
    && K.IsInternalKey(e.key) && s.offset / FILTER_BASE < |covered|
    && hash(K.ExtractUserKey(e.key)) in covered[s.offset / FILTER_BASE]
  }

  ghost predicate BlocksCovered(hash: Data -> nat, sections: seq<Section>, covered: seq<seq<nat>>) {
    forall i, e :: 0 <= i < |sections| && e in sections[i].entries ==> KeyCovered(hash, sections[i], e, covered)
  }

  // ---------------------------------------------------------------- the file

  datatype FilterPart = FilterPart(offset: nat, block: Data, covered: seq<seq<nat>>)

  datatype Built = Built(sections: seq<Section>, index: Section, meta: Section, filter: Option<FilterPart>)

  function FilterKey(name: Data): Data {
    [102, 105, 108, 116, 101, 114, 46] + name      // "filter."
  }

  /** The metaindex names the filter block. */
  ghost predicate MetaOk(file: Data, name: Data, hash: Data -> nat, t: Built) {
    match t.filter
    case None => t.meta.entries == []
    case Some(f) =>
      && t.meta.entries == [Pair(FilterKey(name), EncodeHandle(BlockHandle(f.offset, |f.block|)))]
      && OnDisk(file, f.offset, f.block)
      && (|f.block| < TWO_32 ==> IsFilterBlock(f.block, f.covered))
      && BlocksCovered(hash, t.sections, f.covered)
  }

  /** One after the other. */
  ghost predicate BlocksStored(file: Data, sections: seq<Section>) {
    && (forall i :: 0 <= i < |sections| ==> Stored(file, sections[i]))
    && forall i, j :: 0 <= i < j < |sections| ==> sections[i].offset < sections[j].offset
  }

  ghost predicate IsTable(file: Data, name: Data, hash: Data -> nat, t: Built) {
    && BlocksStored(file, t.sections) && Stored(file, t.index) && Stored(file, t.meta)
    && IndexOrders(t.index.entries, t.sections) && IndexShort(t.index.entries, t.sections)
    && IndexPoints(t.index.entries, t.sections)
    && MetaOk(file, name, hash, t)
    && |file| >= FOOTER_LENGTH
    && file[|file| - FOOTER_LENGTH..] == EncodeFooter(HandleOf(t.meta), HandleOf(t.index))
  }

  /** Sizes that the format can express: 32 bits inside a block, 64 for the file. */
  ghost predicate Small(file: Data, t: Built) {
    && |file| < TWO_64
    && (forall s :: s in t.sections + [t.index, t.meta] ==> SectionOk(s) && |Raw(s)| < TWO_32)
    && (t.filter.Some? ==> |t.filter.value.block| < TWO_32)
  }
}
