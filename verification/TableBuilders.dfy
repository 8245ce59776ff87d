/** Writing a table: data blocks of bounded size, an index of shortened separators, and
    a filter. */
module TableBuilders {
  import opened InternalKeys
  import opened Crc32c
  import opened Bytes
  import opened Coding
  import opened Blocks
  import opened Filters
  import opened TableFormat
  import K = TableKeys

  // ---------------------------------------------------------------- what has been written

  /** The key separates the last entry of block `i` from the first one after it. */
  ghost predicate SeparatorOf(entries: seq<Pair>, sections: seq<Section>, i: nat, key: Data)
    requires i < |sections|
  {
    var n := |Flat(sections[..i + 1])|;
    && 0 < n < |entries|
    && K.IsInternalKey(entries[n - 1].key) && K.IsInternalKey(entries[n].key)
    && K.Separates(entries[n - 1].key, entries[n].key, key)
  }

  /** An index entry that is done. */
  ghost predicate Indexed(entries: seq<Pair>, sections: seq<Section>, i: nat, p: Pair) {
    && i < |sections| && SectionOk(sections[i])
    && SeparatorOf(entries, sections, i, p.key) && p.value == EncodeHandle(HandleOf(sections[i]))
  }

  /** The blocks, the block in progress and the index so far belong to these entries.
      While an index entry is pending, nothing has been added after the last block. */
  ghost predicate Chained(entries: seq<Pair>, sections: seq<Section>, data: seq<Pair>, index: seq<Pair>, pending: bool) {
    && entries == Flat(sections) + data && Increasing(entries)
    && (forall s :: s in sections ==> SectionOk(s) && s.entries != [])
    && |index| + (if pending then 1 else 0) == |sections|
    && (pending ==> data == []) && (!pending && sections != [] ==> data != [])
    && forall i :: 0 <= i < |index| ==> Indexed(entries, sections, i, index[i])
  }

  lemma IndexedStays(entries: seq<Pair>, sections: seq<Section>, i: nat, p: Pair, more: seq<Pair>, after: seq<Section>)
    requires Indexed(entries, sections, i, p) && entries <= more && sections <= after
    ensures Indexed(more, after, i, p)
  {
    hide SectionOk, K.Separates, EncodeHandle;
    assert sections[..i + 1] == after[..i + 1];
  }

  lemma StillIncreasing(entries: seq<Pair>, p: Pair)
    requires Increasing(entries) && K.IsInternalKey(p.key)
    requires entries != [] ==> K.Less(entries[|entries| - 1].key, p.key)
    ensures Increasing(entries + [p])
  {
    hide K.Less, K.IsInternalKey;
    var more := entries + [p];
    forall i, j | 0 <= i < j < |more|
      ensures K.Less(more[i].key, more[j].key)
    {
      if j == |entries| && i < |entries| - 1 {
        K.LessTransitive(entries[i].key, entries[|entries| - 1].key, p.key);
      }
    }
  }

  /** The first entry of a block settles the index entry of the block before. */
  lemma {:induction false} FirstEntry(entries: seq<Pair>, sections: seq<Section>, index: seq<Pair>, p: Pair, separator: Data)
    requires Chained(entries, sections, [], index, true) && K.IsInternalKey(p.key)
    requires entries != [] && K.Less(entries[|entries| - 1].key, p.key)
    requires K.Separates(entries[|entries| - 1].key, p.key, separator)
    ensures
      var handle := HandleOf(sections[|sections| - 1]);
      Chained(entries + [p], sections, [p], index + [Pair(separator, EncodeHandle(handle))], false)
  {
    hide K.Separates, EncodeHandle, SectionOk, Increasing, Indexed;
    StillIncreasing(entries, p);
    var k := |sections| - 1;
    var added := Pair(separator, EncodeHandle(HandleOf(sections[k])));
    assert Flat(sections) == entries;
    SeparatorIndexed(entries, sections, p, added);
    forall i | 0 <= i < |index|
      ensures Indexed(entries + [p], sections, i, index[i])
    {
      IndexedStays(entries, sections, i, index[i], entries + [p], sections);
    }
  }

  lemma {:induction false} SeparatorIndexed(entries: seq<Pair>, sections: seq<Section>, p: Pair, added: Pair)
    requires sections != [] && SectionOk(sections[|sections| - 1]) && entries != [] && Flat(sections) == entries
    requires K.IsInternalKey(p.key) && K.IsInternalKey(entries[|entries| - 1].key)
    requires K.Separates(entries[|entries| - 1].key, p.key, added.key)
    requires added.value == EncodeHandle(HandleOf(sections[|sections| - 1]))
    ensures Indexed(entries + [p], sections, |sections| - 1, added)
  {
    hide K.Separates, EncodeHandle;
    var k := |sections| - 1;
    assert sections[..k + 1] == sections;
  }

  lemma NextEntry(entries: seq<Pair>, sections: seq<Section>, data: seq<Pair>, index: seq<Pair>, p: Pair)
    requires Chained(entries, sections, data, index, false) && K.IsInternalKey(p.key)
    requires entries != [] ==> K.Less(entries[|entries| - 1].key, p.key)
    ensures Chained(entries + [p], sections, data + [p], index, false)
  {
    hide Indexed, SectionOk, Increasing;
    StillIncreasing(entries, p);
    assert entries + [p] == Flat(sections) + (data + [p]);
    forall i | 0 <= i < |index|
      ensures Indexed(entries + [p], sections, i, index[i])
    {
      IndexedStays(entries, sections, i, index[i], entries + [p], sections);
    }
  }

  lemma BlockDone(entries: seq<Pair>, sections: seq<Section>, data: seq<Pair>, index: seq<Pair>, s: Section)
    requires Chained(entries, sections, data, index, false) && data != []
    requires SectionOk(s) && s.entries == data
    ensures Chained(entries, sections + [s], [], index, true)
  {
    hide Indexed, SectionOk, Increasing;
    FlatSnoc(sections, s);
    assert Flat(sections + [s]) + [] == entries;
    forall i | 0 <= i < |index|
      ensures Indexed(entries, sections + [s], i, index[i])
    {
      IndexedStays(entries, sections, i, index[i], entries, sections + [s]);
    }
  }

  // ---------------------------------------------------------------- the filter so far

  /** The hash is in the filter for its offset, or among those not yet in a filter. */
  ghost predicate InFilter(h: nat, at: nat, covered: seq<seq<nat>>, pending: seq<nat>) {
    if at < |covered| then h in covered[at] else at == |covered| && h in pending
  }

  ghost predicate FilterFollows(hash: Data -> nat, sections: seq<Section>, data: seq<Pair>, offset: nat,
                                covered: seq<seq<nat>>, pending: seq<nat>) {
    && |covered| == offset / FILTER_BASE
    && (forall s, e :: s in sections && e in s.entries ==>
          K.IsInternalKey(e.key) && InFilter(hash(K.ExtractUserKey(e.key)), s.offset / FILTER_BASE, covered, pending))
    && forall e :: e in data ==> K.IsInternalKey(e.key) && hash(K.ExtractUserKey(e.key)) in pending
  }

  lemma KeyHashed(hash: Data -> nat, sections: seq<Section>, data: seq<Pair>, offset: nat,
                  covered: seq<seq<nat>>, pending: seq<nat>, p: Pair)
    requires FilterFollows(hash, sections, data, offset, covered, pending) && K.IsInternalKey(p.key)
    ensures FilterFollows(hash, sections, data + [p], offset, covered, pending + [hash(K.ExtractUserKey(p.key))])
  {
    hide K.IsInternalKey;
  }

  /** A block is written at `offset`, and the filters up to `after` are made. */
  lemma BlockHashed(hash: Data -> nat, sections: seq<Section>, s: Section, offset: nat, covered: seq<seq<nat>>,
                    pending: seq<nat>, after: nat, covered': seq<seq<nat>>, pending': seq<nat>)
    requires FilterFollows(hash, sections, s.entries, offset, covered, pending) && s.offset == offset
    requires |covered'| == after / FILTER_BASE && covered <= covered'
    requires if |covered'| == |covered| then pending' == pending else covered'[|covered|] == pending && pending' == []
    ensures FilterFollows(hash, sections + [s], [], after, covered', pending')
  {
    hide K.IsInternalKey;
    forall h, at | InFilter(h, at, covered, pending)
      ensures InFilter(h, at, covered', pending')
    {
    }
  }

  /** The lists of hashes once the last filter is made. */
  ghost function WithPending(covered: seq<seq<nat>>, pending: seq<nat>): seq<seq<nat>> {
    covered + if pending == [] then [] else [pending]
  }

  lemma InAll(h: nat, at: nat, covered: seq<seq<nat>>, pending: seq<nat>)
    requires InFilter(h, at, covered, pending)
    ensures at < |WithPending(covered, pending)| && h in WithPending(covered, pending)[at]
  {
  }

  lemma AllCovered(hash: Data -> nat, sections: seq<Section>, offset: nat, covered: seq<seq<nat>>, pending: seq<nat>)
    requires FilterFollows(hash, sections, [], offset, covered, pending)
    ensures BlocksCovered(hash, sections, WithPending(covered, pending))
  {
    hide K.IsInternalKey, InFilter, WithPending;
    forall i, e | 0 <= i < |sections| && e in sections[i].entries
      ensures KeyCovered(hash, sections[i], e, WithPending(covered, pending))
    {
      assert sections[i] in sections;
      InAll(hash(K.ExtractUserKey(e.key)), sections[i].offset / FILTER_BASE, covered, pending);
    }
  }

  // ---------------------------------------------------------------- the finished index

  /** A separator is at or after its block and before every later entry. */
  lemma SeparatorSplits(entries: seq<Pair>, sections: seq<Section>, i: nat, key: Data, m: nat)
    requires i < |sections| && Increasing(entries) && SeparatorOf(entries, sections, i, key) && m < |entries|
    ensures K.IsInternalKey(key)
    ensures m < |Flat(sections[..i + 1])| ==> !K.Less(key, entries[m].key)
    ensures m >= |Flat(sections[..i + 1])| ==> K.Less(key, entries[m].key)
    ensures m >= |Flat(sections[..i + 1])| ==>
      key == entries[|Flat(sections[..i + 1])| - 1].key || K.BytesLess(K.ExtractUserKey(key), K.ExtractUserKey(entries[m].key))
  {
    hide K.Less, K.BytesLess, K.Tag;
    var n := |Flat(sections[..i + 1])|;
    var last, next := entries[n - 1].key, entries[n].key;
    K.SeparatorOrder(last, next, key);
    if m < n - 1 && K.Less(key, entries[m].key) {
      K.LessTransitive(key, entries[m].key, last);
    }
    if m > n {
      K.LessTransitive(key, next, entries[m].key);
      if key != last {
        UserOrder(next, entries[m].key);
        if K.ExtractUserKey(next) != K.ExtractUserKey(entries[m].key) {
          K.Transitive(K.ExtractUserKey(key), K.ExtractUserKey(next), K.ExtractUserKey(entries[m].key));
        }
      }
    }
  }

  lemma UserOrder(a: Data, b: Data)
    requires K.IsInternalKey(a) && K.IsInternalKey(b) && K.Less(a, b)
    ensures K.ExtractUserKey(a) == K.ExtractUserKey(b) || K.BytesLess(K.ExtractUserKey(a), K.ExtractUserKey(b))
  {
    hide K.BytesLess, K.Tag;
  }

  /** Index keys order their blocks; `keys` may end with a successor of the last key. */
  ghost predicate IndexKey(entries: seq<Pair>, sections: seq<Section>, i: nat, key: Data)
    requires i < |sections|
  {
    SeparatorOf(entries, sections, i, key)
    || (i == |sections| - 1 && entries != [] && K.IsInternalKey(entries[|entries| - 1].key)
        && K.Succeeds(entries[|entries| - 1].key, key))
  }

  /** What an index key says about the entry at position `m`. */
  lemma IndexKeySplits(entries: seq<Pair>, sections: seq<Section>, i: nat, key: Data, m: nat)
    requires i < |sections| && Increasing(entries) && IndexKey(entries, sections, i, key)
    requires entries == Flat(sections) && m < |entries|
    ensures K.IsInternalKey(key)
    ensures m < |Flat(sections[..i + 1])| ==> !K.Less(key, entries[m].key)
    ensures m >= |Flat(sections[..i + 1])| ==> K.Less(key, entries[m].key)
    ensures m >= |Flat(sections[..i + 1])| ==>
      && |Flat(sections[..i + 1])| > 0
      && (key == entries[|Flat(sections[..i + 1])| - 1].key
          || K.BytesLess(K.ExtractUserKey(key), K.ExtractUserKey(entries[m].key)))
  {
    hide K.Less, K.BytesLess, K.Tag, K.Separates, K.Succeeds;
    if SeparatorOf(entries, sections, i, key) {
      SeparatorSplits(entries, sections, i, key, m);
    } else {
      assert sections[..i + 1] == sections;
      var last := entries[|entries| - 1].key;
      K.SuccessorOrder(last, key);
      if m < |entries| - 1 && K.Less(key, entries[m].key) {
        K.LessTransitive(key, entries[m].key, last);
      }
    }
  }

  lemma {:induction false} FinishedIndex(entries: seq<Pair>, sections: seq<Section>, keys: seq<Pair>)
    requires entries == Flat(sections) && Increasing(entries) && |keys| == |sections|
    requires forall s :: s in sections ==> s.entries != []
    requires forall i :: 0 <= i < |keys| ==> IndexKey(entries, sections, i, keys[i].key)
    ensures IndexOrders(keys, sections) && IndexShort(keys, sections)
  {
    hide Increasing, IndexKey, K.Less, K.BytesLess, K.IsInternalKey, LastOrBelow;
    forall i, j, d | 0 <= i < |keys| && 0 <= j < |keys| && 0 <= d < |sections[j].entries|
      ensures K.IsInternalKey(keys[i].key)
      ensures j == i ==> !K.Less(keys[i].key, sections[j].entries[d].key)
      ensures i < j ==> K.Less(keys[i].key, sections[j].entries[d].key)
                        && LastOrBelow(keys[i].key, sections[i], sections[j].entries[d])
    {
      EntryAndKey(entries, sections, keys, i, j, d);
    }
    forall i, j | 0 <= i < j < |keys|
      ensures K.Less(keys[i].key, keys[j].key)
    {
      assert sections[j] in sections && 0 < |sections[j].entries|;
      EntryAndKey(entries, sections, keys, i, j, 0);
      EntryAndKey(entries, sections, keys, j, j, 0);
      K.LessNotAfter(keys[i].key, sections[j].entries[0].key, keys[j].key);
    }
    forall i | 0 <= i < |keys|
      ensures K.IsInternalKey(keys[i].key)
    {
      assert sections[i] in sections && 0 < |sections[i].entries|;
      EntryAndKey(entries, sections, keys, i, i, 0);
    }
  }

  lemma {:induction false} EntryAndKey(entries: seq<Pair>, sections: seq<Section>, keys: seq<Pair>, i: nat, j: nat, d: nat)
    requires entries == Flat(sections) && Increasing(entries) && |keys| == |sections|
    requires forall s :: s in sections ==> s.entries != []
    requires i < |keys| && IndexKey(entries, sections, i, keys[i].key)
    requires j < |keys| && d < |sections[j].entries|
    ensures K.IsInternalKey(keys[i].key) && K.IsInternalKey(sections[j].entries[d].key)
    ensures j == i ==> !K.Less(keys[i].key, sections[j].entries[d].key)
    ensures i < j ==> K.Less(keys[i].key, sections[j].entries[d].key)
                      && LastOrBelow(keys[i].key, sections[i], sections[j].entries[d])
  {
    hide IndexKey, K.Less, K.BytesLess, K.IsInternalKey;
    var m := |Flat(sections[..j])| + d;
    FlatAt(sections, j, d);
    IndexKeySplits(entries, sections, i, keys[i].key, m);
    FlatTake(sections, i);
    if i < j {
      PositionsOrdered(sections, i + 1, j);
      assert sections[i] in sections;
      FlatAt(sections, i, |sections[i].entries| - 1);
    }
  }

  lemma ChainEnds(entries: seq<Pair>, sections: seq<Section>, index: seq<Pair>, pending: bool)
    requires Chained(entries, sections, [], index, pending)
    ensures entries == Flat(sections) && Increasing(entries)
    ensures pending <==> sections != []
    ensures pending ==> entries != [] && K.IsInternalKey(entries[|entries| - 1].key)
    ensures !pending ==> IndexOrders(index, sections) && IndexShort(index, sections) && IndexPoints(index, sections)
  {
    hide K.IsInternalKey, Indexed, SectionOk;
    assert Flat(sections) + [] == Flat(sections);
    if pending {
      FlatTake(sections, |sections| - 1);
      assert sections[..|sections|] == sections && sections[|sections| - 1] in sections;
    }
  }

  /** The last index entry completes the index. */
  lemma IndexComplete(entries: seq<Pair>, sections: seq<Section>, index: seq<Pair>, key: Data)
    requires Chained(entries, sections, [], index, true) && entries != [] && sections != []
    requires K.IsInternalKey(entries[|entries| - 1].key) && K.Succeeds(entries[|entries| - 1].key, key)
    ensures SectionOk(sections[|sections| - 1])
    ensures
      var keys := index + [Pair(key, EncodeHandle(HandleOf(sections[|sections| - 1])))];
      IndexOrders(keys, sections) && IndexShort(keys, sections) && IndexPoints(keys, sections)
  {
    hide K.IsInternalKey, K.Succeeds, SectionOk, HandleOf, Increasing, EncodeHandle, SeparatorOf, IndexOrders, IndexShort, Flat;
    var k := |sections| - 1;
    assert sections[k] in sections;
    var keys := index + [Pair(key, EncodeHandle(HandleOf(sections[k])))];
    ChainEnds(entries, sections, index, true);
    forall i | 0 <= i < |keys|
      ensures IndexKey(entries, sections, i, keys[i].key) && SectionOk(sections[i])
      ensures keys[i].value == EncodeHandle(HandleOf(sections[i]))
    {
      if i < k {
        assert Indexed(entries, sections, i, index[i]);
      }
    }
    FinishedIndex(entries, sections, keys);
  }

  // ---------------------------------------------------------------- the builder

  lemma NothingYet(hash: Data -> nat)
    ensures Chained([], [], [], [], false) && BlocksStored([], []) && Fits([])
    ensures FilterFollows(hash, [], [], 0, [], [])
  {
  }

  class TableBuilder {
    const blockSize: nat
    const restartInterval: nat
    const name: Data                // of the filter policy
    const hash: Data -> nat
    const dataBlock: BlockBuilder
    const indexBlock: BlockBuilder
    const filterBlock: FilterBlockBuilder?
    var file: Data
    var offset: nat
    var lastKey: Data
    var numEntries: nat
    var closed: bool
    var pendingIndexEntry: bool
    var pendingHandle: BlockHandle
    ghost var entries: seq<Pair>
    ghost var sections: seq<Section>

    /** With a filter if `bitsPerKey` is given. */
    constructor (blockSize: nat, restartInterval: nat, name: Data, hash: Data -> nat, bitsPerKey: Option<nat>, k: nat)
      requires restartInterval >= 1 && 1 <= k <= 30 && |name| < 256
      ensures Valid() && !closed && entries == [] && file == []
      ensures this.name == name && this.hash == hash && (filterBlock == null <==> bitsPerKey == None)
      ensures fresh(Repr())
    {
      hide Chained, FilterFollows, BlocksStored, Fits, BlockBuilder.Valid, FilterBlockBuilder.Valid, K.Less, K.IsInternalKey, SectionOk, HandleOf;
      NothingYet(hash);
      this.blockSize, this.restartInterval, this.name, this.hash := blockSize, restartInterval, name, hash;
      file, offset, lastKey, numEntries, closed, pendingIndexEntry := [], 0, [], 0, false, false;
      pendingHandle := BlockHandle(0, 0);
      entries, sections := [], [];
      dataBlock := new BlockBuilder(restartInterval);
      indexBlock := new BlockBuilder(1);
      var filter: FilterBlockBuilder? := null;
      if bitsPerKey.Some? {
        filter := new FilterBlockBuilder(bitsPerKey.value, k);
      }
      filterBlock := filter;
      new;
      if filterBlock != null {
        filterBlock.StartBlock(0);
      }
    }

    ghost function Repr(): set<object> {
      {this, dataBlock, indexBlock} + if filterBlock == null then {} else {filterBlock}
    }

    ghost predicate Valid()
      reads Repr()
    {
      && restartInterval >= 1 && |name| < 256
      && dataBlock != indexBlock && dataBlock.Valid() && indexBlock.Valid()
      && offset == |file| && numEntries == |entries|
      && (entries != [] ==> lastKey == entries[|entries| - 1].key)
      && BlocksStored(file, sections) && Fits(entries)
      && Chained(entries, sections, dataBlock.entries, indexBlock.entries, pendingIndexEntry)
      && (pendingIndexEntry ==> pendingHandle == HandleOf(sections[|sections| - 1]))
      && (filterBlock != null ==>
            && filterBlock.Valid()
            && FilterFollows(hash, sections, dataBlock.entries, offset, filterBlock.covered, filterBlock.pending))
    }

    /** The block and its trailer go to the end of the file. */
    method WriteRawBlock(contents: Data) returns (handle: BlockHandle)
      requires offset == |file|
      modifies this`file, this`offset
      ensures file == old(file) + contents + Trailer(contents) && offset == |file|
      ensures handle == BlockHandle(|old(file)|, |contents|)
    {
      hide Mask, Crc, EncodeFixed32;
      handle := BlockHandle(offset, |contents|);
      file := file + contents;
      var crc := Checksum(Octets(contents));
      crc := Extended(crc, [NO_COMPRESSION as Octet]);
      TrailerCrc(contents);
      file := file + ([NO_COMPRESSION] + EncodeFixed32(Mask(crc)));
      offset := offset + |contents| + BLOCK_TRAILER_SIZE;
    }

    /** Finishes a block, writes it and resets its builder. */
    method WriteBlock(block: BlockBuilder) returns (handle: BlockHandle, ghost s: Section)
      requires offset == |file| && block.Valid()
      modifies this`file, this`offset, block
      ensures offset == |file| && block.Valid() && block.entries == []
      ensures SectionOk(s) && s.entries == old(block.entries) && s.offset == |old(file)| && handle == HandleOf(s)
      ensures file == old(file) + Raw(s) + Trailer(Raw(s))
    {
      hide Trailer, BlockBytes, RestartsOk;
      var raw := block.Finish();
      s := Section(offset, block.Starts(), block.entries);
      assert SectionOk(s) && raw == Raw(s);
      handle := WriteRawBlock(raw);
      block.Reset();
    }

    /** Settles the index entry that is pending, now that the next key is known. */
    method AddIndexEntry(key: Data, ghost p: Pair)
      requires Valid() && K.IsInternalKey(key) && p.key == key
      requires entries != [] ==> K.Less(entries[|entries| - 1].key, key)
      modifies this`lastKey, this`pendingIndexEntry, indexBlock
      ensures indexBlock.Valid() && !pendingIndexEntry
      ensures Chained(entries + [p], sections, dataBlock.entries + [p], indexBlock.entries, false)
    {
      hide K.Less, K.IsInternalKey, EncodeHandle, Chained, BlocksStored, FilterFollows, K.Separates, HandleOf, SectionOk,
           BlockBuilder.Valid, FilterBlockBuilder.Valid, Fits;
      if pendingIndexEntry {
        LastIsHere();
        lastKey := K.FindShortestInternalSeparator(lastKey, key);
        var handleEncoding := EncodeHandle(pendingHandle);
        HandleLength(pendingHandle);
        FirstEntry(entries, sections, indexBlock.entries, p, lastKey);
        indexBlock.Add(lastKey, handleEncoding);
        pendingIndexEntry := false;
        assert dataBlock.entries + [p] == [p];
      } else {
        NextEntry(entries, sections, dataBlock.entries, indexBlock.entries, p);
      }
    }

    method AddFilterKey(key: Data, ghost p: Pair)
      requires K.IsInternalKey(key) && p.key == key && filterBlock != null && filterBlock.Valid()
      requires FilterFollows(hash, sections, dataBlock.entries, offset, filterBlock.covered, filterBlock.pending)
      modifies filterBlock
      ensures filterBlock.Valid()
      ensures FilterFollows(hash, sections, dataBlock.entries + [p], offset, filterBlock.covered, filterBlock.pending)
    {
      hide K.Less, K.IsInternalKey, Chained, BlocksStored, FilterFollows, HandleOf, SectionOk, BlockBuilder.Valid, FilterBlockBuilder.Valid, Fits;
      KeyHashed(hash, sections, dataBlock.entries, offset, filterBlock.covered, filterBlock.pending, p);
      filterBlock.AddKey(hash(K.ExtractUserKey(key)));
    }

    /** Appends an entry; a block that has become large enough is written out. */
    method Add(key: Data, value: Data)
      requires Valid() && !closed && K.IsInternalKey(key) && |key| < TWO_32 && |value| < TWO_32
      requires entries != [] ==> K.Less(entries[|entries| - 1].key, key)
      modifies Repr()
      ensures Valid() && !closed && entries == old(entries) + [Pair(key, value)]
    {
      hide K.Less, K.IsInternalKey, Chained, BlocksStored, FilterFollows, HandleOf, SectionOk, BlockBuilder.Valid, FilterBlockBuilder.Valid, Fits;
      ghost var p := Pair(key, value);
      AddIndexEntry(key, p);
      if filterBlock != null {
        AddFilterKey(key, p);
      }
      OneMoreFits(entries, p);
      lastKey := key;
      numEntries := numEntries + 1;
      entries := entries + [p];
      dataBlock.Add(key, value);
      var estimatedBlockSize := dataBlock.CurrentSizeEstimate();
      if estimatedBlockSize >= blockSize {
        Flush();
      }
    }

    /** With an index entry pending there is a last key, and the data block is empty. */
    lemma LastIsHere()
      requires Valid()
      ensures pendingIndexEntry ==> entries != [] && sections != [] && dataBlock.entries == []
      ensures entries != [] ==> K.IsInternalKey(lastKey) && |lastKey| < TWO_32
    {
      hide K.Less, K.IsInternalKey, BlockBuilder.Valid, FilterBlockBuilder.Valid, FilterFollows, BlocksStored, HandleOf, SectionOk;
      if pendingIndexEntry {
        FlatTake(sections, |sections| - 1);
        assert sections[..|sections|] == sections && sections[|sections| - 1] in sections;
      }
    }

    /** Writes the data block, if there is anything in it, and starts the next one. */
    method Flush()
      requires Valid() && !closed
      modifies Repr()
      ensures Valid() && !closed && entries == old(entries) && dataBlock.entries == []
    {
      hide K.Less, K.IsInternalKey, EncodeHandle, Chained, BlocksStored, FilterFollows, HandleOf, SectionOk, Raw, Trailer,
           BlockBuilder.Valid, FilterBlockBuilder.Valid, Fits;
      var empty := dataBlock.Empty();
      if empty {
        return;
      }
      NotPending();
      ghost var before := file;
      ghost var s;
      pendingHandle, s := WriteBlock(dataBlock);
      BlockDone(entries, sections, s.entries, indexBlock.entries, s);
      OneMoreStored(before, sections, s);
      pendingIndexEntry := true;
      if filterBlock != null {
        StartFilterBlock(|before|, s);
      }
      sections := sections + [s];
    }

    method StartFilterBlock(ghost before: nat, ghost s: Section)
      requires filterBlock != null && filterBlock.Valid() && s.offset == before <= offset
      requires FilterFollows(hash, sections, s.entries, before, filterBlock.covered, filterBlock.pending)
      modifies filterBlock
      ensures filterBlock.Valid()
      ensures FilterFollows(hash, sections + [s], [], offset, filterBlock.covered, filterBlock.pending)
    {
      hide FilterFollows, FilterBlockBuilder.Valid;
      ghost var covered, pending := filterBlock.covered, filterBlock.pending;
      NotAhead(hash, sections, s.entries, before, covered, pending, offset);
      filterBlock.StartBlock(offset);
      BlockHashed(hash, sections, s, before, covered, pending, offset, filterBlock.covered, filterBlock.pending);
    }

    method WriteFilterBlock() returns (handle: BlockHandle, ghost f: FilterPart)
      requires offset == |file| && filterBlock != null && filterBlock.Valid()
      requires FilterFollows(hash, sections, [], offset, filterBlock.covered, filterBlock.pending)
      modifies this`file, this`offset, filterBlock
      ensures offset == |file| && old(file) <= file && OnDisk(file, f.offset, f.block)
      ensures handle == BlockHandle(f.offset, |f.block|)
      ensures |f.block| < TWO_32 ==> IsFilterBlock(f.block, f.covered)
      ensures BlocksCovered(hash, sections, f.covered)
    {
      hide FilterFollows, FilterBlockBuilder.Valid, BlocksCovered, IsFilterBlock, Trailer, OnDisk, FixedList;
      AllCovered(hash, sections, offset, filterBlock.covered, filterBlock.pending);
      var block := filterBlock.Finish();
      if |block| < TWO_32 {
        FinishedFilter(filterBlock, block);
      }
      AppendedOnDisk(file, block);
      f := FilterPart(offset, block, filterBlock.covered);
      handle := WriteRawBlock(block);
    }

    /** Maps the filter's name to its place. */
    method WriteMetaindexBlock(filterHandle: Option<BlockHandle>) returns (handle: BlockHandle, ghost s: Section)
      requires offset == |file| && restartInterval >= 1 && |name| < 256
      modifies this`file, this`offset
      ensures offset == |file| && old(file) <= file && Stored(file, s) && handle == HandleOf(s)
      ensures s.entries == if filterHandle.None? then [] else [Pair(FilterKey(name), EncodeHandle(filterHandle.value))]
    {
      hide EncodeHandle, BlockBuilder.Valid, Trailer, OnDisk, Raw, SectionOk;
      var metaIndexBlock := new BlockBuilder(restartInterval);
      if filterHandle.Some? {
        var handleEncoding := EncodeHandle(filterHandle.value);
        HandleLength(filterHandle.value);
        metaIndexBlock.Add(FilterKey(name), handleEncoding);
      }
      ghost var before := file;
      handle, s := WriteBlock(metaIndexBlock);
      AppendedOnDisk(before, Raw(s));
    }

    /** The last block's index key only has to be at or after its last key. */
    method WriteIndexBlock() returns (handle: BlockHandle, ghost s: Section)
      requires Chained(entries, sections, [], indexBlock.entries, pendingIndexEntry)
      requires offset == |file| && indexBlock.Valid() && Fits(entries)
      requires entries != [] ==> lastKey == entries[|entries| - 1].key
      requires pendingIndexEntry ==> pendingHandle == HandleOf(sections[|sections| - 1])
      modifies this`file, this`offset, this`lastKey, this`pendingIndexEntry, indexBlock
      ensures offset == |file| && old(file) <= file && Stored(file, s) && handle == HandleOf(s)
      ensures IndexOrders(s.entries, sections) && IndexShort(s.entries, sections) && IndexPoints(s.entries, sections)
    {
      hide EncodeHandle, BlockBuilder.Valid, Trailer, OnDisk, Raw, SectionOk, Chained, IndexOrders, IndexShort, IndexPoints,
           K.Succeeds, HandleOf, K.IsInternalKey;
      ChainEnds(entries, sections, indexBlock.entries, pendingIndexEntry);
      ghost var index := indexBlock.entries;
      if pendingIndexEntry {
        lastKey := K.FindShortInternalSuccessor(lastKey);
        var handleEncoding := EncodeHandle(pendingHandle);
        HandleLength(pendingHandle);
        IndexComplete(entries, sections, index, lastKey);
        indexBlock.Add(lastKey, handleEncoding);
        pendingIndexEntry := false;
      }
      ghost var before := file;
      handle, s := WriteBlock(indexBlock);
      AppendedOnDisk(before, Raw(s));
    }

    /** Writes what is left: the last block, the filter, the metaindex, the index and the
        footer. */
    method Finish() returns (ghost t: Built)
      requires Valid() && !closed
      modifies Repr()
      ensures closed && IsTable(file, name, hash, t)
      ensures entries == old(entries) && Flat(t.sections) == entries && Increasing(entries)
      ensures t.filter.Some? <==> filterBlock != null
    {
      hide EncodeHandle, BlockBuilder.Valid, FilterBlockBuilder.Valid, Trailer, OnDisk, Raw, SectionOk, Chained, IndexOrders,
           IndexShort, IndexPoints, HandleOf, Fits, K.IsInternalKey, FilterFollows, BlocksCovered, IsFilterBlock, Stored,
           IsTable, EncodeFooter, BlocksStored, Flat, Increasing, K.Less;
      Flush();
      ChainEnds(entries, sections, indexBlock.entries, pendingIndexEntry);
      closed := true;
      ghost var filter: Option<FilterPart> := None;
      var filterHandle: Option<BlockHandle> := None;
      ghost var blocks := file;
      if filterBlock != null {
        ghost var f;
        var h;
        h, f := WriteFilterBlock();
        filter, filterHandle := Some(f), Some(h);
      }
      ghost var withFilter := file;
      var metaindexHandle, indexHandle;
      ghost var meta, index;
      metaindexHandle, meta := WriteMetaindexBlock(filterHandle);
      ghost var withMeta := file;
      indexHandle, index := WriteIndexBlock();
      ghost var withIndex := file;
      var footer := EncodeFooter(metaindexHandle, indexHandle);
      file := file + footer;
      offset := offset + |footer|;
      t := Built(sections, index, meta, filter);
      FinishedTable(blocks, withFilter, withMeta, withIndex, file, name, hash, t);
    }

    lemma NotPending()
      requires Valid()
      ensures pendingIndexEntry ==> dataBlock.entries == []
    {
      hide Indexed, Increasing, Flat, BlocksStored, FilterFollows, HandleOf, SectionOk, BlockBuilder.Valid, FilterBlockBuilder.Valid, Fits;
    }
  }

  lemma FinishedFilter(builder: FilterBlockBuilder, block: Data)
    requires builder.Valid() && |block| < TWO_32
    requires block == builder.result + FixedList(builder.filterOffsets + [|builder.result|]) + [FILTER_BASE_LG as byte]
    ensures IsFilterBlock(block, builder.covered)
  {
    hide Covers, FixedList, FixedValue, FilterBlockBuilder.Valid;
    FinishedLayout(builder.result, builder.filterOffsets, block);
    FinishedCovers(builder, block);
  }

  lemma OneMoreFits(entries: seq<Pair>, p: Pair)
    requires Fits(entries) && |p.key| < TWO_32 && |p.value| < TWO_32
    ensures Fits(entries + [p])
  {
  }

  lemma NotAhead(hash: Data -> nat, sections: seq<Section>, data: seq<Pair>, offset: nat,
                 covered: seq<seq<nat>>, pending: seq<nat>, after: nat)
    requires FilterFollows(hash, sections, data, offset, covered, pending) && offset <= after
    ensures |covered| <= after / FILTER_BASE
  {
  }

  /** Each part stays where it was written. */
  lemma FinishedTable(blocks: Data, withFilter: Data, withMeta: Data, withIndex: Data, file: Data, name: Data,
                      hash: Data -> nat, t: Built)
    requires blocks <= withFilter <= withMeta <= withIndex <= file
    requires BlocksStored(blocks, t.sections)
    requires t.filter.Some? ==>
      && OnDisk(withFilter, t.filter.value.offset, t.filter.value.block)
      && (|t.filter.value.block| < TWO_32 ==> IsFilterBlock(t.filter.value.block, t.filter.value.covered))
      && BlocksCovered(hash, t.sections, t.filter.value.covered)
    requires Stored(withMeta, t.meta) && Stored(withIndex, t.index)
    requires t.meta.entries == if t.filter.None? then []
      else [Pair(FilterKey(name), EncodeHandle(BlockHandle(t.filter.value.offset, |t.filter.value.block|)))]
    requires IndexOrders(t.index.entries, t.sections) && IndexShort(t.index.entries, t.sections)
    requires IndexPoints(t.index.entries, t.sections)
    requires file == withIndex + EncodeFooter(HandleOf(t.meta), HandleOf(t.index))
    ensures IsTable(file, name, hash, t)
  {
    hide OnDisk, Raw, SectionOk, IndexOrders, IndexShort, IndexPoints, BlocksCovered, IsFilterBlock, BlocksStored, EncodeFooter;
    StillStored(blocks, t.sections, file);
    if t.filter.Some? {
      StaysOnDisk(withFilter, t.filter.value.offset, t.filter.value.block, file);
    }
    StaysOnDisk(withMeta, t.meta.offset, Raw(t.meta), file);
    StaysOnDisk(withIndex, t.index.offset, Raw(t.index), file);
    assert file[|file| - FOOTER_LENGTH..] == EncodeFooter(HandleOf(t.meta), HandleOf(t.index));
  }

  lemma OneMoreStored(file: Data, sections: seq<Section>, s: Section)
    requires BlocksStored(file, sections) && SectionOk(s) && s.offset == |file|
    ensures BlocksStored(file + Raw(s) + Trailer(Raw(s)), sections + [s])
  {
    hide Trailer, SectionOk, Raw;
    AppendedOnDisk(file, Raw(s));
    StillStored(file, sections, file + Raw(s) + Trailer(Raw(s)));
  }

  lemma StillStored(file: Data, sections: seq<Section>, after: Data)
    requires BlocksStored(file, sections) && file <= after
    ensures BlocksStored(after, sections)
  {
    hide Raw, OnDisk, SectionOk;
    forall i | 0 <= i < |sections|
      ensures Stored(after, sections[i])
    {
      assert Stored(file, sections[i]);
      StaysOnDisk(file, sections[i].offset, Raw(sections[i]), after);
    }
  }

  /** The checksum of a block, extended by its type. */
  lemma TrailerCrc(contents: Data)
    ensures Extended(Checksum(Octets(contents)), [NO_COMPRESSION as Octet]) == Crc(contents + [NO_COMPRESSION])
  {
    hide Extended;
    ExtendConcat(0, Octets(contents), [NO_COMPRESSION as Octet]);
    OctetsConcat(contents, [NO_COMPRESSION]);
    assert Octets([NO_COMPRESSION]) == [NO_COMPRESSION as Octet];
  }
}
