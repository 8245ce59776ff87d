/** Reading a table: point lookups through index, filter and block, and the iterator
    over all its entries. */
module Tables {
  import opened InternalKeys
  import opened Bytes
  import opened Coding
  import opened Blocks
  import opened Filters
  import opened TableFormat
  import K = TableKeys

  // ---------------------------------------------------------------- what a lookup should find

  /** The first entry at or after the key, if it is for the same user key. */
  ghost function Lookup(entries: seq<Pair>, k: Data): Option<Pair>
    requires Increasing(entries) && K.IsInternalKey(k)
  {
    var i := FirstAtOrAfter(K.Less, entries, k);
    if i < |entries| && K.ExtractUserKey(entries[i].key) == K.ExtractUserKey(k) then Some(entries[i]) else None
  }

  /** That is the newest entry of the user key that the lookup key can see, and there is
      one whenever the table holds any. */
  lemma {:induction false} LookupIsNewest(entries: seq<Pair>, k: Data)
    requires Increasing(entries) && K.IsInternalKey(k)
    ensures forall e :: e in entries && K.ExtractUserKey(e.key) == K.ExtractUserKey(k) && K.Tag(e.key) <= K.Tag(k) ==>
              Lookup(entries, k).Some? && K.Tag(e.key) <= K.Tag(Lookup(entries, k).value.key)
    ensures Lookup(entries, k).Some? ==>
              && Lookup(entries, k).value in entries
              && K.ExtractUserKey(Lookup(entries, k).value.key) == K.ExtractUserKey(k)
              && K.Tag(Lookup(entries, k).value.key) <= K.Tag(k)
  {
    hide K.BytesLess, K.Tag, FirstAtOrAfter;
    var i := FirstAtOrAfter(K.Less, entries, k);
    K.Irreflexive(K.ExtractUserKey(k));
    forall e | e in entries && K.ExtractUserKey(e.key) == K.ExtractUserKey(k) && K.Tag(e.key) <= K.Tag(k)
      ensures Lookup(entries, k).Some? && K.Tag(e.key) <= K.Tag(Lookup(entries, k).value.key)
    {
      var n :| 0 <= n < |entries| && entries[n] == e;
      assert !K.Less(e.key, k);
      assert i <= n;
      if i < n {
        Squeezed(entries[i].key, e.key, k);
      }
    }
  }

  /** An internal key between a lookup key and a visible entry of its user key. */
  lemma Squeezed(a: Data, b: Data, k: Data)
    requires K.IsInternalKey(a) && K.IsInternalKey(b) && K.IsInternalKey(k)
    requires K.ExtractUserKey(b) == K.ExtractUserKey(k) && !K.Less(a, k) && K.Less(a, b)
    ensures K.ExtractUserKey(a) == K.ExtractUserKey(k) && K.Tag(b) <= K.Tag(a)
  {
    hide K.BytesLess, K.Tag;
    K.Total(K.ExtractUserKey(a), K.ExtractUserKey(k));
  }

  lemma {:induction false} SortedSearchable(entries: seq<Pair>, target: Data)
    requires Increasing(entries) && K.IsInternalKey(target)
    ensures Searchable(K.Less, entries, target)
  {
    hide K.Less, K.IsInternalKey;
    forall i, j | 0 <= i < j < |entries| && K.Less(entries[j].key, target)
      ensures K.Less(entries[i].key, target)
    {
      K.LessTransitive(entries[i].key, entries[j].key, target);
    }
  }

  // ---------------------------------------------------------------- the index narrows the search

  /** The entries of a block, as part of the whole table. */
  lemma {:induction false} BlockIncreasing(sections: seq<Section>, i: nat)
    requires Increasing(Flat(sections)) && i < |sections|
    ensures Increasing(sections[i].entries)
  {
    hide K.Less, K.IsInternalKey;
    forall d | 0 <= d < |sections[i].entries|
      ensures |Flat(sections[..i])| + d < |Flat(sections)|
      ensures Flat(sections)[|Flat(sections[..i])| + d] == sections[i].entries[d]
    {
      FlatAt(sections, i, d);
    }
  }

  lemma {:induction false} KeysIncreasing(keys: seq<Pair>, sections: seq<Section>)
    requires IndexOrders(keys, sections)
    ensures Increasing(keys)
  {
    hide K.Less, K.IsInternalKey;
  }

  /** The first index key at or after the target picks the block that holds the first
      entry at or after it, or whose end is just before that entry. */
  lemma {:induction false} BlockOf(keys: seq<Pair>, sections: seq<Section>, target: Data)
    requires IndexOrders(keys, sections) && Increasing(Flat(sections)) && K.IsInternalKey(target)
    ensures
      var j := FirstAtOrAfter(K.Less, keys, target);
      && j <= |sections|
      && FirstAtOrAfter(K.Less, Flat(sections), target)
         == |Flat(sections[..j])| + if j == |sections| then 0 else FirstAtOrAfter(K.Less, sections[j].entries, target)
  {
    hide K.Less, K.IsInternalKey, FirstAtOrAfter, IndexOrders, Increasing;
    var j := FirstAtOrAfter(K.Less, keys, target);
    assert |keys| == |sections| by { KeyCount(keys, sections); }
    var i := if j == |sections| then 0 else FirstAtOrAfter(K.Less, sections[j].entries, target);
    var p := |Flat(sections[..j])| + i;
    var all := Flat(sections);
    FlatSplit(sections, j);
    if j < |sections| {
      FlatTake(sections, j);
      FlatSplit(sections, j + 1);
    } else {
      assert sections[..j] == sections;
    }
    forall q | 0 <= q < |all|
      ensures K.Less(all[q].key, target) <==> q < p
    {
      var b, d := FlatFind(sections, q);
      BlockSide(keys, sections, target, b, d);
      if b < j {
        PositionsOrdered(sections, b + 1, j);
        FlatTake(sections, b);
      } else if b > j {
        PositionsOrdered(sections, j + 1, b);
      }
    }
    FirstIs(K.Less, all, target, p);
  }

  lemma {:induction false} KeyCount(keys: seq<Pair>, sections: seq<Section>)
    requires IndexOrders(keys, sections)
    ensures |keys| == |sections|
  {
  }

  /** A key past the end of its block is not in the next one: the index key was made to
      have another user key. */
  lemma {:induction false} NextIsOther(keys: seq<Pair>, sections: seq<Section>, k: Data, e: Pair, b: nat)
    requires IndexOrders(keys, sections) && IndexShort(keys, sections) && K.IsInternalKey(k)
    requires
      var j := FirstAtOrAfter(K.Less, keys, k);
      && j < b < |sections| && e in sections[b].entries
      && FirstAtOrAfter(K.Less, sections[j].entries, k) == |sections[j].entries|
    ensures K.IsInternalKey(e.key) && K.ExtractUserKey(e.key) != K.ExtractUserKey(k)
  {
    hide K.BytesLess, K.Tag, FirstAtOrAfter;
    var j := FirstAtOrAfter(K.Less, keys, k);
    var key := keys[j].key;
    assert LastOrBelow(key, sections[j], e);
    assert !K.Less(key, k);
    assert sections[j].entries != [] ==> K.Less(sections[j].entries[|sections[j].entries| - 1].key, k);
  }

  /** On which side of the target an entry is, by its place. */
  lemma {:induction false} BlockSide(keys: seq<Pair>, sections: seq<Section>, target: Data, b: nat, d: nat)
    requires IndexOrders(keys, sections) && Increasing(Flat(sections)) && K.IsInternalKey(target)
    requires b < |sections| && d < |sections[b].entries|
    ensures
      var j := FirstAtOrAfter(K.Less, keys, target);
      K.Less(sections[b].entries[d].key, target) <==>
        b < j || (b == j && d < FirstAtOrAfter(K.Less, sections[b].entries, target))
  {
    hide K.Less, FirstAtOrAfter;
    var j := FirstAtOrAfter(K.Less, keys, target);
    var e := sections[b].entries[d];
    BlockIncreasing(sections, b);
    assert e in sections[b].entries;
    if b < j {
      assert K.Less(keys[b].key, target);
      K.NotLessThenLess(e.key, keys[b].key, target);
    } else if b == j {
      var i := FirstAtOrAfter(K.Less, sections[b].entries, target);
      if i < d {
        K.LessNotBefore(sections[b].entries[i].key, e.key, target);
      }
    } else {
      K.LessNotBefore(keys[j].key, e.key, target);
    }
  }

  // ---------------------------------------------------------------- opening a table

  /** The iterator of a block; null stands for an iterator that is never valid, which
      the code uses for a block of the wrong size or without restart points. */
  method NewBlockIterator(less: (Data, Data) -> bool, block: Option<Layout>, ghost s: Section) returns (it: Iter?)
    requires block.Some? ==> LayoutOk(block.value)
    ensures it != null ==> fresh(it) && it.Shape() && block.Some?
    ensures block.Some? && BuiltFor(block.value, s.starts, s.entries) ==>
      it != null && Reads(it, less, s) && it.Stands(|s.entries|) && !it.corrupted
  {
    hide BuiltFor;
    if block.Some? {
      BuiltHasRestarts(block.value, s);
    }
    if block.None? || block.value.numRestarts == 0 {
      return null;
    }
    it := new Iter(less, block.value, s.starts, s.entries);
  }

  lemma BuiltHasRestarts(l: Layout, s: Section)
    ensures BuiltFor(l, s.starts, s.entries) ==> l.numRestarts > 0
  {
  }

  /** An iterator over this block. */
  ghost predicate Reads(it: Iter, less: (Data, Data) -> bool, s: Section) {
    it.less == less && it.starts == s.starts && it.entries == s.entries && it.Built() && it.Shape()
  }

  /** The block at a handle, opened. */
  method ReadSection(file: Data, verifyChecksums: bool, handle: BlockHandle, ghost s: Section) returns (r: Option<Option<Layout>>)
    ensures r.Some? && r.value.Some? ==> LayoutOk(r.value.value)
    ensures Stored(file, s) && |Raw(s)| < TWO_32 && handle == HandleOf(s) ==>
      r.Some? && r.value.Some? && BuiltFor(r.value.value, s.starts, s.entries)
  {
    hide BuiltFor, OnDisk, BlockBytes, FixedValue, RestartsOk;
    var contents, overran := ReadBlock(file, verifyChecksums, handle);
    if Stored(file, s) && |Raw(s)| < TWO_32 && handle == HandleOf(s) {
      OpenBuilt(s.starts, s.entries);
      assert contents == Some(Raw(s));
    }
    if contents.None? {
      return None;
    }
    var block := OpenBlock(contents.value);
    r := Some(block);
  }

  /** The filter block that the metaindex names for this policy, if there is one. */
  method ReadMeta(file: Data, verifyChecksums: bool, metaindex: BlockHandle, policy: Option<Data>,
                  ghost name: Data, ghost hash: Data -> nat, ghost t: Built) returns (filter: Option<FilterReader>)
    ensures filter.Some? ==> ReaderOk(filter.value)
    ensures policy == None ==> filter == None
    ensures IsTable(file, name, hash, t) && Small(file, t) && metaindex == HandleOf(t.meta) ==>
      && (filter.Some? <==> policy == Some(name) && t.filter.Some?)
      && (filter.Some? ==> Covers(filter.value, t.filter.value.covered))
  {
    hide BuiltFor, OnDisk, Raw, IsTable, IsFilterBlock, Covers, FirstAtOrAfter, K.BytesLess, EncodeHandle, DecodeHandle;
    filter := None;
    if policy.None? {
      return;
    }
    ghost var good := IsTable(file, name, hash, t) && Small(file, t) && metaindex == HandleOf(t.meta);
    if good {
      MetaFacts(file, name, hash, t, policy.value);
    }
    var meta := ReadSection(file, verifyChecksums, metaindex, t.meta);
    if meta.None? {
      return;
    }
    var iter := NewBlockIterator(K.BytesLess, meta.value, t.meta);
    if iter == null {
      return;
    }
    var key := FilterKey(policy.value);
    iter.Seek(key);
    if good {
      iter.BuiltOffsets(FirstAtOrAfter(K.BytesLess, t.meta.entries, key));
    }
    if iter.Valid() && iter.key == key {
      filter := ReadFilter(file, verifyChecksums, iter.value, if t.filter.Some? then t.filter.value else FilterPart(0, [], []));
    }
  }

  lemma MetaFacts(file: Data, name: Data, hash: Data -> nat, t: Built, policy: Data)
    requires IsTable(file, name, hash, t) && Small(file, t)
    ensures Stored(file, t.meta) && |Raw(t.meta)| < TWO_32
    ensures Searchable(K.BytesLess, t.meta.entries, FilterKey(policy))
    ensures t.filter.None? ==> t.meta.entries == []
    ensures t.filter.Some? ==>
      && |t.meta.entries| == 1 && (t.meta.entries[0].key == FilterKey(policy) <==> name == policy)
      && (name == policy ==> FirstAtOrAfter(K.BytesLess, t.meta.entries, FilterKey(policy)) == 0)
      && t.meta.entries[0].value == EncodeHandle(BlockHandle(t.filter.value.offset, |t.filter.value.block|))
      && OnDisk(file, t.filter.value.offset, t.filter.value.block) && |t.filter.value.block| < TWO_32
      && IsFilterBlock(t.filter.value.block, t.filter.value.covered) && |file| < TWO_64
  {
    hide OnDisk, Raw, IsFilterBlock, Stored, K.BytesLess, EncodeHandle, BlocksStored, IndexOrders, IndexShort, IndexPoints,
         BlocksCovered, EncodeFooter;
    assert t.meta in t.sections + [t.index, t.meta];
    K.Irreflexive(FilterKey(policy));
    if t.filter.Some? {
      FilterKeyInjective(name, policy);
    }
  }

  lemma FilterKeyInjective(a: Data, b: Data)
    ensures FilterKey(a) == FilterKey(b) <==> a == b
  {
    assert FilterKey(a)[7..] == a && FilterKey(b)[7..] == b;
  }

  method ReadFilter(file: Data, verifyChecksums: bool, handleValue: Data, ghost f: FilterPart) returns (filter: Option<FilterReader>)
    ensures filter.Some? ==> ReaderOk(filter.value)
    ensures
      && OnDisk(file, f.offset, f.block) && |file| < TWO_64 && IsFilterBlock(f.block, f.covered)
      && handleValue == EncodeHandle(BlockHandle(f.offset, |f.block|))
      ==> filter.Some? && Covers(filter.value, f.covered)
  {
    hide Covers, EncodeHandle, DecodeHandle, FixedValue, Trailer;
    if OnDisk(file, f.offset, f.block) && |file| < TWO_64 {
      WholeHandle(BlockHandle(f.offset, |f.block|));
    }
    var handle := DecodeHandle(handleValue);
    if handle.None? {
      return None;
    }
    var block, overran := ReadBlock(file, verifyChecksums, handle.value.value);
    if block.None? {
      return None;
    }
    var reader := OpenFilterBlock(block.value);
    filter := Some(reader);
  }

  class Table {
    const file: Data
    const verifyChecksums: bool
    const hash: Data -> nat
    const indexBlock: Option<Layout>
    const filter: Option<FilterReader>
    ghost const name: Data
    ghost const built: Built

    constructor (file: Data, verifyChecksums: bool, hash: Data -> nat, indexBlock: Option<Layout>, filter: Option<FilterReader>,
                 ghost name: Data, ghost built: Built)
      requires indexBlock.Some? ==> LayoutOk(indexBlock.value)
      requires filter.Some? ==> ReaderOk(filter.value)
      ensures this.file == file && this.verifyChecksums == verifyChecksums && this.hash == hash
      ensures this.indexBlock == indexBlock && this.filter == filter && this.name == name && this.built == built
    {
      this.file, this.verifyChecksums, this.hash := file, verifyChecksums, hash;
      this.indexBlock, this.filter, this.name, this.built := indexBlock, filter, name, built;
    }

    /** Opened on a table file, with its filter or without one. */
    ghost predicate Good() {
      && IsTable(file, name, hash, built) && Small(file, built) && Increasing(Flat(built.sections))
      && indexBlock.Some? && BuiltFor(indexBlock.value, built.index.starts, built.index.entries)
      && (filter.Some? ==> built.filter.Some? && Covers(filter.value, built.filter.value.covered))
    }

    ghost predicate Formed() {
      && (indexBlock.Some? ==> LayoutOk(indexBlock.value))
      && (filter.Some? ==> ReaderOk(filter.value))
    }

    lemma SectionFacts(j: nat)
      requires Good() && j < |built.sections|
      ensures
        var s := built.sections[j];
        && SectionOk(s) && Stored(file, s) && |Raw(s)| < TWO_32
        && |built.index.entries| == |built.sections| && built.index.entries[j].value == EncodeHandle(HandleOf(s))
        && DecodeHandle(EncodeHandle(HandleOf(s))) == Some(Parsed(HandleOf(s), []))
    {
      hide Trailer, Raw, EncodeHandle, DecodeHandle, IndexOrders, IndexShort, MetaOk, EncodeFooter, Covers, BuiltFor, Increasing, Flat;
      var s := built.sections[j];
      assert s in built.sections + [built.index, built.meta];
      WholeHandle(HandleOf(s));
    }

    lemma IndexFacts(target: Data)
      requires Good() && K.IsInternalKey(target)
      ensures indexBlock.Some? && BuiltFor(indexBlock.value, built.index.starts, built.index.entries)
      ensures |built.index.entries| == |built.sections|
      ensures Searchable(K.Less, built.index.entries, target)
    {
      hide Trailer, Raw, EncodeHandle, DecodeHandle, IndexShort, IndexPoints, MetaOk, EncodeFooter, Covers, BuiltFor, Increasing,
           BlocksStored, K.Less, K.IsInternalKey, Stored, Small, Flat;
      KeysIncreasing(built.index.entries, built.sections);
      SortedSearchable(built.index.entries, target);
    }

    /** The block that the index picks, and the place in it. */
    lemma SeekFacts(target: Data)
      requires Good() && K.IsInternalKey(target)
      ensures
        var all, j := Flat(built.sections), FirstAtOrAfter(K.Less, built.index.entries, target);
        && j <= |built.sections|
        && (j < |built.sections| ==> Searchable(K.Less, built.sections[j].entries, target))
        && FirstAtOrAfter(K.Less, all, target) == |Flat(built.sections[..j])|
           + if j == |built.sections| then 0 else FirstAtOrAfter(K.Less, built.sections[j].entries, target)
    {
      hide Raw, EncodeHandle, IndexPoints, EncodeFooter, BuiltFor, BlocksStored, Stored, Small, MetaOk, K.Less,
           IndexOrders, IndexShort, FirstAtOrAfter, Flat, Increasing, Searchable;
      var j := FirstAtOrAfter(K.Less, built.index.entries, target);
      BlockOf(built.index.entries, built.sections, target);
      if j < |built.sections| {
        BlockIncreasing(built.sections, j);
        SortedSearchable(built.sections[j].entries, target);
      }
    }

    /** An iterator over the block that an index value points to. */
    method BlockReader(indexValue: Data, ghost s: Section) returns (it: Iter?, ok: bool)
      ensures it != null ==> fresh(it) && it.Shape()
      ensures Good() && s in built.sections && SectionOk(s) && indexValue == EncodeHandle(HandleOf(s)) ==>
        ok && it != null && Reads(it, K.Less, s) && it.Stands(|s.entries|) && !it.corrupted
    {
      hide Raw, EncodeHandle, DecodeHandle, BuiltFor, Stored, Good;
      if Good() && s in built.sections {
        var j :| 0 <= j < |built.sections| && built.sections[j] == s;
        SectionFacts(j);
      }
      var handle := DecodeHandle(indexValue);
      if handle.None? {
        return null, false;
      }
      var block := ReadSection(file, verifyChecksums, handle.value.value, s);
      if block.None? {
        return null, false;
      }
      ok := block.value.Some?;
      it := NewBlockIterator(K.Less, block.value, s);
    }

    /** The filter never denies a key of the block. */
    lemma NotDenied(j: nat, e: Pair)
      requires Good() && filter.Some? && j < |built.sections| && e in built.sections[j].entries
      ensures K.IsInternalKey(e.key)
      ensures Admits(filter.value, built.sections[j].offset, hash(K.ExtractUserKey(e.key)))
    {
      hide Trailer, Raw, EncodeHandle, IndexOrders, IndexShort, IndexPoints, EncodeFooter, BuiltFor, Increasing, BlocksStored, Stored,
           Small, Admits, IsFilterBlock, OnDisk, Flat, Covers;
      CoveredIsAdmitted(filter.value, built.filter.value.covered, built.sections[j].offset, hash(K.ExtractUserKey(e.key)));
    }

    /** The block that the index picks holds what the lookup is for. */
    lemma {:induction false} FoundIn(k: Data)
      requires Good() && K.IsInternalKey(k)
      ensures Increasing(Flat(built.sections))
      ensures
        var all, j := Flat(built.sections), FirstAtOrAfter(K.Less, built.index.entries, k);
        && j <= |built.sections|
        && (j == |built.sections| ==> Lookup(all, k) == None)
        && (j < |built.sections| ==>
              var s := built.sections[j];
              var i := FirstAtOrAfter(K.Less, s.entries, k);
              && Searchable(K.Less, s.entries, k)
              && (i == |s.entries| ==> Lookup(all, k) == None)
              && (i < |s.entries| ==>
                    && s.entries[i] in s.entries && s.entries[i] in all && K.IsInternalKey(s.entries[i].key)
                    && Lookup(all, k) == Answer(Some(s.entries[i]), k)))
    {
      hide Raw, EncodeHandle, IndexPoints, EncodeFooter, BuiltFor, BlocksStored, Stored, Small, MetaOk, K.Less,
           IndexOrders, IndexShort, FirstAtOrAfter;
      var keys, sections := built.index.entries, built.sections;
      var all, j := Flat(sections), FirstAtOrAfter(K.Less, keys, k);
      BlockOf(keys, sections, k);
      if j == |sections| {
        assert sections[..j] == sections;
      } else {
        var s := sections[j];
        var i := FirstAtOrAfter(K.Less, s.entries, k);
        BlockIncreasing(sections, j);
        SortedSearchable(s.entries, k);
        if i < |s.entries| {
          FlatAt(sections, j, i);
        } else {
          FlatTake(sections, j);
          var p := |Flat(sections[..j + 1])|;
          FlatSplit(sections, j + 1);
          if p < |all| {
            var b, d := FlatFind(sections, p);
            if b <= j {
              PositionsOrdered(sections, b + 1, j + 1);
              FlatTake(sections, b);
              assert false;
            }
            NextIsOther(keys, sections, k, sections[b].entries[d], b);
          }
        }
      }
    }

    /** The first entry at or after the key in the block that an index value points to. */
    method SeekInBlock(indexValue: Data, k: Data, ghost s: Section) returns (saved: Option<Pair>, ok: bool)
      ensures
        && Good() && s in built.sections && SectionOk(s) && indexValue == EncodeHandle(HandleOf(s))
        && Searchable(K.Less, s.entries, k)
        ==> ok && saved == var i := FirstAtOrAfter(K.Less, s.entries, k); if i < |s.entries| then Some(s.entries[i]) else None
    {
      hide Raw, EncodeHandle, DecodeHandle, BuiltFor, Stored, Good, K.Less, FirstAtOrAfter, SectionOk;
      ghost var good := Good() && s in built.sections && SectionOk(s) && indexValue == EncodeHandle(HandleOf(s))
                        && Searchable(K.Less, s.entries, k);
      saved := None;
      var blockIter;
      blockIter, ok := BlockReader(indexValue, s);
      if blockIter != null {
        blockIter.Seek(k);
        if good {
          blockIter.BuiltOffsets(FirstAtOrAfter(K.Less, s.entries, k));
        }
        if blockIter.Valid() {
          saved := Some(Pair(blockIter.key, blockIter.value));
        }
        ok := !blockIter.corrupted;
      }
    }

    /** The index value for the block that can hold the key. */
    method SeekInIndex(k: Data) returns (indexValue: Option<Data>, ok: bool)
      requires Formed() && K.IsInternalKey(k)
      ensures Good() ==>
        && ok && |built.index.entries| == |built.sections|
        && indexValue == var j := FirstAtOrAfter(K.Less, built.index.entries, k);
                         if j < |built.sections| then Some(built.index.entries[j].value) else None
    {
      hide Raw, EncodeHandle, DecodeHandle, BuiltFor, Stored, Good, K.Less, FirstAtOrAfter, SectionOk, Searchable, Flat;
      if Good() {
        IndexFacts(k);
      }
      var iiter := NewBlockIterator(K.Less, indexBlock, built.index);
      if iiter == null {
        return None, indexBlock.Some?;
      }
      iiter.Seek(k);
      if Good() {
        iiter.BuiltOffsets(FirstAtOrAfter(K.Less, built.index.entries, k));
      }
      indexValue := if iiter.Valid() then Some(iiter.value) else None;
      ok := !iiter.corrupted;
    }

    /** Whether the filter leaves room for the key in the block. */
    method MayHold(indexValue: Data, k: Data, ghost j: nat) returns (may: bool)
      requires Formed() && K.IsInternalKey(k)
      ensures
        && Good() && j < |built.sections| && SectionOk(built.sections[j])
        && indexValue == EncodeHandle(HandleOf(built.sections[j])) && !may
        ==> forall e :: e in built.sections[j].entries && K.IsInternalKey(e.key) ==> K.ExtractUserKey(e.key) != K.ExtractUserKey(k)
    {
      hide Raw, EncodeHandle, DecodeHandle, BuiltFor, Stored, Good, K.Less, SectionOk, Admits, Covers, Flat, K.IsInternalKey;
      var handle := DecodeHandle(indexValue);
      may := true;
      if filter.Some? && handle.Some? {
        may := FilterMayMatch(filter.value, handle.value.value.offset, hash(K.ExtractUserKey(k)));
      }
      if Good() && j < |built.sections| && SectionOk(built.sections[j]) && !may {
        SectionFacts(j);
        if indexValue == EncodeHandle(HandleOf(built.sections[j])) {
          forall e | e in built.sections[j].entries && K.IsInternalKey(e.key)
            ensures K.ExtractUserKey(e.key) != K.ExtractUserKey(k)
          {
            NotDenied(j, e);
          }
        }
      }
    }

    /** Hands the first entry at or after the key to the caller, unless the index or the
        filter shows that the key is not there. */
    method InternalGet(k: Data) returns (saved: Option<Pair>, ok: bool)
      requires Formed() && K.IsInternalKey(k)
      ensures Good() ==> ok && Increasing(Flat(built.sections)) && (saved.Some? ==> saved.value in Flat(built.sections))
      ensures Good() ==> Answer(saved, k) == Lookup(Flat(built.sections), k)
    {
      hide Raw, EncodeHandle, DecodeHandle, BuiltFor, Stored, Good, K.Less, FirstAtOrAfter, Increasing, Lookup, SectionOk, Formed,
           Searchable, K.IsInternalKey, Flat;
      ghost var j := FirstAtOrAfter(K.Less, built.index.entries, k);
      ghost var s := if j < |built.sections| then built.sections[j] else Section(0, [], []);
      if Good() {
        FoundIn(k);
        if j < |built.sections| {
          SectionFacts(j);
        }
      }
      saved := None;
      var indexValue, indexOk := SeekInIndex(k);
      ok := true;
      if indexValue.Some? {
        var may := MayHold(indexValue.value, k, j);
        if may {
          saved, ok := SeekInBlock(indexValue.value, k, s);
        }
      }
      ok := ok && indexOk;
    }
  }

  /** What the caller makes of the entry that it is handed. */
  function Answer(saved: Option<Pair>, k: Data): Option<Pair>
    requires K.IsInternalKey(k)
  {
    if saved.Some? && K.IsInternalKey(saved.value.key) && K.ExtractUserKey(saved.value.key) == K.ExtractUserKey(k)
    then saved else None
  }

  /** Reads the footer and the index block, and the filter of the policy, if any. */
  method Open(file: Data, verifyChecksums: bool, policy: Option<Data>, hash: Data -> nat, ghost name: Data, ghost t: Built)
    returns (table: Table?)
    ensures |file| < FOOTER_LENGTH ==> table == null
    ensures table != null ==> table.Formed() && table.file == file && table.hash == hash && table.built == t
    ensures IsTable(file, name, hash, t) && Small(file, t) && Increasing(Flat(t.sections)) ==>
      table != null && table.Good() && (table.filter.Some? <==> policy == Some(name) && t.filter.Some?)
  {
    hide BuiltFor, Raw, IsTable, Covers, DecodeFooter, Small, Increasing, K.Less, Flat;
    table := null;
    var size := |file|;
    if size < FOOTER_LENGTH {
      TooShort(file, name, hash, t);
      return;
    }
    ghost var good := IsTable(file, name, hash, t) && Small(file, t);
    if good {
      FooterFacts(file, name, hash, t);
    }
    var footer := DecodeFooter(file[size - FOOTER_LENGTH..]);
    if footer.None? {
      return;
    }
    var index := ReadSection(file, verifyChecksums, footer.value.1, t.index);
    if index.None? {
      return;
    }
    var filter := ReadMeta(file, verifyChecksums, footer.value.0, policy, name, hash, t);
    table := new Table(file, verifyChecksums, hash, index.value, filter, name, t);
  }

  lemma TooShort(file: Data, name: Data, hash: Data -> nat, t: Built)
    ensures IsTable(file, name, hash, t) ==> |file| >= FOOTER_LENGTH
  {
    hide BlocksStored, Stored, IndexOrders, IndexShort, IndexPoints, MetaOk, EncodeFooter;
  }

  lemma FooterFacts(file: Data, name: Data, hash: Data -> nat, t: Built)
    requires IsTable(file, name, hash, t) && Small(file, t)
    ensures Stored(file, t.index) && |Raw(t.index)| < TWO_32 && SectionOk(t.meta)
    ensures |file| >= FOOTER_LENGTH
    ensures DecodeFooter(file[|file| - FOOTER_LENGTH..]) == Some((HandleOf(t.meta), HandleOf(t.index)))
  {
    hide Trailer, Raw, IndexOrders, IndexShort, IndexPoints, MetaOk, EncodeFooter, DecodeFooter, BlocksStored;
    assert t.index in t.sections + [t.index, t.meta];
    FooterInverse(HandleOf(t.meta), HandleOf(t.index));
  }
}
