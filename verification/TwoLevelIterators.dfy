/** The iterator over a whole table: an index iterator, and a data iterator over the
    block that it points to. Empty blocks are skipped both ways. */
module TwoLevelIterators {
  import opened InternalKeys
  import opened Bytes
  import opened Blocks
  import opened TableFormat
  import opened Tables
  import K = TableKeys
  import C = Coding
  import B = TableBuilders
  import F = Filters

  lemma {:induction false} SameHandle(table: Table, i: nat, j: nat)
    requires table.Good() && i < |table.built.sections| && j < |table.built.sections|
    ensures SectionOk(table.built.sections[i]) && SectionOk(table.built.sections[j])
    ensures EncodeHandle(HandleOf(table.built.sections[i])) == EncodeHandle(HandleOf(table.built.sections[j])) ==> i == j
  {
    hide EncodeHandle, DecodeHandle, Raw, Stored, SectionOk, IndexOrders, IndexShort, MetaOk, BuiltFor, Flat, Increasing;
    table.SectionFacts(i);
    table.SectionFacts(j);
  }

  /** The last entry of a block. */
  method SeekLast(it: Iter) returns (ghost at: nat)
    requires it.Built() && it.Shape()
    modifies it
    ensures it.corrupted == old(it.corrupted)
    ensures at == (if |it.entries| == 0 then 0 else |it.entries| - 1) && it.Stands(at)
    ensures it.Valid() <==> |it.entries| > 0
  {
    hide BuiltFor, Iter.Stands, Iter.Shape, Iter.Placed;
    it.SeekToLast();
    at := if |it.entries| == 0 then 0 else |it.entries| - 1;
    it.StandsOn(at);
  }

  class TwoLevelIterator {
    const table: Table
    const indexIter: Iter
    var dataIter: Iter?
    var dataBlockHandle: Data
    ghost var block: nat         // where the index iterator is
    ghost var within: nat        // where the data iterator is in that block
    ghost var open: nat          // the block that the data iterator reads

    constructor (table: Table, indexIter: Iter)
      requires table.Good() && Reads(indexIter, K.Less, table.built.index)
      requires indexIter.Stands(|table.built.index.entries|) && !indexIter.corrupted
      ensures this.table == table && this.indexIter == indexIter
      ensures Stands(Total()) && dataIter == null
    {
      hide BuiltFor, Table.Good, EncodeHandle, SectionOk, K.Less, Iter.Stands, Reads, Flat, HandleOf;
      this.table, this.indexIter := table, indexIter;
      dataIter, dataBlockHandle := null, [];
      block, within, open := |table.built.sections|, 0, 0;
      new;
      CountBlocks();
      assert Sections()[..block] == Sections();
    }

    ghost function Sections(): seq<Section> {
      table.built.sections
    }

    ghost function Total(): nat {
      |Flat(Sections())|
    }

    ghost function Repr(): set<object>
      reads this
    {
      {this, indexIter} + if dataIter == null then {} else {dataIter}
    }

    lemma CountBlocks()
      requires table.Good()
      ensures |table.built.index.entries| == |Sections()|
    {
      hide BuiltFor, K.Less, Flat, Stored, Small, MetaOk, IndexShort, IndexPoints, BlocksStored, Increasing, EncodeFooter;
    }

    /** The parts fit together: an open data iterator is over the block of its handle. */
    ghost predicate Inv()
      reads Repr()
    {
      && table.Good() && Reads(indexIter, K.Less, table.built.index) && !indexIter.corrupted
      && (dataIter != null ==>
            && dataIter != indexIter && open < |Sections()| && !dataIter.corrupted
            && Reads(dataIter, K.Less, Sections()[open])
            && SectionOk(Sections()[open]) && dataBlockHandle == EncodeHandle(HandleOf(Sections()[open])))
    }

    /** Index and data iterator stand at `block` and `within`. */
    ghost predicate At()
      reads Repr()
    {
      && block <= |Sections()| && indexIter.Stands(block)
      && if block == |Sections()| then dataIter == null && within == 0
         else dataIter != null && open == block && dataIter.Stands(within) && within <= |Sections()[block].entries|
    }

    /** The entry at this position, in the numbering of the whole table. */
    ghost function Pos(): nat
      requires block <= |Sections()|
      reads this
    {
      |Flat(Sections()[..block])| + within
    }

    /** On entry `n`; on none if `n` is the number of entries. */
    ghost predicate Stands(n: nat)
      reads Repr()
    {
      && Inv() && At() && Pos() == n
      && (block < |Sections()| ==> within < |Sections()[block].entries|)
    }

    predicate Valid()
      reads Repr()
    {
      dataIter != null && dataIter.Valid()
    }

    lemma ValidIs(n: nat)
      requires Stands(n)
      ensures n <= Total() && (Valid() <==> n < Total())
      ensures Valid() ==> dataIter != null && Flat(Sections())[n] == Pair(dataIter.key, dataIter.value)
    {
      hide BuiltFor, Table.Good, EncodeHandle, SectionOk, K.Less, Iter.Stands, Iter.Valid, Iter.Built, Iter.Shape, HandleOf, Flat;
      if block < |Sections()| {
        dataIter.StandsOn(within);
        FlatAt(Sections(), block, within);
      } else {
        assert Sections()[..block] == Sections();
      }
    }

    lemma StandsInv(n: nat)
      requires Stands(n)
      ensures Inv()
    {
      hide Inv;
    }

    /** The data iterator for the block that the index iterator is on; kept if it is
        there already. */
    method InitDataBlock()
      requires Inv() && indexIter.Stands(block) && block <= |Sections()|
      modifies this`dataIter, this`dataBlockHandle, this`open
      ensures Inv() && indexIter.Stands(block)
      ensures if block == |Sections()| then dataIter == null
              else dataIter != null && open == block && (dataIter == old(dataIter) || fresh(dataIter))
    {
      hide BuiltFor, Table.Good, EncodeHandle, K.Less, HandleOf, SectionOk, Iter.Stands, Iter.Valid, Iter.Built, Iter.Shape, Raw,
           DecodeHandle, Stored, Flat;
      CountBlocks();
      indexIter.StandsOn(block);
      if !indexIter.Valid() {
        dataIter := null;
      } else {
        table.SectionFacts(block);
        var handle := indexIter.value;
        if dataIter != null {
          SameHandle(table, block, open);
        }
        if dataIter != null && handle == dataBlockHandle {
          // already there
        } else {
          var ok;
          dataIter, ok := table.BlockReader(handle, Sections()[block]);
          dataBlockHandle := handle;
          open := block;
        }
      }
    }

    /** On to the next block that has entries, from a data iterator that may have run
        past the end of its block. */
    method SkipEmptyDataBlocksForward()
      requires Inv() && At()
      modifies Repr()
      ensures Stands(old(Pos())) && fresh(Repr() - old(Repr()))
    {
      hide BuiltFor, Table.Good, EncodeHandle, K.Less, HandleOf, SectionOk, Iter.Stands, Iter.Built, Iter.Shape, Raw, Stored, Flat,
           Iter.Placed, Iter.Valid;
      ghost var n := Pos();
      while dataIter == null || !dataIter.Valid()
        invariant Inv() && At() && Pos() == n && fresh(Repr() - old(Repr()))
        decreases |Sections()| - block
      {
        CountBlocks();
        indexIter.StandsOn(block);
        if !indexIter.Valid() {
          dataIter := null;
          return;
        }
        dataIter.StandsOn(within);
        FlatTake(Sections(), block);
        indexIter.StandsPlaced(block);
        indexIter.Next(block);
        block, within := block + 1, 0;
        InitDataBlock();
        if dataIter != null {
          dataIter.SeekToFirst();
        }
      }
      dataIter.StandsOn(within);
    }

    /** Where a backward search is: on entry `n`, or before the first entry of a block
        that entry `n` comes just before. */
    ghost predicate Before(n: int)
      reads Repr()
    {
      && Inv() && block <= |Sections()| && indexIter.Stands(block)
      && if block == |Sections()| then dataIter == null && n == -1
         else
           && dataIter != null && open == block
           && if dataIter.Valid() then
                within < |Sections()[block].entries| && dataIter.Stands(within) && Pos() == n
              else |Flat(Sections()[..block])| == n + 1
    }

    method SkipEmptyDataBlocksBackward(ghost n: int)
      requires Before(n)
      modifies Repr()
      ensures fresh(Repr() - old(Repr()))
      ensures n >= -1 && Stands(if n == -1 then Total() else n)
    {
      hide BuiltFor, Table.Good, EncodeHandle, K.Less, HandleOf, SectionOk, Iter.Stands, Iter.Built, Iter.Shape, Raw, Stored, Flat,
           Iter.Placed, Iter.Valid;
      while dataIter == null || !dataIter.Valid()
        invariant Before(n) && fresh(Repr() - old(Repr()))
        decreases if block == |Sections()| then 0 else block + 1
      {
        CountBlocks();
        indexIter.StandsOn(block);
        if !indexIter.Valid() {
          dataIter := null;
          within := 0;
          assert Sections()[..block] == Sections();
          return;
        }
        indexIter.StandsPlaced(block);
        indexIter.Prev(block);
        if block == 0 {
          NoBlocks();
          block := |Sections()|;
        } else {
          block := block - 1;
          FlatTake(Sections(), block);
        }
        InitDataBlock();
        if dataIter != null {
          within := SeekLast(dataIter);
        }
      }
    }

    lemma NoBlocks()
      ensures Flat(Sections()[..0]) == []
    {
    }

    method SeekToFirst()
      requires Inv()
      modifies Repr()
      ensures Stands(0) && fresh(Repr() - old(Repr()))
    {
      hide BuiltFor, Table.Good, EncodeHandle, K.Less, HandleOf, SectionOk, Iter.Stands, Iter.Built, Iter.Shape, Raw, Stored, Flat,
           Iter.Placed, Iter.Valid;
      indexIter.SeekToFirst();
      block, within := 0, 0;
      NoBlocks();
      InitDataBlock();
      if dataIter != null {
        dataIter.SeekToFirst();
      }
      SkipEmptyDataBlocksForward();
    }

    method SeekToLast()
      requires Inv()
      modifies Repr()
      ensures Stands(if Total() == 0 then 0 else Total() - 1) && fresh(Repr() - old(Repr()))
    {
      hide BuiltFor, Table.Good, EncodeHandle, K.Less, HandleOf, SectionOk, Iter.Stands, Iter.Built, Iter.Shape, Raw, Stored, Flat,
           Iter.Placed, Iter.Valid;
      CountBlocks();
      indexIter.SeekToLast();
      block := if |Sections()| == 0 then 0 else |Sections()| - 1;
      InitDataBlock();
      if dataIter != null {
        within := SeekLast(dataIter);
        FlatTake(Sections(), block);
        assert Sections()[..block + 1] == Sections();
      } else {
        NoBlocks();
        assert Sections()[..0] == Sections();
      }
      SkipEmptyDataBlocksBackward(Total() - 1);
    }

    method Next(ghost n: nat)
      requires Stands(n) && Valid()
      modifies Repr()
      ensures Stands(n + 1) && fresh(Repr() - old(Repr()))
    {
      hide BuiltFor, Table.Good, EncodeHandle, K.Less, HandleOf, SectionOk, Iter.Stands, Iter.Built, Iter.Shape, Raw, Stored, Flat,
           Iter.Placed, Iter.Valid;
      dataIter.StandsOn(within);
      dataIter.StandsPlaced(within);
      dataIter.Next(within);
      within := within + 1;
      SkipEmptyDataBlocksForward();
    }

    method Prev(ghost n: nat)
      requires Stands(n) && Valid()
      modifies Repr()
      ensures Stands(if n == 0 then Total() else n - 1) && fresh(Repr() - old(Repr()))
    {
      hide BuiltFor, Table.Good, EncodeHandle, K.Less, HandleOf, SectionOk, Iter.Stands, Iter.Built, Iter.Shape, Raw, Stored, Flat,
           Iter.Placed, Iter.Valid;
      dataIter.StandsOn(within);
      dataIter.StandsPlaced(within);
      dataIter.Prev(within);
      if within == 0 {
        dataIter.StandsOn(|Sections()[block].entries|);
      } else {
        within := within - 1;
        dataIter.StandsOn(within);
      }
      SkipEmptyDataBlocksBackward(n - 1);
    }

    /** The first entry at or after the target. */
    method Seek(target: Data)
      requires Inv() && K.IsInternalKey(target)
      modifies Repr()
      ensures Stands(FirstAtOrAfter(K.Less, Flat(Sections()), target)) && fresh(Repr() - old(Repr()))
    {
      hide BuiltFor, Table.Good, EncodeHandle, K.Less, HandleOf, SectionOk, Iter.Stands, Iter.Built, Iter.Shape, Raw, Stored, Flat,
           Iter.Placed, Iter.Valid, FirstAtOrAfter, Searchable;
      table.IndexFacts(target);
      table.SeekFacts(target);
      indexIter.Seek(target);
      block := FirstAtOrAfter(K.Less, table.built.index.entries, target);
      within := 0;
      InitDataBlock();
      if dataIter != null {
        dataIter.Seek(target);
        within := FirstAtOrAfter(K.Less, Sections()[block].entries, target);
      }
      SkipEmptyDataBlocksForward();
    }
  }

  /** The iterator of a table; on no entry yet. */
  method NewIterator(table: Table) returns (it: TwoLevelIterator)
    requires table.Good()
    ensures it.table == table && it.Stands(it.Total()) && fresh(it.Repr())
  {
    hide BuiltFor, Table.Good, K.Less, Iter.Stands, Iter.Built, Iter.Shape, Reads, TwoLevelIterator.Stands, Flat;
    IndexThere(table);
    var indexIter := NewBlockIterator(K.Less, table.indexBlock, table.built.index);
    it := new TwoLevelIterator(table, indexIter);
  }

  lemma IndexThere(table: Table)
    requires table.Good()
    ensures table.indexBlock.Some? && LayoutOk(table.indexBlock.value)
    ensures BuiltFor(table.indexBlock.value, table.built.index.starts, table.built.index.entries)
  {
    hide Flat, IsTable, Small, Increasing;
  }

  // ---------------------------------------------------------------- a table, written and read

  /** Writes the entries. */
  method WriteTable(entries: seq<Pair>, blockSize: nat, restartInterval: nat, name: Data, hash: Data -> nat,
                    bitsPerKey: Option<nat>, k: nat) returns (file: Data, ghost t: Built)
    requires Increasing(entries) && Fits(entries) && restartInterval >= 1 && 1 <= k <= 30 && |name| < 256
    ensures IsTable(file, name, hash, t) && Flat(t.sections) == entries && (t.filter.Some? <==> bitsPerKey.Some?)
  {
    hide B.Chained, B.FilterFollows, BlocksStored, IsTable, K.Less, BlockBuilder.Valid, F.FilterBlockBuilder.Valid, Flat;
    var builder := new B.TableBuilder(blockSize, restartInterval, name, hash, bitsPerKey, k);
    for i := 0 to |entries|
      invariant builder.Valid() && !builder.closed && builder.entries == entries[..i]
      invariant builder.name == name && builder.hash == hash && (builder.filterBlock == null <==> bitsPerKey == None)
      invariant fresh(builder.Repr())
    {
      builder.Add(entries[i].key, entries[i].value);
    }
    t := builder.Finish();
    file := builder.file;
    assert entries[..|entries|] == entries;
  }

  /** A lookup in a table that was written finds exactly what the entries say, with the
      filter and without it. */
  method WriteThenGet(entries: seq<Pair>, blockSize: nat, restartInterval: nat, name: Data, hash: Data -> nat,
                      bitsPerKey: Option<nat>, k: nat, policy: Option<Data>, verifyChecksums: bool, key: Data)
    returns (file: Data, found: Option<Pair>, ok: bool, ghost t: Built)
    requires Increasing(entries) && Fits(entries) && restartInterval >= 1 && 1 <= k <= 30 && |name| < 256
    requires K.IsInternalKey(key)
    ensures IsTable(file, name, hash, t) && Flat(t.sections) == entries
    ensures Small(file, t) ==> ok && found == Lookup(entries, key)
    ensures |file| < C.TWO_32 ==> ok && found == Lookup(entries, key)
  {
    hide IsTable, K.Less, Flat, Table.Good, Table.Formed, Small, Lookup;
    file, t := WriteTable(entries, blockSize, restartInterval, name, hash, bitsPerKey, k);
    if |file| < C.TWO_32 {
      SmallFile(file, name, hash, t);
    }
    var table := Open(file, verifyChecksums, policy, hash, name, t);
    if table == null {
      return file, None, false, t;
    }
    var saved;
    saved, ok := table.InternalGet(key);
    found := Answer(saved, key);
  }

  /** All blocks of a file below 4 GB are below 4 GB. */
  lemma SmallFile(file: Data, name: Data, hash: Data -> nat, t: Built)
    requires IsTable(file, name, hash, t) && |file| < C.TWO_32
    ensures Small(file, t)
  {
    hide IndexOrders, IndexShort, IndexPoints, BlocksCovered, BlockBytes, EncodeFooter, EncodeHandle, Trailer, RestartsOk;
    forall s | s in t.sections + [t.index, t.meta]
      ensures SectionOk(s) && |Raw(s)| < C.TWO_32
    {
      assert Stored(file, s);
    }
  }

  /** Forwards and backwards, the iterator yields exactly the entries. */
  method ScanForward(table: Table) returns (all: seq<Pair>)
    requires table.Good()
    ensures all == Flat(table.built.sections)
  {
    hide Table.Good, Flat, TwoLevelIterator.Stands, TwoLevelIterator.Valid, TwoLevelIterator.Inv, Iter.Stands;
    var it := NewIterator(table);
    it.StandsInv(it.Total());
    it.SeekToFirst();
    all := [];
    it.ValidIs(0);
    while it.Valid()
      invariant fresh(it.Repr()) && |all| <= it.Total() && it.Stands(|all|)
      invariant all == Flat(table.built.sections)[..|all|]
      invariant it.Valid() <==> |all| < it.Total()
      decreases it.Total() - |all|
    {
      it.ValidIs(|all|);
      var p := Pair(it.dataIter.key, it.dataIter.value);
      it.Next(|all|);
      all := all + [p];
      it.ValidIs(|all|);
    }
    assert all == Flat(table.built.sections);
  }

  method ScanBackward(table: Table) returns (all: seq<Pair>)
    requires table.Good()
    ensures all == Flat(table.built.sections)
  {
    hide Table.Good, Flat, TwoLevelIterator.Stands, TwoLevelIterator.Valid, TwoLevelIterator.Inv, Iter.Stands;
    var it := NewIterator(table);
    it.StandsInv(it.Total());
    it.SeekToLast();
    all := [];
    ghost var n: nat := it.Total();
    ghost var at: nat := if n == 0 then 0 else n - 1;
    it.ValidIs(at);
    while it.Valid()
      invariant fresh(it.Repr()) && n <= it.Total() && it.Stands(at)
      invariant all == Flat(table.built.sections)[n..]
      invariant if n == 0 then at == it.Total() else at == n - 1
      invariant it.Valid() <==> n > 0
      decreases n
    {
      it.ValidIs(at);
      var p := Pair(it.dataIter.key, it.dataIter.value);
      it.Prev(at);
      all := [p] + all;
      n := n - 1;
      at := if n == 0 then it.Total() else n - 1;
      it.ValidIs(at);
    }
  }
}
