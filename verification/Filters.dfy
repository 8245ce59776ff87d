/** Bloom filters, and the filter block that holds one for every two kilobytes of
    table data. */
module Filters {
  import opened InternalKeys
  import opened Crc32c
  import opened Bytes
  import opened Coding

  // ---------------------------------------------------------------- bits of a byte

  function BitMask(k: nat): Octet
    requires k < 8
  {
    if k == 0 then 1 else if k == 1 then 2 else if k == 2 then 4 else if k == 3 then 8
    else if k == 4 then 16 else if k == 5 then 32 else if k == 6 then 64 else 128
  }

  function Or(a: Octet, b: Octet): Octet { a | b }

  function And(a: Octet, b: Octet): Octet { a & b }

  predicate HasBit(b: byte, k: nat)
    requires k < 8
  {
    And(b as Octet, BitMask(k)) != 0
  }

  function WithBit(b: byte, k: nat): byte
    requires k < 8
  {
    Or(b as Octet, BitMask(k)) as byte
  }

  lemma SetBit(b: byte, k: nat)
    requires k < 8
    ensures HasBit(WithBit(b, k), k)
    ensures forall j :: 0 <= j < 8 && HasBit(b, j) ==> HasBit(WithBit(b, k), j)
  {
    hide BitMask, Or, And;
    var o := b as Octet;
    OctetInverse(Or(o, BitMask(k)));
    MaskNotZero(k);
    OrHas(o, BitMask(k));
    forall j | 0 <= j < 8 && HasBit(b, j)
      ensures HasBit(WithBit(b, k), j)
    {
      OrKeeps(o, BitMask(k), BitMask(j));
    }
  }

  lemma MaskNotZero(k: nat)
    requires k < 8
    ensures BitMask(k) != 0
  {
  }

  lemma OrHas(o: Octet, m: Octet)
    requires m != 0
    ensures And(Or(o, m), m) != 0
  {
    calc {
      And(Or(o, m), m);
      (o | m) & m;
      m;
    }
  }

  lemma OrKeeps(o: Octet, m: Octet, n: Octet)
    requires And(o, n) != 0
    ensures And(Or(o, m), n) != 0
  {
    calc {
      And(Or(o, m), n);
      (o | m) & n;
      (o & n) | (m & n);
    }
    OrNotZero(o & n, m & n);
  }

  lemma OrNotZero(x: Octet, y: Octet)
    requires x != 0
    ensures x | y != 0
  {
  }

  // ---------------------------------------------------------------- the bloom filter

  /** The hash turned right by 17 bits: the step of the double hashing. */
  function Delta(h: nat): nat {
    h / 0x2_0000 + (h * 0x8000) % TWO_32
  }

  /** The hash after `j` steps. */
  function HashAt(h: nat, j: nat): nat {
    if j == 0 then h else (HashAt(h, j - 1) + Delta(h)) % TWO_32
  }

  predicate BitSet(bits: Data, pos: nat)
    requires pos < 8 * |bits|
  {
    HasBit(bits[pos / 8], pos % 8)
  }

  /** The first `n` probes for the hash hit. */
  ghost predicate ProbesHit(bits: Data, h: nat, n: nat) {
    bits != [] ==> forall j :: 0 <= j < n ==> BitSet(bits, HashAt(h, j) % (8 * |bits|))
  }

  /** Reserved probe counts always match; a filter of less than two bytes never does. */
  ghost predicate Matches(filter: Data, h: nat) {
    && |filter| >= 2
    && (filter[|filter| - 1] as nat > 30 || ProbesHit(filter[..|filter| - 1], h, filter[|filter| - 1] as nat))
  }

  lemma PosInRange(x: nat, bits: nat)
    requires bits > 0
    ensures x % (8 * bits) < 8 * bits && (x % (8 * bits)) / 8 < bits
  {
  }

  method SetProbe(bits: Data, pos: nat) returns (r: Data)
    requires pos < 8 * |bits|
    ensures |r| == |bits| && BitSet(r, pos)
    ensures forall p :: 0 <= p < 8 * |bits| && BitSet(bits, p) ==> BitSet(r, p)
  {
    SetBit(bits[pos / 8], pos % 8);
    r := bits[pos / 8 := WithBit(bits[pos / 8], pos % 8)];
  }

  /** All probes for one hash. */
  method AddHash(bits: Data, h0: nat, k: nat) returns (r: Data)
    requires bits != []
    ensures |r| == |bits| && ProbesHit(r, h0, k)
    ensures forall p :: 0 <= p < 8 * |bits| && BitSet(bits, p) ==> BitSet(r, p)
  {
    hide BitSet;
    var h := h0;
    var delta := Delta(h0);
    r := bits;
    for j := 0 to k
      invariant |r| == |bits| && h == HashAt(h0, j) && ProbesHit(r, h0, j)
      invariant forall p :: 0 <= p < 8 * |bits| && BitSet(bits, p) ==> BitSet(r, p)
    {
      PosInRange(h, |bits|);
      r := SetProbe(r, h % (8 * |bits|));
      h := (h + delta) % TWO_32;
    }
  }

  lemma ProbesStay(bits: Data, r: Data, h: nat, k: nat)
    requires |r| == |bits| && ProbesHit(bits, h, k)
    requires forall p :: 0 <= p < 8 * |bits| && BitSet(bits, p) ==> BitSet(r, p)
    ensures ProbesHit(r, h, k)
  {
    hide BitSet;
    if bits != [] {
      forall j | 0 <= j < k
        ensures BitSet(r, HashAt(h, j) % (8 * |r|))
      {
        PosInRange(HashAt(h, j), |bits|);
      }
    }
  }

  /** A filter over some keys' hashes: every one of them matches. */
  method CreateFilter(hashes: seq<nat>, bitsPerKey: nat, k: nat) returns (filter: Data)
    requires 1 <= k <= 30
    ensures forall i :: 0 <= i < |hashes| ==> Matches(filter, hashes[i])
    ensures |filter| >= 9 && |filter| <= 10 + |hashes| * bitsPerKey
  {
    hide ProbesHit;
    var size := |hashes| * bitsPerKey;
    if size < 64 {
      size := 64;
    }
    var bytes := (size + 7) / 8;
    var bits := seq(bytes, _ => 0 as byte);
    for i := 0 to |hashes|
      invariant |bits| == bytes
      invariant forall j :: 0 <= j < i ==> ProbesHit(bits, hashes[j], k)
    {
      ghost var before := bits;
      bits := AddHash(bits, hashes[i], k);
      forall j | 0 <= j < i
        ensures ProbesHit(bits, hashes[j], k)
      {
        ProbesStay(before, bits, hashes[j], k);
      }
    }
    filter := bits + [k as byte];
    assert filter[..|filter| - 1] == bits;
  }

  lemma NextProbe(bits: Data, h: nat, j: nat)
    requires bits != []
    ensures HashAt(h, j) % (8 * |bits|) < 8 * |bits|
    ensures ProbesHit(bits, h, j) && BitSet(bits, HashAt(h, j) % (8 * |bits|)) ==> ProbesHit(bits, h, j + 1)
    ensures forall n :: n > j && !BitSet(bits, HashAt(h, j) % (8 * |bits|)) ==> !ProbesHit(bits, h, n)
  {
    hide BitSet;
    PosInRange(HashAt(h, j), |bits|);
  }

  method KeyMayMatch(h0: nat, filter: Data) returns (r: bool)
    ensures r <==> Matches(filter, h0)
  {
    hide ProbesHit, BitSet, Delta;
    var len := |filter|;
    if len < 2 {
      return false;
    }
    var bits := filter[..len - 1];
    var k := filter[len - 1] as nat;
    if k > 30 {
      return true;
    }
    NoProbe(bits, h0);
    var h := h0;
    var delta := Delta(h0);
    for j := 0 to k
      invariant h == HashAt(h0, j) && ProbesHit(bits, h0, j)
    {
      NextProbe(bits, h0, j);
      if !BitSet(bits, h % (8 * |bits|)) {
        return false;
      }
      h := (h + delta) % TWO_32;
    }
    r := true;
  }

  lemma NoProbe(bits: Data, h: nat)
    ensures ProbesHit(bits, h, 0)
  {
  }

  // ---------------------------------------------------------------- the filter block

  const FILTER_BASE_LG := 11
  const FILTER_BASE := 2048

  /** Collects keys (by their hashes) and turns them into one filter per 2 KB. */
  class FilterBlockBuilder {
    const bitsPerKey: nat
    const k: nat
    var pending: seq<nat>          // hashes of the keys since the last filter
    var result: Data
    var filterOffsets: seq<nat>
    ghost var covered: seq<seq<nat>>

    constructor (bitsPerKey: nat, k: nat)
      requires 1 <= k <= 30
      ensures Valid() && covered == [] && pending == []
    {
      this.bitsPerKey, this.k := bitsPerKey, k;
      pending, result, filterOffsets, covered := [], [], [], [];
    }

    /** Where filter `i` ends. */
    function LimitOf(i: nat): nat
      requires i < |filterOffsets|
      reads this
    {
      if i + 1 < |filterOffsets| then filterOffsets[i + 1] else |result|
    }

    ghost predicate Valid()
      reads this
    {
      && 1 <= k <= 30 && |covered| == |filterOffsets|
      && (forall i :: 0 <= i < |filterOffsets| ==> filterOffsets[i] <= LimitOf(i) <= |result|)
      && (forall i, h :: 0 <= i < |covered| && h in covered[i] ==> Matches(result[filterOffsets[i]..LimitOf(i)], h))
    }

    /** The keys to come belong to the block at this offset. */
    method StartBlock(blockOffset: nat)
      requires Valid() && |covered| <= blockOffset / FILTER_BASE
      modifies this
      ensures Valid() && |covered| == blockOffset / FILTER_BASE
      ensures old(covered) <= covered
      ensures if |covered| == |old(covered)| then pending == old(pending)
              else covered[|old(covered)|] == old(pending) && pending == []
    {
      hide Matches;
      var filterIndex := blockOffset / FILTER_BASE;
      while filterIndex > |filterOffsets|
        invariant Valid() && |filterOffsets| <= filterIndex
        invariant old(covered) <= covered
        invariant if |covered| == |old(covered)| then pending == old(pending)
                  else covered[|old(covered)|] == old(pending) && pending == []
        decreases filterIndex - |filterOffsets|
      {
        GenerateFilter();
      }
    }

    method AddKey(h: nat)
      requires Valid()
      modifies this`pending
      ensures Valid() && pending == old(pending) + [h]
    {
      pending := pending + [h];
    }

    method GenerateFilter()
      requires Valid()
      modifies this
      ensures Valid() && pending == [] && covered == old(covered) + [old(pending)]
      ensures |filterOffsets| == |old(filterOffsets)| + 1
    {
      hide Matches;
      ghost var before := result;
      ghost var offsets := filterOffsets;
      if pending == [] {
        filterOffsets := filterOffsets + [|result|];
        covered := covered + [[]];
        OldFilters(before, offsets, result);
        return;
      }
      filterOffsets := filterOffsets + [|result|];
      var filter := CreateFilter(pending, bitsPerKey, k);
      result := result + filter;
      covered := covered + [pending];
      OldFilters(before, offsets, result);
      assert result[|before|..|result|] == filter;
      pending := [];
    }

    /** Filters made before are where they were. */
    lemma OldFilters(before: Data, offsets: seq<nat>, after: Data)
      requires before <= after
      ensures forall i, j :: 0 <= i <= j <= |before| ==> before[i..j] == after[i..j]
    {
    }

    /** The filters, where they start, where that array starts, and the base. */
    method Finish() returns (block: Data)
      requires Valid()
      modifies this
      ensures Valid()
      ensures covered == old(covered) + if old(pending) == [] then [] else [old(pending)]
      ensures block == result + FixedList(filterOffsets + [|result|]) + [FILTER_BASE_LG as byte]
    {
      hide Matches, FixedList, Fixed;
      if pending != [] {
        GenerateFilter();
      }
      var list := PutOffsets(filterOffsets);
      block := result + list;
      ListSnoc(filterOffsets, |result|);
      block := block + Fixed(|result|, 4);
      block := block + [FILTER_BASE_LG as byte];
    }
  }

  method PutOffsets(offsets: seq<nat>) returns (list: Data)
    ensures list == FixedList(offsets)
  {
    hide Fixed, FixedList;
    list := [];
    NoValues();
    for i := 0 to |offsets|
      invariant list == FixedList(offsets[..i])
    {
      ListSnoc(offsets[..i], offsets[i]);
      assert offsets[..i + 1] == offsets[..i] + [offsets[i]];
      list := list + Fixed(offsets[i], 4);
    }
    assert offsets[..|offsets|] == offsets;
  }

  lemma NoValues()
    ensures FixedList([]) == []
  {
  }

  lemma ListSnoc(values: seq<nat>, v: nat)
    ensures FixedList(values + [v]) == FixedList(values) + Fixed(v, 4)
  {
    assert (values + [v])[..|values|] == values;
  }

  // ---------------------------------------------------------------- reading the filter block

  /** A filter block as it was read; without filters if its size cannot be right. */
  datatype FilterReader = FilterReader(data: Data, offsets: nat, num: nat, baseLg: nat)

  ghost predicate ReaderOk(r: FilterReader) {
    r.num > 0 ==> r.offsets + 4 * r.num + 5 <= |r.data|
  }

  method OpenFilterBlock(contents: Data) returns (r: FilterReader)
    ensures ReaderOk(r)
    ensures |contents| >= 5 && FixedValue(contents[|contents| - 5..|contents| - 1]) <= |contents| - 5 ==>
      r == FilterReader(contents, FixedValue(contents[|contents| - 5..|contents| - 1]),
                        (|contents| - 5 - FixedValue(contents[|contents| - 5..|contents| - 1])) / 4,
                        contents[|contents| - 1] as nat)
  {
    var n := |contents|;
    if n < 5 {
      return FilterReader([], 0, 0, 0);
    }
    var baseLg := contents[n - 1] as nat;
    var lastWord := FixedValue(contents[n - 5..n - 1]);
    if lastWord > n - 5 {
      return FilterReader([], 0, 0, baseLg);
    }
    r := FilterReader(contents, lastWord, (n - 5 - lastWord) / 4, baseLg);
  }

  function ShiftRight(x: nat, n: nat): nat {
    if n == 0 then x else ShiftRight(x / 2, n - 1)
  }

  lemma ShiftByBase(x: nat)
    ensures ShiftRight(x, FILTER_BASE_LG) == x / FILTER_BASE
  {
    ShiftFour(x);
    ShiftFour(x / 16);
    assert ShiftRight(x, 11) == ShiftRight(x / 16, 7);
    assert ShiftRight(x / 16, 7) == ShiftRight(x / 16 / 16, 3);
    assert ShiftRight(x / 16 / 16, 3) == x / 16 / 16 / 8;
  }

  lemma ShiftFour(x: nat)
    ensures forall n: nat :: n >= 4 ==> ShiftRight(x, n) == ShiftRight(x / 16, n - 4)
  {
    forall n: nat | n >= 4
      ensures ShiftRight(x, n) == ShiftRight(x / 16, n - 4)
    {
      assert ShiftRight(x, n) == ShiftRight(x / 2, n - 1);
      assert ShiftRight(x / 2, n - 1) == ShiftRight(x / 2 / 2, n - 2);
      assert ShiftRight(x / 2 / 2, n - 2) == ShiftRight(x / 2 / 2 / 2, n - 3);
      assert x / 2 / 2 / 2 / 2 == x / 16;
    }
  }

  function OffsetAt(r: FilterReader, index: nat): nat
    requires r.offsets + 4 * index + 4 <= |r.data|
  {
    FixedValue(r.data[r.offsets + 4 * index..r.offsets + 4 * index + 4])
  }

  /** The filter for this offset matches the hash. Offsets that make no sense match,
      an empty filter does not. */
  ghost predicate Admits(r: FilterReader, blockOffset: nat, h: nat) {
    && ReaderOk(r)
    && var index := ShiftRight(blockOffset, r.baseLg);
       index < r.num ==>
         var start, limit := OffsetAt(r, index), OffsetAt(r, index + 1);
         if start <= limit <= r.offsets then Matches(r.data[start..limit], h) else start != limit
  }

  /** May the block at this offset hold the key? */
  method FilterMayMatch(r: FilterReader, blockOffset: nat, h: nat) returns (may: bool)
    requires ReaderOk(r)
    ensures may <==> Admits(r, blockOffset, h)
  {
    hide Matches, FixedValue, ShiftRight;
    var index := ShiftRight(blockOffset, r.baseLg);
    if index < r.num {
      var start, limit := OffsetAt(r, index), OffsetAt(r, index + 1);
      if start <= limit && limit <= r.offsets {
        may := KeyMayMatch(h, r.data[start..limit]);
        return;
      } else if start == limit {
        return false;
      }
    }
    may := true;
  }

  /** The block is a finished one: filter `i` covers the hashes `covered[i]`. */
  ghost predicate Covers(r: FilterReader, covered: seq<seq<nat>>) {
    && ReaderOk(r) && r.baseLg == FILTER_BASE_LG && r.num == |covered|
    && forall i, h :: 0 <= i < |covered| && h in covered[i] ==>
         && OffsetAt(r, i) <= OffsetAt(r, i + 1) <= r.offsets
         && Matches(r.data[OffsetAt(r, i)..OffsetAt(r, i + 1)], h)
  }

  /** Opening what the builder finished gives its filters. */
  method OpenFinished(builder: FilterBlockBuilder, block: Data) returns (r: FilterReader)
    requires builder.Valid() && |block| < TWO_32
    requires block == builder.result + FixedList(builder.filterOffsets + [|builder.result|]) + [FILTER_BASE_LG as byte]
    ensures Covers(r, builder.covered)
  {
    r := OpenFilterBlock(block);
    FinishedLayout(builder.result, builder.filterOffsets, block);
    FinishedCovers(builder, block);
  }

  lemma FinishedLayout(result: Data, offsets: seq<nat>, block: Data)
    requires block == result + FixedList(offsets + [|result|]) + [FILTER_BASE_LG as byte]
    requires |block| < TWO_32
    ensures |block| == |result| + 4 * |offsets| + 5 && block[..|result|] == result
    ensures FixedValue(block[|block| - 5..|block| - 1]) == |result|
    ensures block[|block| - 1] as nat == FILTER_BASE_LG
  {
    hide Fixed, FixedValue, FixedList;
    FixedListAt(offsets + [|result|], |offsets|);
    FinishedOffset(result, offsets, |offsets|);
    LastOffset(block, |result|, |offsets|);
  }

  lemma LastOffset(block: Data, n: nat, k: nat)
    requires |block| == n + 4 * k + 5
    ensures block[|block| - 5..|block| - 1] == block[n + 4 * k..n + 4 * k + 4]
  {
  }

  lemma FinishedOffset(result: Data, offsets: seq<nat>, i: nat)
    requires i <= |offsets| && (offsets + [|result|])[i] <= |result| < TWO_32
    ensures
      var block := result + FixedList(offsets + [|result|]) + [FILTER_BASE_LG as byte];
      && |result| + 4 * i + 4 <= |block|
      && FixedValue(block[|result| + 4 * i..|result| + 4 * i + 4]) == (offsets + [|result|])[i]
  {
    hide Fixed, FixedValue, FixedList;
    var values := offsets + [|result|];
    FixedListAt(values, i);
    ListItem(result, FixedList(values), [FILTER_BASE_LG as byte], 4 * i, values[i]);
  }

  /** A number in the middle of a block. */
  lemma ListItem(a: Data, list: Data, b: Data, at: nat, v: nat)
    requires at + 4 <= |list| && list[at..at + 4] == Fixed(v, 4) && v < TWO_32
    ensures FixedValue((a + list + b)[|a| + at..|a| + at + 4]) == v
  {
    hide Fixed, FixedValue;
    Powers();
    FixedInverse(v, 4);
    assert (a + list + b)[|a| + at..|a| + at + 4] == list[at..at + 4];
  }

  lemma FinishedCovers(builder: FilterBlockBuilder, block: Data)
    requires builder.Valid() && |block| < TWO_32
    requires block == builder.result + FixedList(builder.filterOffsets + [|builder.result|]) + [FILTER_BASE_LG as byte]
    ensures Covers(FilterReader(block, |builder.result|, |builder.filterOffsets|, FILTER_BASE_LG), builder.covered)
  {
    hide Matches, FixedList, FixedValue, OffsetAt;
    FinishedLayout(builder.result, builder.filterOffsets, block);
    var r := FilterReader(block, |builder.result|, |builder.filterOffsets|, FILTER_BASE_LG);
    forall i, h | 0 <= i < |builder.covered| && h in builder.covered[i]
      ensures OffsetAt(r, i) <= OffsetAt(r, i + 1) <= r.offsets
      ensures Matches(r.data[OffsetAt(r, i)..OffsetAt(r, i + 1)], h)
    {
      ReadOffset(builder, block, i);
      ReadOffset(builder, block, i + 1);
      assert block[OffsetAt(r, i)..OffsetAt(r, i + 1)] == builder.result[OffsetAt(r, i)..OffsetAt(r, i + 1)];
    }
  }

  /** The reader finds the builder's offsets. */
  lemma ReadOffset(builder: FilterBlockBuilder, block: Data, i: nat)
    requires builder.Valid() && |block| < TWO_32 && i <= |builder.filterOffsets|
    requires block == builder.result + FixedList(builder.filterOffsets + [|builder.result|]) + [FILTER_BASE_LG as byte]
    ensures |builder.result| + 4 * i + 4 <= |block|
    ensures OffsetAt(FilterReader(block, |builder.result|, |builder.filterOffsets|, FILTER_BASE_LG), i)
         == (builder.filterOffsets + [|builder.result|])[i]
  {
    hide Matches, FixedList, FixedValue;
    assert i < |builder.filterOffsets| ==> builder.filterOffsets[i] <= builder.LimitOf(i);
    FinishedOffset(builder.result, builder.filterOffsets, i);
  }

  /** No key is ever denied by the filter of its block. */
  lemma CoveredIsAdmitted(r: FilterReader, covered: seq<seq<nat>>, blockOffset: nat, h: nat)
    requires Covers(r, covered)
    requires blockOffset / FILTER_BASE < |covered| ==> h in covered[blockOffset / FILTER_BASE]
    ensures Admits(r, blockOffset, h)
  {
    hide Matches, OffsetAt, ShiftRight;
    ShiftByBase(blockOffset);
  }
}
