/** Blocks: prefix-compressed entries with restart points, the builder that writes
    them and the iterator that reads them in both directions. */
module Blocks {
  import opened InternalKeys
  import opened Bytes
  import opened Coding

  datatype Pair = Pair(key: Data, value: Data)

  // ---------------------------------------------------------------- the format

  function CommonPrefix(a: Data, b: Data): (n: nat)
    ensures n <= |a| && n <= |b| && a[..n] == b[..n]
  {
    if a == [] || b == [] || a[0] != b[0] then 0
    else
      var n := CommonPrefix(a[1..], b[1..]);
      assert a[..n + 1] == [a[0]] + a[1..][..n] && b[..n + 1] == [b[0]] + b[1..][..n];
      1 + n
  }

  /** Which entries are restart points: the first one, and then each one that comes
      `interval` after the last restart point. */
  function Restarts(interval: nat, n: nat): (r: seq<nat>)
    ensures r != []
  {
    if n == 0 then [0]
    else
      var r := Restarts(interval, n - 1);
      if n - 1 - r[|r| - 1] >= interval && n > 1 then r + [n - 1] else r
  }

  /** Restart points of `n` entries: increasing, the first entry among them. */
  ghost predicate RestartsOk(s: seq<nat>, n: nat) {
    && s != [] && s[0] == 0
    && (forall i, j :: 0 <= i < j < |s| ==> s[i] < s[j])
    && (forall i :: 0 < i < |s| ==> s[i] < n)
  }

  /** A restart point shares nothing with the key before it. */
  function Shared(s: seq<nat>, entries: seq<Pair>, i: nat): (n: nat)
    requires i < |entries|
    ensures n <= |entries[i].key|
    ensures i > 0 ==> n <= |entries[i - 1].key| && entries[i - 1].key[..n] == entries[i].key[..n]
    ensures i == 0 || i in s ==> n == 0
  {
    if i == 0 || i in s then 0 else CommonPrefix(entries[i - 1].key, entries[i].key)
  }

  function EntryBytes(key: Data, value: Data, shared: nat): (r: Data)
    requires shared <= |key|
    ensures |r| >= 3
  {
    Varint(shared) + Varint(|key| - shared) + Varint(|value|) + key[shared..] + value
  }

  /** The first `n` entries. */
  function DataBytes(s: seq<nat>, entries: seq<Pair>, n: nat): Data
    requires n <= |entries|
  {
    if n == 0 then []
    else DataBytes(s, entries, n - 1)
         + EntryBytes(entries[n - 1].key, entries[n - 1].value, Shared(s, entries, n - 1))
  }

  function Offset(s: seq<nat>, entries: seq<Pair>, i: nat): nat
    requires i <= |entries|
  {
    |DataBytes(s, entries, i)|
  }

  lemma {:induction false} OffsetsIncrease(s: seq<nat>, entries: seq<Pair>, i: nat, j: nat)
    requires i <= j <= |entries|
    ensures Offset(s, entries, i) <= Offset(s, entries, j)
    ensures i < j ==> Offset(s, entries, i) < Offset(s, entries, j)
  {
    hide EntryBytes, Shared;
    if i < j {
      OffsetsIncrease(s, entries, i, j - 1);
    }
  }

  /** Entry `i` stands at its offset. */
  lemma {:induction false} EntryAt(s: seq<nat>, entries: seq<Pair>, i: nat, n: nat)
    requires i < n <= |entries|
    ensures
      var e := EntryBytes(entries[i].key, entries[i].value, Shared(s, entries, i));
      && Offset(s, entries, i) + |e| == Offset(s, entries, i + 1) <= |DataBytes(s, entries, n)|
      && DataBytes(s, entries, n)[Offset(s, entries, i)..] == e + DataBytes(s, entries, n)[Offset(s, entries, i + 1)..]
  {
    hide EntryBytes, Shared;
    OffsetsIncrease(s, entries, i + 1, n);
    if i + 1 < n {
      EntryAt(s, entries, i, n - 1);
      OffsetsIncrease(s, entries, i + 1, n - 1);
      var last := EntryBytes(entries[n - 1].key, entries[n - 1].value, Shared(s, entries, n - 1));
      var before := DataBytes(s, entries, n - 1);
      SuffixOfConcat(before, last, Offset(s, entries, i));
      SuffixOfConcat(before, last, Offset(s, entries, i + 1));
    } else {
      var e := EntryBytes(entries[i].key, entries[i].value, Shared(s, entries, i));
      assert DataBytes(s, entries, n) == DataBytes(s, entries, i) + e;
    }
  }

  lemma SuffixOfConcat(a: Data, b: Data, i: nat)
    requires i <= |a|
    ensures (a + b)[i..] == a[i..] + b
  {
  }

  // ---------------------------------------------------------------- decoding an entry's header

  datatype Header = Header(shared: nat, nonShared: nat, valueLength: nat, rest: Data)

  /** Three varints, and enough bytes behind them for the sum of two, in 32 bits. */
  function DecodeSpec(input: Data): (r: Option<Header>)
    ensures r.Some? ==> |r.value.rest| < |input|
  {
    var a := GetVarint32(input);
    if a.None? then None
    else
      var b := GetVarint32(a.value.rest);
      if b.None? then None
      else
        var c := GetVarint32(b.value.rest);
        if c.None? || |c.value.rest| < (b.value.value + c.value.value) % TWO_32 then None
        else Some(Header(a.value.value, b.value.value, c.value.value, c.value.rest))
  }

  /** Key and value lie within the bytes that were decoded. */
  predicate Inside(h: Header) {
    h.nonShared + h.valueLength <= |h.rest|
  }

  /** What is accepted lies within the input exactly if the two lengths do not wrap. */
  lemma InsideExact(input: Data)
    requires |input| < TWO_32 && DecodeSpec(input).Some?
    ensures Inside(DecodeSpec(input).value)
       <==> DecodeSpec(input).value.nonShared + DecodeSpec(input).value.valueLength < TWO_32
  {
    hide GetVarint32;
  }

  /** Lengths whose sum wraps to zero pass the test with nothing behind them. */
  lemma WrappedLengths()
    ensures DecodeSpec([0, 0xff, 0xff, 0xff, 0xff, 0x0f, 1]) == Some(Header(0, 0xffff_ffff, 1, []))
  {
    hide GetVarint32, Varint;
    var top: Data := [0xff, 0xff, 0xff, 0xff, 0x0f];
    TopVarint();
    Varint32Inverse(0, top + [1]);
    Varint32Inverse(0xffff_ffff, [1]);
    Varint32Inverse(1, []);
    assert [0] + (top + [1]) == [0, 0xff, 0xff, 0xff, 0xff, 0x0f, 1];
    assert [1] + [] == [1 as byte];
  }

  lemma TopVarint()
    ensures Varint(0xffff_ffff) == [0xff, 0xff, 0xff, 0xff, 0x0f] && Varint(0) == [0] && Varint(1) == [1]
  {
  }

  lemma OneByte(input: Data)
    requires input != [] && (input[0] as int) < 128
    ensures GetVarint32(input) == Some(Parsed(input[0] as nat, input[1..]))
  {
    assert Weight(0) == 1;
  }

  lemma ShortInput(input: Data)
    requires |input| < 3
    ensures DecodeSpec(input) == None
  {
    hide ParseVarint;
    GetShrinks(input);
    var a := GetVarint32(input);
    if a.Some? {
      GetShrinks(a.value.rest);
      var b := GetVarint32(a.value.rest);
      if b.Some? {
        GetShrinks(b.value.rest);
      }
    }
  }

  lemma GetShrinks(input: Data)
    ensures GetVarint32(input).Some? ==> |GetVarint32(input).value.rest| < |input|
  {
  }

  /** The fast path for one-byte lengths gives what the varints give. */
  method DecodeEntry(input: Data) returns (r: Option<Header>)
    ensures r == DecodeSpec(input)
  {
    hide GetVarint32;
    if |input| < 3 {
      ShortInput(input);
      return None;
    }
    var shared, nonShared, valueLength := input[0] as nat, input[1] as nat, input[2] as nat;
    var rest;
    if shared < 128 && nonShared < 128 && valueLength < 128 {
      OneByte(input);
      OneByte(input[1..]);
      OneByte(input[2..]);
      assert input[1..][1..] == input[2..] && input[2..][1..] == input[3..];
      rest := input[3..];
    } else {
      var a := GetVarint32(input);
      if a.None? {
        return None;
      }
      var b := GetVarint32(a.value.rest);
      if b.None? {
        return None;
      }
      var c := GetVarint32(b.value.rest);
      if c.None? {
        return None;
      }
      shared, nonShared, valueLength, rest := a.value.value, b.value.value, c.value.value, c.value.rest;
    }
    if |rest| < (nonShared + valueLength) % TWO_32 {
      return None;
    }
    r := Some(Header(shared, nonShared, valueLength, rest));
  }

  lemma DecodeInverse(key: Data, value: Data, shared: nat, rest: Data)
    requires shared <= |key| < TWO_32 && |value| < TWO_32
    ensures DecodeSpec(EntryBytes(key, value, shared) + rest)
         == Some(Header(shared, |key| - shared, |value|, key[shared..] + value + rest))
  {
    hide GetVarint32, Varint;
    var r3 := key[shared..] + value + rest;
    var r2 := Varint(|value|) + r3;
    var r1 := Varint(|key| - shared) + r2;
    assert EntryBytes(key, value, shared) + rest == Varint(shared) + r1;
    Varint32Inverse(shared, r1);
    Varint32Inverse(|key| - shared, r2);
    Varint32Inverse(|value|, r3);
    WrapsBelow(|key| - shared + |value|);
  }

  lemma WrapsBelow(n: nat)
    ensures n % TWO_32 <= n
  {
  }

  // ---------------------------------------------------------------- the builder

  ghost predicate Fits(entries: seq<Pair>) {
    forall i :: 0 <= i < |entries| ==> |entries[i].key| < TWO_32 && |entries[i].value| < TWO_32
  }

  function Offsets(s: seq<nat>, entries: seq<Pair>): (r: seq<nat>)
    requires forall i :: 0 <= i < |s| ==> s[i] <= |entries|
    ensures |r| == |s|
  {
    seq(|s|, i requires 0 <= i < |s| => Offset(s, entries, s[i]))
  }

  /** A finished block. */
  function BlockBytes(s: seq<nat>, entries: seq<Pair>): Data
    requires forall i :: 0 <= i < |s| ==> s[i] <= |entries|
  {
    DataBytes(s, entries, |entries|) + FixedList(Offsets(s, entries)) + Fixed(|s|, 4)
  }

  lemma {:induction false} RestartsAreOk(interval: nat, n: nat)
    ensures RestartsOk(Restarts(interval, n), n)
  {
    if n > 0 {
      RestartsAreOk(interval, n - 1);
      var r := Restarts(interval, n - 1);
      assert |r| > 1 ==> r[|r| - 1] < n - 1;
      if n > 1 {
        assert r[|r| - 1] < n - 1;
      }
    }
  }

  /** Later restart points do not change earlier entries. */
  lemma {:induction false} DataPrefix(s: seq<nat>, t: seq<nat>, entries: seq<Pair>, more: seq<Pair>, n: nat)
    requires n <= |entries| && entries <= more
    requires forall i :: 0 < i < n ==> (i in s <==> i in t)
    ensures DataBytes(s, entries, n) == DataBytes(t, more, n)
  {
    hide EntryBytes;
    if n > 0 {
      DataPrefix(s, t, entries, more, n - 1);
      assert entries[n - 1] == more[n - 1] && (n > 1 ==> entries[n - 2] == more[n - 2]);
    }
  }

  /** One more entry is a restart point if the last one is far enough back. */
  lemma RestartsGrow(interval: nat, n: nat)
    ensures
      var s, t := Restarts(interval, n), Restarts(interval, n + 1);
      && RestartsOk(s, n) && RestartsOk(t, n + 1)
      && t == (if n > 0 && n - s[|s| - 1] >= interval then s + [n] else s)
      && (n in t <==> n == 0 || |t| > |s|)
      && (forall i :: 0 < i < n ==> (i in s <==> i in t))
      && (forall j :: 0 <= j < |s| ==> s[j] <= n) && (forall j :: 0 <= j < |t| ==> t[j] <= n)
  {
    hide RestartsOk;
    var s, t := Restarts(interval, n), Restarts(interval, n + 1);
    RestartsAreOk(interval, n);
    RestartsAreOk(interval, n + 1);
    RestartBound(s, n, |s| - 1);
    RestartsMembers(s, t, n);
  }

  /** The entries before a new one keep their bytes. */
  lemma DataKept(interval: nat, entries: seq<Pair>, p: Pair, i: nat)
    requires i <= |entries|
    ensures DataBytes(Restarts(interval, |entries| + 1), entries + [p], i)
         == DataBytes(Restarts(interval, |entries|), entries, i)
  {
    hide EntryBytes, Restarts, RestartsOk, DataBytes;
    RestartsGrow(interval, |entries|);
    DataPrefix(Restarts(interval, |entries|), Restarts(interval, |entries| + 1), entries, entries + [p], i);
  }

  lemma DataGrows(interval: nat, entries: seq<Pair>, p: Pair)
    ensures
      var n := |entries|;
      var s, t, more := Restarts(interval, n), Restarts(interval, n + 1), entries + [p];
      DataBytes(t, more, n + 1) == DataBytes(s, entries, n) + EntryBytes(p.key, p.value, Shared(t, more, n))
  {
    hide EntryBytes, Restarts, Shared;
    var n := |entries|;
    var t, more := Restarts(interval, n + 1), entries + [p];
    DataKept(interval, entries, p, n);
    assert more[n] == p;
    DataSnoc(t, more, n + 1);
  }

  lemma DataSnoc(s: seq<nat>, entries: seq<Pair>, n: nat)
    requires 0 < n <= |entries|
    ensures DataBytes(s, entries, n) == DataBytes(s, entries, n - 1)
         + EntryBytes(entries[n - 1].key, entries[n - 1].value, Shared(s, entries, n - 1))
  {
    hide EntryBytes, Shared;
  }

  lemma SharedGrows(interval: nat, entries: seq<Pair>, p: Pair)
    ensures
      var n := |entries|;
      var s, t := Restarts(interval, n), Restarts(interval, n + 1);
      Shared(t, entries + [p], n)
      == if n == 0 || |t| > |s| then 0 else CommonPrefix(entries[n - 1].key, p.key)
  {
    hide Restarts, RestartsOk, CommonPrefix;
    var n := |entries|;
    RestartsGrow(interval, n);
    assert n > 0 ==> (entries + [p])[n - 1] == entries[n - 1];
  }

  lemma OffsetsGrow(interval: nat, entries: seq<Pair>, p: Pair)
    ensures
      var n := |entries|;
      var s, t, more := Restarts(interval, n), Restarts(interval, n + 1), entries + [p];
      && (forall j :: 0 <= j < |s| ==> s[j] <= n) && (forall j :: 0 <= j < |t| ==> t[j] <= n + 1)
      && Offsets(t, more) == Offsets(s, entries) + (if |t| > |s| then [|DataBytes(s, entries, n)|] else [])
  {
    hide EntryBytes, Restarts, RestartsOk, DataBytes, Shared;
    var n := |entries|;
    var s, t, more := Restarts(interval, n), Restarts(interval, n + 1), entries + [p];
    RestartsGrow(interval, n);
    forall j | 0 <= j < |t|
      ensures t[j] == (if j < |s| then s[j] else n)
      ensures DataBytes(t, more, t[j]) == DataBytes(s, entries, t[j])
    {
      DataKept(interval, entries, p, t[j]);
    }
  }

  lemma RestartBound(s: seq<nat>, n: nat, j: nat)
    requires RestartsOk(s, n) && j < |s|
    ensures s[j] <= n && (j > 0 ==> s[j] < n)
  {
  }

  lemma RestartsMembers(s: seq<nat>, t: seq<nat>, n: nat)
    requires RestartsOk(s, n) && (t == s || (t == s + [n] && n > 0))
    ensures forall i :: 0 < i < n ==> (i in s <==> i in t)
    ensures n in t <==> n == 0 || |t| > |s|
    ensures forall j :: 0 <= j < |s| ==> s[j] <= n
  {
    assert n > 0 ==> forall j :: 0 <= j < |s| ==> s[j] != n;
    if n == 0 {
      assert s[0] in s && t[0] == s[0];
    }
    if |t| > |s| {
      assert t[|s|] == n;
    }
  }

  class BlockBuilder {
    const interval: nat
    var buffer: Data
    var restarts: seq<nat>
    var counter: nat
    var lastKey: Data
    ghost var entries: seq<Pair>

    constructor (interval: nat)
      requires interval >= 1
      ensures Valid() && this.interval == interval && entries == []
    {
      this.interval := interval;
      buffer, restarts, counter, lastKey, entries := [], [0], 0, [], [];
    }

    ghost function Starts(): seq<nat>
      reads this
    {
      Restarts(interval, |entries|)
    }

    ghost predicate Valid()
      reads this
    {
      RestartsAreOk(interval, |entries|);
      && interval >= 1 && Fits(entries)
      && buffer == DataBytes(Starts(), entries, |entries|)
      && restarts == Offsets(Starts(), entries)
      && counter == |entries| - Starts()[|Starts()| - 1]
      && lastKey == if entries == [] then [] else entries[|entries| - 1].key
    }

    method Reset()
      requires Valid()
      modifies this
      ensures Valid() && entries == []
    {
      buffer, restarts, counter, lastKey := [], [0], 0, [];
      entries := [];
    }

    function CurrentSizeEstimate(): nat
      reads this
    {
      |buffer| + 4 * |restarts| + 4
    }

    method Empty() returns (empty: bool)
      requires Valid()
      ensures empty <==> entries == []
    {
      hide EntryBytes, Restarts, Offsets;
      empty := buffer == [];
      NoData(Starts(), entries);
    }

    /** How much of the key is shared; a restart point shares nothing. */
    method StartEntry(key: Data, value: Data) returns (shared: nat)
      requires Valid()
      modifies this`restarts, this`counter
      ensures
        var n := |entries|;
        var t, more := Restarts(interval, n + 1), entries + [Pair(key, value)];
        && (forall j :: 0 <= j < |t| ==> t[j] <= n + 1)
        && shared == Shared(t, more, n) && restarts == Offsets(t, more)
        && t[|t| - 1] <= n && counter == n - t[|t| - 1]
    {
      hide EntryBytes, DataBytes, Restarts, RestartsOk, Offset, Shared, Offsets, CommonPrefix;
      EntryStarts(interval, entries, Pair(key, value), lastKey);
      shared := 0;
      if counter < interval {
        shared := SharedLength(lastKey, key);
      } else {
        restarts := restarts + [|buffer|];
        counter := 0;
      }
    }

    /** Appends an entry, compressed against the key before it or as a restart point. */
    method Add(key: Data, value: Data)
      requires Valid() && |key| < TWO_32 && |value| < TWO_32
      modifies this
      ensures Valid() && entries == old(entries) + [Pair(key, value)]
    {
      hide EntryBytes, DataBytes, Restarts, RestartsOk, Offset, Offsets, CommonPrefix, Shared;
      SharedPart(Restarts(interval, |entries| + 1), entries + [Pair(key, value)], |entries|);
      DataGrows(interval, entries, Pair(key, value));
      var shared := StartEntry(key, value);
      buffer := buffer + EntryBytes(key, value, shared);
      lastKey := lastKey[..shared] + key[shared..];
      assert lastKey == key;
      counter := counter + 1;
      entries := entries + [Pair(key, value)];
    }

    /** The whole block; the builder must be reset before it is used again. */
    method Finish() returns (block: Data)
      requires Valid()
      ensures RestartsOk(Starts(), |entries|) && (forall i :: 0 <= i < |Starts()| ==> Starts()[i] <= |entries|)
      ensures block == BlockBytes(Starts(), entries)
    {
      hide DataBytes, Restarts, Offset;
      RestartsAreOk(interval, |entries|);
      block := buffer;
      for i := 0 to |restarts|
        invariant block == buffer + FixedList(restarts[..i])
      {
        assert restarts[..i + 1][..i] == restarts[..i];
        block := block + Fixed(restarts[i], 4);
      }
      assert restarts[..|restarts|] == restarts;
      block := block + Fixed(|restarts|, 4);
    }
  }

  lemma SharedPart(s: seq<nat>, entries: seq<Pair>, i: nat)
    requires i < |entries|
    ensures
      var n := Shared(s, entries, i);
      n <= |entries[i].key| && (if i == 0 then n == 0 else n <= |entries[i - 1].key| && entries[i - 1].key[..n] == entries[i].key[..n])
  {
  }

  /** A new entry shares what it can, or starts afresh once the interval is used up. */
  lemma EntryStarts(interval: nat, entries: seq<Pair>, p: Pair, lastKey: Data)
    requires interval >= 1 && lastKey == if entries == [] then [] else entries[|entries| - 1].key
    ensures
      var n := |entries|;
      var s, t, more := Restarts(interval, n), Restarts(interval, n + 1), entries + [p];
      && (forall j :: 0 <= j < |s| ==> s[j] <= n) && (forall j :: 0 <= j < |t| ==> t[j] <= n + 1)
      && s[|s| - 1] <= n && t[|t| - 1] <= n
      && if n - s[|s| - 1] < interval then
           && Shared(t, more, n) == CommonPrefix(lastKey, p.key)
           && Offsets(t, more) == Offsets(s, entries) && t[|t| - 1] == s[|s| - 1]
         else
           && Shared(t, more, n) == 0
           && Offsets(t, more) == Offsets(s, entries) + [|DataBytes(s, entries, n)|] && t[|t| - 1] == n
  {
    hide EntryBytes, DataBytes, Restarts, RestartsOk, Offset, Shared, CommonPrefix;
    NextRestart(interval, |entries|);
    SharedGrows(interval, entries, p);
    OffsetsGrow(interval, entries, p);
    NoPrefix(p.key);
    FirstRestart(interval);
  }

  lemma NoData(s: seq<nat>, entries: seq<Pair>)
    ensures DataBytes(s, entries, |entries|) == [] <==> entries == []
  {
    hide EntryBytes;
  }

  lemma NextRestart(interval: nat, n: nat)
    ensures
      var s, t := Restarts(interval, n), Restarts(interval, n + 1);
      && t == (if n > 0 && n - s[|s| - 1] >= interval then s + [n] else s)
      && s[|s| - 1] <= n && t[|t| - 1] <= n
  {
    hide Restarts, RestartsOk;
    RestartsGrow(interval, n);
  }

  lemma FirstRestart(interval: nat)
    ensures Restarts(interval, 0) == [0]
  {
  }

  method SharedLength(a: Data, b: Data) returns (n: nat)
    ensures n == CommonPrefix(a, b)
  {
    n := 0;
    var minLength := if |a| < |b| then |a| else |b|;
    while n < minLength && a[n] == b[n]
      invariant n <= minLength && a[..n] == b[..n]
    {
      n := n + 1;
    }
    CommonPrefixIs(a, b, n);
  }

  lemma NoPrefix(b: Data)
    ensures CommonPrefix([], b) == 0
  {
  }

  lemma {:induction false} CommonPrefixIs(a: Data, b: Data, n: nat)
    requires n <= |a| && n <= |b| && a[..n] == b[..n]
    requires n == |a| || n == |b| || a[n] != b[n]
    ensures CommonPrefix(a, b) == n
  {
    if n > 0 {
      assert a[0] == a[..n][0] == b[..n][0] == b[0];
      assert a[1..][..n - 1] == a[..n][1..] && b[1..][..n - 1] == b[..n][1..];
      CommonPrefixIs(a[1..], b[1..], n - 1);
    }
  }

  // ---------------------------------------------------------------- reading a block

  /** The entries are sorted as far as a search for `target` can tell. */
  ghost predicate Searchable(less: (Data, Data) -> bool, entries: seq<Pair>, target: Data) {
    forall i, j :: 0 <= i < j < |entries| && less(entries[j].key, target) ==> less(entries[i].key, target)
  }

  /** Position of the first entry at or after `target`. */
  function FirstAtOrAfter(less: (Data, Data) -> bool, entries: seq<Pair>, target: Data): (i: nat)
    ensures i <= |entries|
    ensures forall j :: 0 <= j < i ==> less(entries[j].key, target)
    ensures i < |entries| ==> !less(entries[i].key, target)
  {
    if entries == [] || !less(entries[0].key, target) then 0
    else 1 + FirstAtOrAfter(less, entries[1..], target)
  }

  lemma FirstIs(less: (Data, Data) -> bool, entries: seq<Pair>, target: Data, i: nat)
    requires i <= |entries| && (i < |entries| ==> !less(entries[i].key, target))
    requires forall j :: 0 <= j < i ==> less(entries[j].key, target)
    ensures FirstAtOrAfter(less, entries, target) == i
  {
  }

  function NumRestarts(block: Data): nat
    requires |block| >= 4
  {
    FixedValue(block[|block| - 4..])
  }

  /** A block as it was read: its restart array must fit in it. */
  datatype Layout = Layout(block: Data, restarts: nat, numRestarts: nat)

  ghost predicate LayoutOk(l: Layout) {
    l.restarts + 4 * l.numRestarts + 4 == |l.block|
  }

  /** What the Block constructor finds, unless the size cannot be right. */
  method OpenBlock(block: Data) returns (r: Option<Layout>)
    ensures r.Some? ==> r.value.block == block && LayoutOk(r.value)
    ensures r.None? <==> |block| < 4 || NumRestarts(block) > (|block| - 4) / 4
    ensures r.Some? ==> r.value.numRestarts == NumRestarts(block)
  {
    if |block| < 4 {
      return None;
    }
    var maxRestarts := (|block| - 4) / 4;
    var n := NumRestarts(block);
    if n > maxRestarts {
      return None;
    }
    r := Some(Layout(block, |block| - (1 + n) * 4, n));
  }

  function RestartPoint(l: Layout, index: nat): nat
    requires l.restarts + 4 * l.numRestarts + 4 == |l.block| && index < l.numRestarts
  {
    FixedValue(l.block[l.restarts + 4 * index..l.restarts + 4 * index + 4])
  }

  /** The block is the one built for these entries and restart points. */
  ghost predicate BuiltFor(l: Layout, s: seq<nat>, entries: seq<Pair>) {
    && LayoutOk(l) && RestartsOk(s, |entries|) && Fits(entries)
    && (forall i :: 0 <= i < |s| ==> s[i] <= |entries|)
    && l.numRestarts == |s|
    && l.block[..l.restarts] == DataBytes(s, entries, |entries|)
    && forall i :: 0 <= i < |s| ==> RestartPoint(l, i) == Offset(s, entries, s[i])
  }

  /** Opening a finished block finds its entries and restart points. */
  lemma OpenBuilt(s: seq<nat>, entries: seq<Pair>)
    requires RestartsOk(s, |entries|) && Fits(entries) && forall i :: 0 <= i < |s| ==> s[i] <= |entries|
    requires |BlockBytes(s, entries)| < TWO_32
    ensures
      var block := BlockBytes(s, entries);
      && |block| >= 4 && NumRestarts(block) == |s| <= (|block| - 4) / 4
      && BuiltFor(Layout(block, |block| - (1 + |s|) * 4, |s|), s, entries)
  {
    hide Fixed, FixedValue, DataBytes, FixedList;
    var block := BlockBytes(s, entries);
    var offsets := Offsets(s, entries);
    var data, points, tail := DataBytes(s, entries, |entries|), FixedList(offsets), Fixed(|s|, 4);
    FixedListAt(offsets, 0);
    assert block[|block| - 4..] == tail;
    Powers();
    FixedInverse(|s|, 4);
    var l := Layout(block, |block| - (1 + |s|) * 4, |s|);
    assert l.restarts == |data| && block[..l.restarts] == data;
    forall i | 0 <= i < |s|
      ensures RestartPoint(l, i) == Offset(s, entries, s[i])
    {
      FixedListAt(offsets, i);
      OffsetsIncrease(s, entries, s[i], |entries|);
      assert block[l.restarts + 4 * i..l.restarts + 4 * i + 4] == points[4 * i..4 * i + 4];
      FixedInverse(offsets[i], 4);
    }
  }

  class Iter {
    const less: (Data, Data) -> bool
    const layout: Layout
    ghost const starts: seq<nat>
    ghost const entries: seq<Pair>
    var current: nat
    var restartIndex: nat
    var key: Data
    var value: Data
    var nextOffset: nat          // where the current value ends
    var corrupted: bool
    var overran: bool            // an entry was accepted that reaches behind the block

    constructor (less: (Data, Data) -> bool, layout: Layout, ghost starts: seq<nat>, ghost entries: seq<Pair>)
      requires LayoutOk(layout) && layout.numRestarts > 0
      ensures this.less == less && this.layout == layout && this.starts == starts && this.entries == entries
      ensures Shape() && !Valid() && Placed() && !corrupted && !overran
      ensures Built() ==> Stands(|entries|)
    {
      this.less, this.layout, this.starts, this.entries := less, layout, starts, entries;
      current, restartIndex := layout.restarts, layout.numRestarts;
      key, value, nextOffset := [], [], 0;
      corrupted, overran := false, false;
    }

    ghost predicate Shape() {
      LayoutOk(layout) && layout.numRestarts > 0
    }

    ghost predicate Built() {
      BuiltFor(layout, starts, entries)
    }

    predicate Valid()
      reads this
    {
      current < layout.restarts
    }

    function GetRestartPoint(index: nat): nat
      requires layout.restarts + 4 * layout.numRestarts + 4 == |layout.block| && index < layout.numRestarts
    {
      RestartPoint(layout, index)
    }

    /** A valid position has a restart point behind it. */
    ghost predicate Placed()
      reads this
    {
      Valid() ==> restartIndex < layout.numRestarts
    }

    /** The iterator is on entry `i`, or on none if `i` is their number; its restart
        index is the last restart point before the entry, or the entry itself. */
    ghost predicate Stands(i: nat)
      reads this
    {
      && Built() && i <= |entries|
      && if i == |entries| then current == layout.restarts
         else
           && current == Offset(starts, entries, i) && nextOffset == Offset(starts, entries, i + 1)
           && key == entries[i].key && value == entries[i].value
           && restartIndex < |starts| && starts[restartIndex] <= i
           && (restartIndex + 1 < |starts| ==> starts[restartIndex + 1] >= i)
    }

    /** The next entry to parse is `i`, and the key at hand is the one it builds on. */
    ghost predicate Ready(i: nat)
      reads this
    {
      && Built() && i <= |entries|
      && nextOffset == Offset(starts, entries, i)
      && (i < |entries| ==> i in starts || (i > 0 && key == entries[i - 1].key))
      && restartIndex < |starts| && starts[restartIndex] <= i
    }

    lemma BuiltOffsets(i: nat)
      requires Built() && i <= |entries|
      ensures Offset(starts, entries, i) <= layout.restarts == Offset(starts, entries, |entries|)
      ensures i < |entries| <==> Offset(starts, entries, i) < layout.restarts
    {
      OffsetsIncrease(starts, entries, i, |entries|);
      assert |layout.block[..layout.restarts]| == layout.restarts;
    }

    lemma StandsOn(i: nat)
      requires Stands(i)
      ensures i <= |entries| && (Valid() <==> i < |entries|)
      ensures Valid() ==> entries[i] == Pair(key, value)
    {
      hide BuiltFor, Offset;
      BuiltOffsets(i);
    }

    lemma StandsPlaced(i: nat)
      requires Stands(i)
      ensures Shape() && Placed()
    {
      hide Offset, DataBytes, RestartPoint;
      RestartCount();
    }

    lemma RestartOrder(index: nat, i: nat)
      requires Built() && index < |starts| && i <= |entries|
      ensures Shape() && layout.numRestarts == |starts| && starts[index] <= |entries|
      ensures GetRestartPoint(index) == Offset(starts, entries, starts[index])
      ensures GetRestartPoint(index) < Offset(starts, entries, i) <==> starts[index] < i
    {
      hide DataBytes;
      var k := starts[index];
      if k < i {
        OffsetsIncrease(starts, entries, k, i);
      } else {
        OffsetsIncrease(starts, entries, i, k);
      }
    }

    /** What the bytes say at entry `i`. */
    lemma EntryHere(i: nat)
      requires Built() && i < |entries|
      ensures Offset(starts, entries, i) <= layout.restarts <= |layout.block|
      ensures
        var o := Offset(starts, entries, i);
        var shared := Shared(starts, entries, i);
        var h := DecodeSpec(layout.block[o..layout.restarts]);
        && h.Some? && Inside(h.value) && h.value.shared == shared
        && shared + h.value.nonShared == |entries[i].key|
        && h.value.rest[..h.value.nonShared] == entries[i].key[shared..]
        && h.value.rest[h.value.nonShared..h.value.nonShared + h.value.valueLength] == entries[i].value
        && layout.restarts - |h.value.rest| + h.value.nonShared + h.value.valueLength == Offset(starts, entries, i + 1)
    {
      hide DataBytes, Shared, DecodeSpec, RestartsOk;
      var o, shared := Offset(starts, entries, i), Shared(starts, entries, i);
      var e := entries[i];
      EntryAt(starts, entries, i, |entries|);
      var rest := DataBytes(starts, entries, |entries|)[Offset(starts, entries, i + 1)..];
      DataIs(o);
      DecodeInverse(e.key, e.value, shared, rest);
      PartsOfRest(e.key[shared..], e.value, rest);
    }

    lemma DataIs(o: nat)
      requires Built() && o <= |DataBytes(starts, entries, |entries|)|
      ensures layout.restarts == |DataBytes(starts, entries, |entries|)| <= |layout.block|
      ensures layout.block[o..layout.restarts] == DataBytes(starts, entries, |entries|)[o..]
    {
      hide DataBytes, RestartsOk;
      assert layout.block[o..layout.restarts] == layout.block[..layout.restarts][o..];
    }

    method SeekToRestartPoint(index: nat)
      requires Shape() && index < layout.numRestarts
      modifies this`key, this`restartIndex, this`value, this`nextOffset
      ensures Built() ==> Ready(starts[index])
      ensures nextOffset == GetRestartPoint(index) && restartIndex == index
    {
      key := [];
      restartIndex := index;
      value := [];
      nextOffset := GetRestartPoint(index);
    }

    method CorruptionError()
      modifies this`current, this`restartIndex, this`corrupted, this`key, this`value
      ensures corrupted && current == layout.restarts
    {
      current, restartIndex := layout.restarts, layout.numRestarts;
      corrupted := true;
      key, value := [], [];
    }

    /** The entry reaches behind the block. What the code would go on with is not in the
        block, so there is no entry then. */
    method Overrun()
      modifies this`current, this`restartIndex, this`overran, this`key, this`value
      ensures overran && current == layout.restarts
    {
      current, restartIndex := layout.restarts, layout.numRestarts;
      overran := true;
      key, value := [], [];
    }

    /** Parses the entry at the end of the current value. */
    method ParseNextKey(ghost i: nat) returns (r: bool)
      requires Shape() && restartIndex < layout.numRestarts
      modifies this
      ensures current <= layout.restarts && (r ==> current == old(nextOffset) && old(nextOffset) < nextOffset <= layout.restarts)
      ensures Placed() && (r <==> Valid())
      ensures old(nextOffset) >= layout.restarts ==> !r && corrupted == old(corrupted) && overran == old(overran)
      ensures old(nextOffset) < layout.restarts ==>
        var h := DecodeSpec(layout.block[old(nextOffset)..layout.restarts]);
        var whole := h.Some? && h.value.shared <= |old(key)|;
        && (r <==> whole && Inside(h.value))
        && (r ==> key == old(key)[..h.value.shared] + h.value.rest[..h.value.nonShared])
        && (r ==> value == h.value.rest[h.value.nonShared..h.value.nonShared + h.value.valueLength])
        && (corrupted <==> old(corrupted) || !whole)
        && (overran <==> old(overran) || (whole && !Inside(h.value)))
      ensures old(Ready(i)) ==> Stands(i) && (r <==> i < |entries|) && corrupted == old(corrupted) && overran == old(overran)
    {
      hide DataBytes, Shared, DecodeSpec, RestartsOk, BuiltFor, Offset, RestartPoint;
      ghost var good := Ready(i);
      if good {
        BuiltOffsets(i);
      }
      current := nextOffset;
      if current >= layout.restarts {
        current, restartIndex := layout.restarts, layout.numRestarts;
        return false;
      }
      var h := DecodeEntry(layout.block[current..layout.restarts]);
      if good {
        EntryHere(i);
        SharedIsThere(starts, entries, i);
      }
      if h.None? || |key| < h.value.shared {
        CorruptionError();
        return false;
      }
      if !Inside(h.value) {
        Overrun();
        return false;
      }
      var n, m := h.value.nonShared, h.value.valueLength;
      ghost var before := key;
      key := key[..h.value.shared] + h.value.rest[..n];
      value := h.value.rest[n..n + m];
      nextOffset := layout.restarts - |h.value.rest| + n + m;
      if good {
        KeyRestored(starts, entries, i, before, h.value.rest[..n]);
      }
      DecodeBounds(layout.block[current..layout.restarts]);
      AdvanceRestart(i);
      r := true;
    }

    /** Moves the restart index up to the last restart point before the current entry. */
    method AdvanceRestart(ghost i: nat)
      requires Shape() && restartIndex < layout.numRestarts
      modifies this`restartIndex
      ensures restartIndex < layout.numRestarts
      ensures Built() && i <= |entries| && current == Offset(starts, entries, i)
              && old(restartIndex) < |starts| && starts[old(restartIndex)] <= i ==>
        && restartIndex < |starts| && starts[restartIndex] <= i
        && (restartIndex + 1 < |starts| ==> starts[restartIndex + 1] >= i)
    {
      hide BuiltFor, Offset, RestartPoint, RestartsOk;
      ghost var good := Built() && i <= |entries| && current == Offset(starts, entries, i)
                        && restartIndex < |starts| && starts[restartIndex] <= i;
      if good {
        RestartOrder(restartIndex, i);
      }
      while restartIndex + 1 < layout.numRestarts && GetRestartPoint(restartIndex + 1) < current
        invariant restartIndex < layout.numRestarts
        invariant good ==> restartIndex < |starts| && starts[restartIndex] <= i
        decreases layout.numRestarts - restartIndex
      {
        if good {
          RestartOrder(restartIndex + 1, i);
        }
        restartIndex := restartIndex + 1;
      }
      if good && restartIndex + 1 < |starts| {
        RestartOrder(restartIndex + 1, i);
      }
    }
  
    method Next(ghost i: nat)
      requires Shape() && Valid() && Placed()
      modifies this
      ensures Placed()
      ensures old(Stands(i)) ==> Stands(i + 1) && corrupted == old(corrupted) && overran == old(overran)
    {
      hide DataBytes, BuiltFor, Offset, RestartPoint, RestartsOk, DecodeSpec, Inside;
      if Stands(i) {
        NotPastEnd(i);
      }
      var r := ParseNextKey(i + 1);
    }

    lemma NotPastEnd(i: nat)
      requires Valid() && Stands(i)
      ensures i < |entries|
    {
    }

    /** Goes back to a restart point before the current entry and forward again to the
        entry just before it. */
    method Prev(ghost i: nat)
      requires Shape() && Valid() && Placed()
      modifies this
      ensures Placed()
      ensures old(Stands(i)) ==> Stands(if i == 0 then |entries| else i - 1) && corrupted == old(corrupted) && overran == old(overran)
    {
      hide DataBytes, BuiltFor, Offset, RestartPoint, RestartsOk, DecodeSpec, Inside;
      ghost var good := Stands(i);
      if good {
        NotPastEnd(i);
      }
      var original := current;
      while GetRestartPoint(restartIndex) >= original
        invariant restartIndex < layout.numRestarts
        invariant good ==> restartIndex < |starts|
        invariant current == original && corrupted == old(corrupted) && overran == old(overran)
        decreases restartIndex
      {
        if good {
          RestartOrder(restartIndex, i);
        }
        if restartIndex == 0 {
          if good {
            FirstStart();
          }
          current, restartIndex := layout.restarts, layout.numRestarts;
          return;
        }
        restartIndex := restartIndex - 1;
      }
      if good {
        RestartOrder(restartIndex, i);
      }
      ghost var j: nat := if good then starts[restartIndex] else 0;
      SeekToRestartPoint(restartIndex);
      var more := true;
      while more
        invariant good && more ==> j < i && Ready(j)
        invariant good && !more ==> Stands(i - 1)
        invariant good ==> corrupted == old(corrupted) && overran == old(overran)
        invariant nextOffset <= layout.restarts || !more || !good
        invariant Placed() && (more ==> restartIndex < layout.numRestarts)
        decreases more, layout.restarts - nextOffset
      {
        more := ParseNextKey(j);
        if good {
          EndOfEntry(j, i, original);
        }
        j := j + 1;
        more := more && nextOffset < original;
      }
    }

    /** The scan back stops at the entry whose end is the start of the original one. */
    lemma EndOfEntry(j: nat, i: nat, original: nat)
      requires Stands(j) && j < i < |entries| && original == Offset(starts, entries, i)
      ensures nextOffset < original <==> j + 1 < i
      ensures j + 1 < i ==> Ready(j + 1)
    {
      hide DataBytes, RestartPoint;
      OffsetsIncrease(starts, entries, j + 1, i);
    }

    lemma FirstStart()
      requires Built()
      ensures starts[0] == 0
    {
    }
  
    method SeekToFirst()
      requires Shape()
      modifies this
      ensures Placed()
      ensures Built() ==> Stands(0) && corrupted == old(corrupted) && overran == old(overran)
    {
      hide DataBytes, BuiltFor, Offset, RestartPoint, RestartsOk, DecodeSpec, Inside;
      if Built() {
        FirstStart();
      }
      SeekToRestartPoint(0);
      var r := ParseNextKey(0);
    }

    /** Skips through the last restart block to its end. */
    method SeekToLast()
      requires Shape()
      modifies this
      ensures Placed()
      ensures Built() ==> Stands(if |entries| == 0 then 0 else |entries| - 1) && corrupted == old(corrupted) && overran == old(overran)
    {
      hide DataBytes, BuiltFor, Offset, RestartPoint, RestartsOk, DecodeSpec, Inside;
      ghost var good := Built();
      if good {
        RestartCount();
      }
      SeekToRestartPoint(layout.numRestarts - 1);
      ghost var j: nat := if good then starts[layout.numRestarts - 1] else 0;
      var more := true;
      while more
        invariant good ==> corrupted == old(corrupted) && overran == old(overran)
        invariant good && more ==> Ready(j) && (j < |entries| || (j == 0 && |entries| == 0))
        invariant good && !more ==> Stands(if |entries| == 0 then 0 else |entries| - 1)
        invariant Placed() && (more ==> restartIndex < layout.numRestarts)
        decreases more, layout.restarts - nextOffset
      {
        more := ParseNextKey(j);
        if good {
          LastEntry(j);
        }
        j := j + 1;
        more := more && nextOffset < layout.restarts;
      }
    }

    lemma RestartCount()
      requires Built()
      ensures layout.numRestarts == |starts| > 0
      ensures starts[|starts| - 1] < |entries| || (starts[|starts| - 1] == 0 && |entries| == 0)
    {
    }

    lemma LastEntry(j: nat)
      requires Stands(j)
      ensures j < |entries| ==> (nextOffset < layout.restarts <==> j + 1 < |entries|)
      ensures j + 1 < |entries| ==> Ready(j + 1)
    {
      hide DataBytes, RestartPoint;
      if j < |entries| {
        BuiltOffsets(j + 1);
      }
    }

    /** The key at a restart point, which is stored whole. */
    method RestartKey(index: nat) returns (r: Option<Data>, behind: bool)
      requires Shape() && index < layout.numRestarts
      ensures behind ==> r.None?
      ensures
        var offset := GetRestartPoint(index);
        var h := if offset > layout.restarts then None else DecodeSpec(layout.block[offset..layout.restarts]);
        var whole := h.Some? && h.value.shared == 0;
        && (behind <==> whole && h.value.nonShared > |h.value.rest|)
        && (whole && !behind ==> r == Some(h.value.rest[..h.value.nonShared]))
        && (!whole ==> r.None?)
      ensures Built() ==> |starts| == layout.numRestarts && (starts[index] < |entries| ==> r == Some(entries[starts[index]].key))
    {
      hide DataBytes, BuiltFor, DecodeSpec, RestartsOk, Shared, Offset, RestartPoint;
      if Built() {
        RestartCount();
        RestartOrder(index, 0);
        if starts[index] < |entries| {
          BuiltOffsets(starts[index]);
          EntryHere(starts[index]);
          SharedIsThere(starts, entries, starts[index]);
          assert starts[index] in starts;
          WholeKey(entries[starts[index]].key);
        }
      }
      var offset := GetRestartPoint(index);
      if offset > layout.restarts {
        return None, false;
      }
      var h := DecodeEntry(layout.block[offset..layout.restarts]);
      if h.None? || h.value.shared != 0 {
        return None, false;
      }
      if h.value.nonShared > |h.value.rest| {
        return None, true;
      }
      behind := false;
      r := Some(h.value.rest[..h.value.nonShared]);
    }

    /** Binary search over the restart points, then a scan: lands on the first entry at
        or after the target. */
    method Seek(target: Data)
      requires Shape()
      modifies this
      ensures Placed()
      ensures Built() && Searchable(less, entries, target) ==>
        Stands(FirstAtOrAfter(less, entries, target)) && corrupted == old(corrupted) && overran == old(overran)
    {
      hide DataBytes, BuiltFor, Offset, RestartPoint, RestartsOk, Searchable, FirstAtOrAfter, DecodeSpec, Inside;
      ghost var good := Built() && Searchable(less, entries, target);
      if good {
        RestartCount();
        FirstStart();
      }
      var left, right := 0, layout.numRestarts - 1;
      while left < right
        invariant 0 <= left <= right < layout.numRestarts
        invariant good ==> left < |starts| && (left > 0 ==> starts[left] < |entries|)
        invariant good ==> left == 0 || less(entries[starts[left]].key, target)
        invariant corrupted == old(corrupted) && overran == old(overran)
      {
        var mid := (left + right + 1) / 2;
        if good {
          RestartInside(mid);
        }
        var midKey, behind := RestartKey(mid);
        if behind {
          Overrun();
          return;
        }
        if midKey.None? {
          CorruptionError();
          return;
        }
        if less(midKey.value, target) {
          left := mid;
        } else {
          right := mid - 1;
        }
      }
      ghost var j: nat := if good then starts[left] else 0;
      SeekToRestartPoint(left);
      if good {
        BeforeRestart(left, target);
      }
      while true
        invariant good ==> Ready(j) && corrupted == old(corrupted) && overran == old(overran)
        invariant good ==> j <= |entries| && forall k :: 0 <= k < j ==> less(entries[k].key, target)
        invariant restartIndex < layout.numRestarts
        decreases layout.restarts - nextOffset
      {
        var more := ParseNextKey(j);
        if good {
          ThisEntry(j);
        }
        if !more {
          if good {
            FirstIs(less, entries, target, j);
          }
          return;
        }
        if !less(key, target) {
          if good {
            FirstIs(less, entries, target, j);
          }
          return;
        }
        j := j + 1;
      }
    }

    lemma RestartInside(index: nat)
      requires Built() && 0 < index < layout.numRestarts
      ensures index < |starts| && starts[index] < |entries|
    {
    }

    lemma BeforeRestart(left: nat, target: Data)
      requires Built() && Searchable(less, entries, target) && left < |starts|
      requires left == 0 || (starts[left] < |entries| && less(entries[starts[left]].key, target))
      ensures starts[left] <= |entries| && forall k :: 0 <= k < starts[left] ==> less(entries[k].key, target)
    {
      hide DataBytes, RestartPoint, Offset;
    }

    lemma ThisEntry(j: nat)
      requires Stands(j)
      ensures j < |entries| ==> key == entries[j].key && Ready(j + 1)
    {
      hide DataBytes, RestartPoint, BuiltFor, RestartsOk;
    }
  }

  lemma WholeKey(key: Data)
    ensures key[0..] == key
  {
  }

  lemma PartsOfRest(a: Data, b: Data, rest: Data)
    ensures (a + b + rest)[..|a|] == a && (a + b + rest)[|a|..|a| + |b|] == b
  {
  }

  lemma DecodeBounds(input: Data)
    ensures DecodeSpec(input).Some? ==> |DecodeSpec(input).value.rest| < |input|
  {
  }

  /** The key at hand is long enough for what an entry shares with it. */
  lemma SharedIsThere(s: seq<nat>, entries: seq<Pair>, i: nat)
    requires i < |entries|
    ensures i in s ==> Shared(s, entries, i) == 0
    ensures i > 0 ==> Shared(s, entries, i) <= |entries[i - 1].key|
    ensures i > 0 ==> entries[i - 1].key[..Shared(s, entries, i)] == entries[i].key[..Shared(s, entries, i)]
  {
  }

  lemma KeyRestored(s: seq<nat>, entries: seq<Pair>, i: nat, before: Data, delta: Data)
    requires i < |entries| && (i in s || (i > 0 && before == entries[i - 1].key))
    requires delta == entries[i].key[Shared(s, entries, i)..] && Shared(s, entries, i) <= |before|
    ensures before[..Shared(s, entries, i)] + delta == entries[i].key
  {
    hide Shared;
    SharedIsThere(s, entries, i);
    var n := Shared(s, entries, i);
    assert entries[i].key[..n] + entries[i].key[n..] == entries[i].key;
    if i in s {
      assert before[..0] == [] && entries[i].key[..0] == [];
    }
  }
}
