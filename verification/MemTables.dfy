/** The memtable: entries as length-prefixed buffers in the skip list's order, and the
    lookup of a user key as a snapshot sees it. */
module MemTables {
  import opened InternalKeys
  import opened Bytes
  import opened Coding
  import opened Blocks
  import opened TableFormat
  import opened Tables
  import K = TableKeys

  // ---------------------------------------------------------------- buffers

  /** Length and bytes of the internal key, length and bytes of the value. */
  function EncodeEntry(e: Pair): Data {
    Prefixed(e.key) + Prefixed(e.value)
  }

  function KeyOf(buf: Data): Data {
    var k := GetLengthPrefixedSlice(buf);
    if k.Some? then k.value.value else []
  }

  function ValueOf(buf: Data): Data {
    var k := GetLengthPrefixedSlice(buf);
    var v := GetLengthPrefixedSlice(if k.Some? then k.value.rest else []);
    if v.Some? then v.value.value else []
  }

  function EntryOf(buf: Data): Pair {
    Pair(KeyOf(buf), ValueOf(buf))
  }

  lemma EntryInverse(e: Pair)
    requires |e.key| < TWO_32 && |e.value| < TWO_32
    ensures EntryOf(EncodeEntry(e)) == e
    ensures GetLengthPrefixedSlice(EncodeEntry(e)) == Some(Parsed(e.key, Prefixed(e.value)))
  {
    hide GetLengthPrefixedSlice, Prefixed;
    PrefixedInverse(e.key, Prefixed(e.value));
    PrefixedInverse(e.value, []);
    assert Prefixed(e.value) + [] == Prefixed(e.value);
  }

  /** Bytes that a number takes. */
  method VarintLength(v: nat) returns (len: nat)
    ensures len == |Varint(v)|
  {
    var rest := v;
    len := 1;
    while rest >= 128
      invariant |Varint(v)| == len - 1 + |Varint(rest)|
    {
      rest := rest / 128;
      len := len + 1;
    }
  }

  // ---------------------------------------------------------------- lookup keys

  /** What is looked up for a user key at a snapshot, and its parts. */
  class LookupKey {
    const space: Data
    const kstart: nat

    constructor (user: Data, s: nat)
      requires |user| + 8 < TWO_32
      ensures MemtableKey() == Prefixed(Target(user, s)) && InternalKey() == Target(user, s) && UserKey() == user
    {
      var dst := EncodeVarint32(|user| + 8);
      kstart := |dst|;
      space := dst + user + Fixed(K.PackSequenceAndType(s, K.VALUE_TYPE_FOR_SEEK), 8);
      new;
      assert space == Varint(|user| + 8) + Target(user, s);
      assert space[kstart..] == Target(user, s);
    }

    function MemtableKey(): Data {
      space
    }

    function InternalKey(): Data {
      if kstart <= |space| then space[kstart..] else []
    }

    function UserKey(): Data {
      if kstart + 8 <= |space| then space[kstart..|space| - 8] else []
    }
  }

  /** The newest that a snapshot may see of a user key comes at or after this. */
  function Target(user: Data, s: nat): (k: Data)
    ensures K.IsInternalKey(k) && K.ExtractUserKey(k) == user
  {
    K.InternalKey(user, K.PackSequenceAndType(s, K.VALUE_TYPE_FOR_SEEK))
  }

  function SequenceOf(e: Pair): nat
    requires K.IsInternalKey(e.key)
  {
    K.Tag(e.key) / 256
  }

  // ---------------------------------------------------------------- the table

  const TYPE_DELETION := 0
  const TYPE_VALUE := 1

  /** The comparator parses both buffers. */
  predicate KeyBefore(a: Data, b: Data) {
    K.Less(KeyOf(a), KeyOf(b))
  }

  /** Where the skip list's search ends. */
  function FirstNotBefore(table: seq<Data>, target: Data): (i: nat)
    ensures i <= |table|
  {
    if table == [] || !KeyBefore(table[0], target) then 0 else 1 + FirstNotBefore(table[1..], target)
  }

  lemma {:induction false} SearchEnds(table: seq<Data>, target: Data)
    ensures
      var i := FirstNotBefore(table, target);
      && (forall j :: 0 <= j < i ==> KeyBefore(table[j], target))
      && (i < |table| ==> !KeyBefore(table[i], target))
  {
    hide KeyBefore;
    if table != [] && KeyBefore(table[0], target) {
      SearchEnds(table[1..], target);
    }
  }

  ghost predicate IsEntry(e: Pair) {
    && K.IsInternalKey(e.key) && K.Tag(e.key) % 256 in {TYPE_DELETION, TYPE_VALUE}
    && |e.key| < TWO_32 && |e.value| < TWO_32
  }

  /** Sequence numbers are not used again. */
  ghost predicate OnePerSequence(entries: seq<Pair>) {
    forall x, y :: x in entries && y in entries && SameSequence(x, y) ==> x == y
  }

  ghost predicate SameSequence(x: Pair, y: Pair) {
    && K.IsInternalKey(x.key) && K.IsInternalKey(y.key)
    && K.ExtractUserKey(x.key) == K.ExtractUserKey(y.key) && SequenceOf(x) == SequenceOf(y)
  }

  ghost function EntriesOf(table: seq<Data>): (r: seq<Pair>) {
    seq(|table|, i requires 0 <= i < |table| => EntryOf(table[i]))
  }

  /** The search looks for the same place as a lookup among the entries. */
  lemma {:induction false} SearchIsLookup(table: seq<Data>, target: Data)
    ensures FirstNotBefore(table, target) == FirstAtOrAfter(K.Less, EntriesOf(table), KeyOf(target))
  {
    hide KeyOf, ValueOf, K.Less;
    SearchEnds(table, target);
    FirstIs(K.Less, EntriesOf(table), KeyOf(target), FirstNotBefore(table, target));
  }

  class MemTable {
    var table: seq<Data>

    constructor ()
      ensures Valid() && Entries() == []
    {
      table := [];
    }

    ghost predicate Valid()
      reads this
    {
      && (forall i :: 0 <= i < |table| ==> IsEntry(EntryOf(table[i])) && table[i] == EncodeEntry(EntryOf(table[i])))
      && Increasing(Entries()) && OnePerSequence(Entries())
    }

    ghost function Entries(): seq<Pair>
      reads this
    {
      EntriesOf(table)
    }

    /** The skip list holds no internal key twice: sequence numbers are not used again. */
    method Add(s: nat, t: nat, key: Data, value: Data)
      requires Valid() && s <= K.MAX_SEQUENCE && t in {TYPE_DELETION, TYPE_VALUE}
      requires |key| + 8 < TWO_32 && |value| < TWO_32
      requires forall e :: e in Entries() && K.IsInternalKey(e.key) && K.ExtractUserKey(e.key) == key ==> SequenceOf(e) != s
      modifies this
      ensures Valid()
      ensures
        var e := Pair(K.InternalKey(key, K.PackSequenceAndType(s, t)), value);
        IsEntry(e) && forall x :: x in Entries() <==> x == e || x in old(Entries())
    {
      hide Prefixed, KeyOf, ValueOf, K.Tag, K.BytesLess, Increasing, IsEntry, GetLengthPrefixedSlice, Varint, Fixed;
      var keyLength := VarintLength(|key| + 8);
      var valueLength := VarintLength(|value|);
      var encodedLen := keyLength + (|key| + 8) + valueLength + |value|;
      var p := EncodeVarint32(|key| + 8);
      var buf := p + key + Fixed(K.PackSequenceAndType(s, t), 8);
      p := EncodeVarint32(|value|);
      buf := buf + p + value;
      assert |buf| == encodedLen;
      ghost var e := Pair(K.InternalKey(key, K.PackSequenceAndType(s, t)), value);
      NewEntry(e, key, s, t, buf);
      var i := FirstNotBefore(table, buf);
      InsertedAt(table, buf, i);
      table := table[..i] + [buf] + table[i..];
    }

    /** The first entry at or after the lookup key, if it is for the same user key. */
    method Get(user: Data, s: nat) returns (found: bool, notFound: bool, value: Data)
      requires Valid() && |user| + 8 < TWO_32 && s <= K.MAX_SEQUENCE
      ensures
        var r := Lookup(Entries(), Target(user, s));
        && (found <==> r.Some?)
        && (found ==> K.IsInternalKey(r.value.key) && (notFound <==> K.Tag(r.value.key) % 256 == TYPE_DELETION))
        && (found && !notFound ==> value == r.value.value)
    {
      hide Prefixed, K.Tag, K.BytesLess, GetLengthPrefixedSlice, K.Less;
      var key := new LookupKey(user, s);
      var memkey := key.MemtableKey();
      found, notFound, value := false, false, [];
      PrefixedInverse(Target(user, s), []);
      assert memkey + [] == memkey;
      var i := FirstNotBefore(table, memkey);
      SearchIsLookup(table, memkey);
      if i < |table| {
        var entry := table[i];
        ghost var e := Entries()[i];
        EntryParts(entry, e);
        var k := GetLengthPrefixedSlice(entry);
        var internal := k.value.value;
        if internal[..|internal| - 8] == key.UserKey() {
          var tag := FixedValue(internal[|internal| - 8..]);
          if tag % 256 == TYPE_VALUE {
            var v := GetLengthPrefixedSlice(k.value.rest);
            return true, false, v.value.value;
          } else if tag % 256 == TYPE_DELETION {
            return true, true, [];
          }
        }
      }
    }
  }

  /** Parsing a buffer of the table gives its entry. */
  lemma EntryParts(buf: Data, e: Pair)
    requires IsEntry(e) && buf == EncodeEntry(e)
    ensures
      var k, tag := GetLengthPrefixedSlice(buf), K.Tag(e.key);
      && k.Some? && k.value.value == e.key && FixedValue(e.key[|e.key| - 8..]) == tag
      && GetLengthPrefixedSlice(k.value.rest) == Some(Parsed(e.value, []))
  {
    hide GetLengthPrefixedSlice, Prefixed, FixedValue;
    EntryInverse(e);
    PrefixedInverse(e.value, []);
    assert Prefixed(e.value) + [] == Prefixed(e.value);
  }

  lemma NewEntry(e: Pair, key: Data, s: nat, t: nat, buf: Data)
    requires s <= K.MAX_SEQUENCE && t in {TYPE_DELETION, TYPE_VALUE} && |key| + 8 < TWO_32 && |e.value| < TWO_32
    requires e.key == K.InternalKey(key, K.PackSequenceAndType(s, t))
    requires buf == Varint(|key| + 8) + key + Fixed(K.PackSequenceAndType(s, t), 8) + Varint(|e.value|) + e.value
    ensures IsEntry(e) && SequenceOf(e) == s && EntryOf(buf) == e && buf == EncodeEntry(e)
  {
    hide Varint, Fixed, FixedValue, EntryOf, GetLengthPrefixedSlice, K.Tag, IsEntry;
    TagParts(e, key, s, t);
    EntryInverse(e);
    SameBytes(Varint(|key| + 8), key, Fixed(K.PackSequenceAndType(s, t), 8), Varint(|e.value|), e.value);
  }

  lemma TagParts(e: Pair, key: Data, s: nat, t: nat)
    requires s <= K.MAX_SEQUENCE && t in {TYPE_DELETION, TYPE_VALUE} && |key| + 8 < TWO_32 && |e.value| < TWO_32
    requires e.key == K.InternalKey(key, K.PackSequenceAndType(s, t))
    ensures IsEntry(e) && SequenceOf(e) == s && |e.key| == |key| + 8
  {
    hide K.Tag, Fixed;
    K.InternalKeyTag(key, K.PackSequenceAndType(s, t));
  }

  lemma SameBytes(a: Data, b: Data, c: Data, d: Data, e: Data)
    ensures a + b + c + d + e == (a + (b + c)) + (d + e)
  {
  }

  /** A new key put where the search ends keeps the order. */
  lemma InsertedAt(table: seq<Data>, buf: Data, i: nat)
    requires Increasing(EntriesOf(table)) && K.IsInternalKey(KeyOf(buf)) && i == FirstNotBefore(table, buf)
    requires forall e :: e in EntriesOf(table) && K.IsInternalKey(e.key) && K.ExtractUserKey(e.key) == K.ExtractUserKey(KeyOf(buf)) ==>
               K.Tag(e.key) != K.Tag(KeyOf(buf))
    ensures
      var r := table[..i] + [buf] + table[i..];
      Increasing(EntriesOf(r)) && forall x :: x in EntriesOf(r) <==> x == EntryOf(buf) || x in EntriesOf(table)
  {
    hide KeyOf, ValueOf, K.Tag, K.BytesLess, K.Less, K.ExtractUserKey;
    var entries, e := EntriesOf(table), EntryOf(buf);
    SearchEnds(table, buf);
    var r := entries[..i] + [e] + entries[i..];
    assert EntriesOf(table[..i] + [buf] + table[i..]) == r;
    if i < |entries| {
      assert entries[i] in entries;
      K.LessTotal(e.key, entries[i].key);
      assert K.Less(e.key, entries[i].key);
    }
    forall k | i <= k < |entries|
      ensures K.Less(e.key, entries[k].key)
    {
      if k > i {
        K.LessTransitive(e.key, entries[i].key, entries[k].key);
      }
    }
    forall k | 0 <= k < i
      ensures K.Less(entries[k].key, e.key)
    {
      assert KeyBefore(table[k], buf);
    }
    SplicedIncreasing(entries, e, i);
    InsertedMembers(entries, e, i);
  }

  lemma SplicedIncreasing(entries: seq<Pair>, e: Pair, i: nat)
    requires Increasing(entries) && i <= |entries| && K.IsInternalKey(e.key)
    requires forall k :: 0 <= k < i ==> K.Less(entries[k].key, e.key)
    requires forall k :: i <= k < |entries| ==> K.Less(e.key, entries[k].key)
    ensures Increasing(entries[..i] + [e] + entries[i..])
  {
    hide K.Less, K.IsInternalKey;
    var r := entries[..i] + [e] + entries[i..];
    assert forall k :: 0 <= k < |r| ==> r[k] == if k < i then entries[k] else if k == i then e else entries[k - 1];
  }

  lemma InsertedMembers(entries: seq<Pair>, e: Pair, i: nat)
    requires i <= |entries|
    ensures forall x :: x in entries[..i] + [e] + entries[i..] <==> x == e || x in entries
  {
    assert entries == entries[..i] + entries[i..];
  }

  // ---------------------------------------------------------------- what is read

  /** A lookup sees the entry with the largest sequence number up to the snapshot. */
  lemma GetIsNewest(entries: seq<Pair>, user: Data, s: nat)
    requires Increasing(entries) && s <= K.MAX_SEQUENCE && forall e :: e in entries ==> IsEntry(e)
    ensures
      var r := Lookup(entries, Target(user, s));
      && (r.Some? ==> r.value in entries && K.ExtractUserKey(r.value.key) == user && SequenceOf(r.value) <= s)
      && forall e :: e in entries && K.ExtractUserKey(e.key) == user && SequenceOf(e) <= s ==>
           r.Some? && SequenceOf(e) <= SequenceOf(r.value)
  {
    hide K.BytesLess, Lookup, Increasing;
    var k := Target(user, s);
    K.InternalKeyTag(user, K.PackSequenceAndType(s, K.VALUE_TYPE_FOR_SEEK));
    LookupIsNewest(entries, k);
    forall e | e in entries && K.ExtractUserKey(e.key) == user && SequenceOf(e) <= s
      ensures K.Tag(e.key) <= K.Tag(k)
    {
      assert IsEntry(e);
    }
  }

  /** After an entry was added, exactly the snapshots from its number up to the next
      newer entry of the same user key read it; the others read what they did before. */
  lemma AddIsSeen(before: seq<Pair>, after: seq<Pair>, e: Pair, user: Data, s: nat)
    requires Increasing(before) && Increasing(after) && OnePerSequence(after) && s <= K.MAX_SEQUENCE
    requires e !in before && (forall x :: x in after <==> x == e || x in before) && (forall x :: x in after ==> IsEntry(x))
    ensures
      var was, r := Lookup(before, Target(user, s)), Lookup(after, Target(user, s));
      r == if K.ExtractUserKey(e.key) == user && SequenceOf(e) <= s && (was.None? || SequenceOf(was.value) < SequenceOf(e))
           then Some(e) else was
  {
    hide K.BytesLess, Lookup, Increasing, K.Tag, K.ExtractUserKey;
    GetIsNewest(before, user, s);
    GetIsNewest(after, user, s);
    var was, r := Lookup(before, Target(user, s)), Lookup(after, Target(user, s));
    forall x | x in before
      ensures !SameSequence(x, e)
    {
    }
    assert r.Some? && was.Some? && SequenceOf(r.value) == SequenceOf(was.value) ==> SameSequence(r.value, was.value);
    assert r.Some? && K.ExtractUserKey(e.key) == user && SequenceOf(r.value) == SequenceOf(e) ==> SameSequence(r.value, e);
  }
}
