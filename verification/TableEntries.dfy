/** Byte-level tables and memtables as the engine sees them: user keys by rank, entries by
    what their bytes say. A lookup over the bytes is the engine's lookup. */
module TableEntries {
  import opened InternalKeys
  import opened Bytes
  import opened Versions
  import opened Blocks
  import opened TableFormat
  import opened Tables
  import opened MemTables
  import K = TableKeys

  // ---------------------------------------------------------------- ranks

  function Smaller(keys: set<Data>, key: Data): set<Data> {
    set k | k in keys && K.BytesLess(k, key)
  }

  /** The rank of a key among finitely many. */
  function Rank(keys: set<Data>, key: Data): UserKey {
    |Smaller(keys, key)|
  }

  /** Ranks are ordered as the bytes are. */
  lemma RankOrder(keys: set<Data>, a: Data, b: Data)
    requires a in keys && b in keys
    ensures K.BytesLess(a, b) <==> Rank(keys, a) < Rank(keys, b)
    ensures a == b <==> Rank(keys, a) == Rank(keys, b)
  {
    hide K.BytesLess;
    K.Total(a, b);
    if K.BytesLess(a, b) {
      SmallerGrows(keys, a, b);
    } else if K.BytesLess(b, a) {
      SmallerGrows(keys, b, a);
    }
  }

  lemma SmallerGrows(keys: set<Data>, a: Data, b: Data)
    requires a in keys && K.BytesLess(a, b)
    ensures Rank(keys, a) < Rank(keys, b) && a != b && !K.BytesLess(b, a)
  {
    hide K.BytesLess;
    K.Irreflexive(a);
    forall k | k in Smaller(keys, a)
      ensures k in Smaller(keys, b)
    {
      K.Transitive(k, a, b);
    }
    if K.BytesLess(b, a) {
      K.Transitive(a, b, a);
    }
    assert Smaller(keys, a) < Smaller(keys, b) by {
      assert a in Smaller(keys, b) && a !in Smaller(keys, a);
    }
    SubsetIsSmaller(Smaller(keys, a), Smaller(keys, b));
  }

  lemma SubsetIsSmaller(s: set<Data>, t: set<Data>)
    requires s < t
    ensures |s| < |t|
  {
    assert t == s + (t - s);
    assert t - s != {};
  }

  // ---------------------------------------------------------------- entries

  function KeyIn(keys: set<Data>, key: Data): InternalKey
    requires K.IsInternalKey(key)
  {
    InternalKey(Rank(keys, K.ExtractUserKey(key)), K.Tag(key) / 256, if K.Tag(key) % 256 == TYPE_VALUE then Value else Deletion)
  }

  /** What an entry of a table says, with values read by `text`. */
  function EntryIn(keys: set<Data>, text: Data -> string, e: Pair): Entry
    requires K.IsInternalKey(e.key)
  {
    Entry(KeyIn(keys, e.key), text(e.value))
  }

  function EntriesIn(keys: set<Data>, text: Data -> string, entries: seq<Pair>): (r: seq<Entry>)
    requires forall i :: 0 <= i < |entries| ==> K.IsInternalKey(entries[i].key)
    ensures |r| == |entries|
  {
    seq(|entries|, i requires 0 <= i < |entries| => EntryIn(keys, text, entries[i]))
  }

  /** A well-formed internal key of one of the known user keys. */
  ghost predicate Known(keys: set<Data>, key: Data) {
    K.IsInternalKey(key) && K.Tag(key) % 256 in {TYPE_DELETION, TYPE_VALUE} && K.ExtractUserKey(key) in keys
  }

  lemma SameOrder(keys: set<Data>, a: Data, b: Data)
    requires Known(keys, a) && Known(keys, b)
    ensures K.Less(a, b) <==> Less(KeyIn(keys, a), KeyIn(keys, b))
  {
    hide K.BytesLess, K.Tag, Rank;
    RankOrder(keys, K.ExtractUserKey(a), K.ExtractUserKey(b));
    SameTag(keys, a);
    SameTag(keys, b);
  }

  lemma SameTag(keys: set<Data>, key: Data)
    requires Known(keys, key)
    ensures Tag(KeyIn(keys, key)) == K.Tag(key)
  {
    hide K.Tag, Rank;
  }

  lemma TargetIs(keys: set<Data>, user: Data, s: nat)
    requires user in keys && s <= K.MAX_SEQUENCE
    ensures Known(keys, Target(user, s)) && KeyIn(keys, Target(user, s)) == InternalKeys.LookupKey(Rank(keys, user), s)
  {
    hide K.Tag, Rank, K.InternalKey, K.ExtractUserKey, Smaller;
    TargetTag(user, s);
  }

  lemma TargetTag(user: Data, s: nat)
    requires s <= K.MAX_SEQUENCE
    ensures K.Tag(Target(user, s)) / 256 == s && K.Tag(Target(user, s)) % 256 == TYPE_VALUE
  {
    hide K.Tag;
    K.InternalKeyTag(user, K.PackSequenceAndType(s, K.VALUE_TYPE_FOR_SEEK));
    assert K.Tag(Target(user, s)) == s * 256 + 1;
  }

  lemma {:induction false} SeekIs(entries: seq<Entry>, k: InternalKey, i: nat)
    requires i <= |entries| && (i < |entries| ==> !Less(entries[i].key, k))
    requires forall j :: 0 <= j < i ==> Less(entries[j].key, k)
    ensures SeekIndex(entries, k) == i
  {
    hide Less;
  }

  /** Increasing bytes are sorted entries, and looking a user key up among them finds the
      entry that the engine finds. */
  lemma LookupIsFind(keys: set<Data>, text: Data -> string, entries: seq<Pair>, user: Data, s: nat)
    requires Increasing(entries) && forall i :: 0 <= i < |entries| ==> Known(keys, entries[i].key)
    requires user in keys && s <= K.MAX_SEQUENCE
    ensures Sorted(EntriesIn(keys, text, entries))
    ensures
      var r := Lookup(entries, Target(user, s));
      Find(EntriesIn(keys, text, entries), Rank(keys, user), s) ==
        if r.Some? && K.IsInternalKey(r.value.key) then Some(EntryIn(keys, text, r.value)) else None
    ensures var r := Lookup(entries, Target(user, s)); r.Some? ==> K.IsInternalKey(r.value.key)
  {
    hide K.Less, Less, Rank, K.Tag, FirstAtOrAfter;
    var k, all := Target(user, s), EntriesIn(keys, text, entries);
    var i := FirstAtOrAfter(K.Less, entries, k);
    TargetIs(keys, user, s);
    forall a, b | 0 <= a < |entries| && 0 <= b < |entries|
      ensures K.Less(entries[a].key, entries[b].key) <==> Less(all[a].key, all[b].key)
    {
      SameOrder(keys, entries[a].key, entries[b].key);
    }
    forall j | 0 <= j < |entries|
      ensures K.Less(entries[j].key, k) <==> Less(all[j].key, InternalKeys.LookupKey(Rank(keys, user), s))
    {
      SameOrder(keys, entries[j].key, k);
    }
    SeekIs(all, InternalKeys.LookupKey(Rank(keys, user), s), i);
    if i < |entries| {
      RankOrder(keys, K.ExtractUserKey(entries[i].key), user);
    }
  }

  /** So the newest entry in the engine's sense is what the bytes give. */
  lemma BytesGiveNewest(keys: set<Data>, text: Data -> string, entries: seq<Pair>, user: Data, s: nat)
    requires Increasing(entries) && forall i :: 0 <= i < |entries| ==> Known(keys, entries[i].key)
    requires user in keys && s <= K.MAX_SEQUENCE
    ensures
      var r, S := Lookup(entries, Target(user, s)), Elements(EntriesIn(keys, text, entries));
      if r.Some? && K.IsInternalKey(r.value.key) then Newest(S, Rank(keys, user), s, EntryIn(keys, text, r.value))
      else !HasCandidate(S, Rank(keys, user), s)
  {
    hide Lookup, Newest, HasCandidate, Find, Rank, K.Tag;
    LookupIsFind(keys, text, entries, user, s);
    FindIsNewest(EntriesIn(keys, text, entries), Rank(keys, user), s);
  }

  /** A table that was built from increasing keys is a well-formed file of the engine. */
  lemma TableIsFile(keys: set<Data>, text: Data -> string, entries: seq<Pair>, number: nat, size: nat)
    requires Increasing(entries) && entries != [] && forall i :: 0 <= i < |entries| ==> Known(keys, entries[i].key)
    ensures
      var all := EntriesIn(keys, text, entries);
      FileOk(FileMetaData(number, size, all[0].key, all[|all| - 1].key, all))
  {
    hide K.Less, Less, Rank, K.Tag;
    var all := EntriesIn(keys, text, entries);
    forall a, b | 0 <= a < b < |all|
      ensures Less(all[a].key, all[b].key)
    {
      SameOrder(keys, entries[a].key, entries[b].key);
    }
    forall e | e in all
      ensures e.key.sequence <= MAX_SEQUENCE_NUMBER
    {
      var i :| 0 <= i < |all| && all[i] == e;
      K.TagBound(entries[i].key);
    }
  }
}
