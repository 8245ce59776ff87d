/** Manifest records: the byte form of an edit, and reading it back. */
module VersionEdits {
  import opened InternalKeys
  import opened Versions
  import opened VersionBuilder
  import opened Manifest
  import opened Bytes
  import opened Coding

  const COMPARATOR := 1
  const LOG_NUMBER := 2
  const NEXT_FILE_NUMBER := 3
  const LAST_SEQUENCE := 4
  const COMPACT_POINTER := 5
  const DELETED_FILE := 6
  const NEW_FILE := 7
  const PREV_LOG_NUMBER := 9

  /** What a record says of a table; its keys are encoded internal keys. */
  datatype FileRecord = FileRecord(number: nat, fileSize: nat, smallest: Data, largest: Data)

  /** The fields of an edit; `deletedFiles` is an ordered set. */
  datatype Edit = Edit(
    comparator: Option<Data>, logNumber: Option<nat>, prevLogNumber: Option<nat>,
    nextFileNumber: Option<nat>, lastSequence: Option<nat>,
    compactPointers: seq<(nat, Data)>, deletedFiles: seq<(nat, nat)>, newFiles: seq<(nat, FileRecord)>)

  const NO_EDIT := Edit(None, None, None, None, None, [], [], [])

  // ---------------------------------------------------------------- the ordered set of deleted files

  predicate PairLess(a: (nat, nat), b: (nat, nat)) {
    a.0 < b.0 || (a.0 == b.0 && a.1 < b.1)
  }

  ghost predicate PairsSorted(s: seq<(nat, nat)>) {
    forall i, j :: 0 <= i < j < |s| ==> PairLess(s[i], s[j])
  }

  /** Insertion into an ordered set. */
  function InsertPair(s: seq<(nat, nat)>, p: (nat, nat)): seq<(nat, nat)> {
    if s == [] || PairLess(p, s[0]) then [p] + s
    else if PairLess(s[0], p) then [s[0]] + InsertPair(s[1..], p)
    else s
  }

  lemma {:induction false} InsertLast(s: seq<(nat, nat)>, p: (nat, nat))
    requires forall i :: 0 <= i < |s| ==> PairLess(s[i], p)
    ensures InsertPair(s, p) == s + [p]
  {
    if s != [] {
      InsertLast(s[1..], p);
      assert s == [s[0]] + s[1..];
    }
  }

  // ---------------------------------------------------------------- items

  /** One tagged item of a record. */
  datatype Item =
    | Comparator(name: Data)
    | Number(tag: nat, value: nat)
    | CompactPointer(level: nat, key: Data)
    | DeletedFile(level: nat, number: nat)
    | NewFile(level: nat, file: FileRecord)

  predicate IsNumberTag(tag: nat) {
    tag == LOG_NUMBER || tag == PREV_LOG_NUMBER || tag == NEXT_FILE_NUMBER || tag == LAST_SEQUENCE
  }

  /** The widths the source's types give the numbers. */
  predicate ItemFits(item: Item) {
    match item
    case Comparator(name) => |name| < TWO_32
    case Number(tag, v) => IsNumberTag(tag) && v < TWO_64
    case CompactPointer(level, key) => level < NUM_LEVELS && |key| < TWO_32
    case DeletedFile(level, number) => level < NUM_LEVELS && number < TWO_64
    case NewFile(level, f) =>
      level < NUM_LEVELS && f.number < TWO_64 && f.fileSize < TWO_64 && |f.smallest| < TWO_32 && |f.largest| < TWO_32
  }

  /** What the decoder checks of an item's level. */
  predicate LevelInRange(item: Item) {
    match item
    case CompactPointer(level, _) => level < NUM_LEVELS
    case DeletedFile(level, _) => level < NUM_LEVELS
    case NewFile(level, _) => level < NUM_LEVELS
    case _ => true
  }

  function ItemTag(item: Item): nat {
    match item
    case Comparator(_) => COMPARATOR
    case Number(tag, _) => tag
    case CompactPointer(_, _) => COMPACT_POINTER
    case DeletedFile(_, _) => DELETED_FILE
    case NewFile(_, _) => NEW_FILE
  }

  function ItemBody(item: Item): Data {
    match item
    case Comparator(name) => Prefixed(name)
    case Number(_, v) => Varint(v)
    case CompactPointer(level, key) => Varint(level) + Prefixed(key)
    case DeletedFile(level, number) => Varint(level) + Varint(number)
    case NewFile(level, f) =>
      Varint(level) + (Varint(f.number) + (Varint(f.fileSize) + (Prefixed(f.smallest) + Prefixed(f.largest))))
  }

  function EncodeItem(item: Item): Data {
    Varint(ItemTag(item)) + ItemBody(item)
  }

  function EncodeItems(items: seq<Item>): Data {
    if items == [] then [] else EncodeItem(items[0]) + EncodeItems(items[1..])
  }

  /** What an item does to an edit. */
  function Apply(e: Edit, item: Item): Edit {
    match item
    case Comparator(name) => e.(comparator := Some(name))
    case Number(tag, v) =>
      if tag == LOG_NUMBER then e.(logNumber := Some(v))
      else if tag == PREV_LOG_NUMBER then e.(prevLogNumber := Some(v))
      else if tag == NEXT_FILE_NUMBER then e.(nextFileNumber := Some(v))
      else e.(lastSequence := Some(v))
    case CompactPointer(level, key) => e.(compactPointers := e.compactPointers + [(level, key)])
    case DeletedFile(level, number) => e.(deletedFiles := InsertPair(e.deletedFiles, (level, number)))
    case NewFile(level, f) => e.(newFiles := e.newFiles + [(level, f)])
  }

  function ApplyAll(e: Edit, items: seq<Item>): Edit
    decreases |items|
  {
    if items == [] then e else ApplyAll(Apply(e, items[0]), items[1..])
  }

  lemma {:induction false} ApplyConcat(e: Edit, a: seq<Item>, b: seq<Item>)
    ensures ApplyAll(e, a + b) == ApplyAll(ApplyAll(e, a), b)
    decreases |a|
  {
    hide Apply;
    if a == [] {
      assert a + b == b;
    } else {
      assert (a + b)[1..] == a[1..] + b;
      ApplyConcat(Apply(e, a[0]), a[1..], b);
    }
  }

  lemma {:induction false} EncodeConcat(a: seq<Item>, b: seq<Item>)
    ensures EncodeItems(a + b) == EncodeItems(a) + EncodeItems(b)
  {
    hide EncodeItem;
    if a == [] {
      assert a + b == b;
    } else {
      assert (a + b)[1..] == a[1..] + b;
      EncodeConcat(a[1..], b);
    }
  }

  // ---------------------------------------------------------------- parsing an item

  function GetLevel(input: Data): (r: Option<Parsed<nat>>)
    ensures r.Some? ==> r.value.value < NUM_LEVELS && |r.value.rest| < |input|
  {
    var v := GetVarint32(input);
    if v.Some? && v.value.value < NUM_LEVELS then v else None
  }

  lemma LevelInverse(level: nat, rest: Data)
    requires level < NUM_LEVELS
    ensures GetLevel(Varint(level) + rest) == Some(Parsed(level, rest))
  {
    hide GetVarint32, Varint;
    Varint32Inverse(level, rest);
  }

  /** Writing, in the order of the fields. */
  function Items(e: Edit): seq<Item> {
    (if e.comparator.Some? then [Comparator(e.comparator.value)] else [])
    + NumberItem(LOG_NUMBER, e.logNumber)
    + NumberItem(PREV_LOG_NUMBER, e.prevLogNumber)
    + NumberItem(NEXT_FILE_NUMBER, e.nextFileNumber)
    + NumberItem(LAST_SEQUENCE, e.lastSequence)
    + PointerItems(e.compactPointers) + DeletedItems(e.deletedFiles) + NewItems(e.newFiles)
  }

  function NumberItem(tag: nat, v: Option<nat>): seq<Item> {
    if v.Some? then [Number(tag, v.value)] else []
  }

  function PointerItems(s: seq<(nat, Data)>): (r: seq<Item>)
    ensures |r| == |s|
  {
    seq(|s|, i requires 0 <= i < |s| => CompactPointer(s[i].0, s[i].1))
  }

  function DeletedItems(s: seq<(nat, nat)>): (r: seq<Item>)
    ensures |r| == |s|
  {
    seq(|s|, i requires 0 <= i < |s| => DeletedFile(s[i].0, s[i].1))
  }

  function NewItems(s: seq<(nat, FileRecord)>): (r: seq<Item>)
    ensures |r| == |s|
  {
    seq(|s|, i requires 0 <= i < |s| => NewFile(s[i].0, s[i].1))
  }

  /** An item read from the front of the input, or why there is none. */
  datatype Outcome = Good(item: Item, rest: Data) | Bad(msg: string)

  function ParseKeyItem(input: Data): (r: Outcome)
    ensures r.Good? ==> LevelInRange(r.item) && |r.rest| <= |input|
  {
    var level := GetLevel(input);
    if level.None? then Bad("compaction pointer")
    else
      var key := GetLengthPrefixedSlice(level.value.rest);
      if key.None? then Bad("compaction pointer")
      else Good(CompactPointer(level.value.value, key.value.value), key.value.rest)
  }

  function ParseDeleted(input: Data): (r: Outcome)
    ensures r.Good? ==> LevelInRange(r.item) && |r.rest| <= |input|
  {
    var level := GetLevel(input);
    if level.None? then Bad("deleted file")
    else
      var number := GetVarint64(level.value.rest);
      if number.None? then Bad("deleted file")
      else Good(DeletedFile(level.value.value, number.value.value), number.value.rest)
  }

  function ParseNew(input: Data): (r: Outcome)
    ensures r.Good? ==> LevelInRange(r.item) && |r.rest| <= |input|
  {
    var level := GetLevel(input);
    if level.None? then Bad("new-file entry")
    else
      var number := GetVarint64(level.value.rest);
      if number.None? then Bad("new-file entry")
      else
        var size := GetVarint64(number.value.rest);
        if size.None? then Bad("new-file entry")
        else
          var smallest := GetLengthPrefixedSlice(size.value.rest);
          if smallest.None? then Bad("new-file entry")
          else
            var largest := GetLengthPrefixedSlice(smallest.value.rest);
            if largest.None? then Bad("new-file entry")
            else
              Good(NewFile(level.value.value,
                           FileRecord(number.value.value, size.value.value, smallest.value.value, largest.value.value)),
                   largest.value.rest)
  }

  function ParseNumber(tag: nat, input: Data, msg: string): (r: Outcome)
    requires IsNumberTag(tag)
    ensures r.Good? ==> LevelInRange(r.item) && |r.rest| <= |input|
  {
    var v := GetVarint64(input);
    if v.None? then Bad(msg) else Good(Number(tag, v.value.value), v.value.rest)
  }

  /** What stands behind a tag. */
  function ParseBody(tag: nat, input: Data): (r: Outcome)
    ensures r.Good? ==> LevelInRange(r.item) && |r.rest| <= |input|
  {
    if tag == COMPARATOR then
      var name := GetLengthPrefixedSlice(input);
      if name.None? then Bad("comparator name") else Good(Comparator(name.value.value), name.value.rest)
    else if tag == LOG_NUMBER then ParseNumber(tag, input, "log number")
    else if tag == PREV_LOG_NUMBER then ParseNumber(tag, input, "previous log number")
    else if tag == NEXT_FILE_NUMBER then ParseNumber(tag, input, "next file number")
    else if tag == LAST_SEQUENCE then ParseNumber(tag, input, "last sequence number")
    else if tag == COMPACT_POINTER then ParseKeyItem(input)
    else if tag == DELETED_FILE then ParseDeleted(input)
    else if tag == NEW_FILE then ParseNew(input)
    else Bad("unknown tag")
  }

  lemma NewInverse(level: nat, f: FileRecord, rest: Data)
    requires ItemFits(NewFile(level, f))
    ensures ParseNew(ItemBody(NewFile(level, f)) + rest) == Good(NewFile(level, f), rest)
  {
    hide GetLevel, GetVarint64, GetLengthPrefixedSlice, Varint, Prefixed;
    var r4 := Prefixed(f.largest) + rest;
    var r3 := Prefixed(f.smallest) + r4;
    var r2 := Varint(f.fileSize) + r3;
    var r1 := Varint(f.number) + r2;
    assert ItemBody(NewFile(level, f)) + rest == Varint(level) + r1;
    LevelInverse(level, r1);
    Varint64Inverse(f.number, r2);
    Varint64Inverse(f.fileSize, r3);
    PrefixedInverse(f.smallest, r4);
    PrefixedInverse(f.largest, rest);
  }

  lemma BodyInverse(item: Item, rest: Data)
    requires ItemFits(item)
    ensures ParseBody(ItemTag(item), ItemBody(item) + rest) == Good(item, rest)
  {
    hide GetLevel, GetVarint64, GetLengthPrefixedSlice, Varint, Prefixed, ParseNew;
    match item
    case Comparator(name) => PrefixedInverse(name, rest);
    case Number(_, v) => Varint64Inverse(v, rest);
    case CompactPointer(level, key) =>
      assert ItemBody(item) + rest == Varint(level) + (Prefixed(key) + rest);
      LevelInverse(level, Prefixed(key) + rest);
      PrefixedInverse(key, rest);
    case DeletedFile(level, number) =>
      assert ItemBody(item) + rest == Varint(level) + (Varint(number) + rest);
      LevelInverse(level, Varint(number) + rest);
      Varint64Inverse(number, rest);
    case NewFile(level, f) => NewInverse(level, f, rest);
  }

  // ---------------------------------------------------------------- decoding a record

  /** The edit after reading the input into it, and the error that stopped it. */
  function Decode(e: Edit, input: Data): (Edit, Option<string>)
    decreases |input|
  {
    var tag := GetVarint32(input);
    if tag.None? then (e, if input == [] then None else Some("invalid tag"))
    else
      match ParseBody(tag.value.value, tag.value.rest)
      case Bad(msg) => (e, Some(msg))
      case Good(item, rest) => Decode(Apply(e, item), rest)
  }

  ghost predicate AllFit(items: seq<Item>) {
    forall i :: 0 <= i < |items| ==> ItemFits(items[i])
  }

  /** Reading back items applies them, in any order they were written. */
  lemma {:induction false} DecodeItems(e: Edit, items: seq<Item>)
    requires AllFit(items)
    ensures Decode(e, EncodeItems(items)) == (ApplyAll(e, items), None)
    decreases |items|
  {
    hide ParseBody, GetVarint32, Varint, ItemBody, ItemTag, Apply;
    if items == [] {
      NothingToRead();
    } else {
      var item, rest := items[0], EncodeItems(items[1..]);
      assert EncodeItems(items) == Varint(ItemTag(item)) + (ItemBody(item) + rest);
      TagFits(item);
      Varint32Inverse(ItemTag(item), ItemBody(item) + rest);
      BodyInverse(item, rest);
      DecodeItems(Apply(e, item), items[1..]);
    }
  }

  lemma TagFits(item: Item)
    requires ItemFits(item)
    ensures ItemTag(item) < TWO_32
  {
  }

  lemma NothingToRead()
    ensures GetVarint32([]) == None
  {
  }

  // ---------------------------------------------------------------- the items of an edit give the edit

  ghost predicate Fits(e: Edit) {
    && AllFit(Items(e))
    && PairsSorted(e.deletedFiles)
  }

  lemma {:induction false} ApplyPointers(e: Edit, s: seq<(nat, Data)>)
    ensures ApplyAll(e, PointerItems(s)) == e.(compactPointers := e.compactPointers + s)
    decreases |s|
  {
    if s == [] {
      assert e.compactPointers + s == e.compactPointers;
    } else {
      assert PointerItems(s)[1..] == PointerItems(s[1..]);
      assert [(s[0].0, s[0].1)] + s[1..] == s;
      ApplyPointers(Apply(e, CompactPointer(s[0].0, s[0].1)), s[1..]);
    }
  }

  lemma {:induction false} ApplyNew(e: Edit, s: seq<(nat, FileRecord)>)
    ensures ApplyAll(e, NewItems(s)) == e.(newFiles := e.newFiles + s)
    decreases |s|
  {
    if s == [] {
      assert e.newFiles + s == e.newFiles;
    } else {
      assert NewItems(s)[1..] == NewItems(s[1..]);
      assert [(s[0].0, s[0].1)] + s[1..] == s;
      ApplyNew(Apply(e, NewFile(s[0].0, s[0].1)), s[1..]);
    }
  }

  lemma {:induction false} ApplyDeleted(e: Edit, s: seq<(nat, nat)>)
    requires PairsSorted(e.deletedFiles + s)
    ensures ApplyAll(e, DeletedItems(s)) == e.(deletedFiles := e.deletedFiles + s)
    decreases |s|
  {
    if s == [] {
      assert e.deletedFiles + s == e.deletedFiles;
    } else {
      var all := e.deletedFiles + s;
      assert DeletedItems(s)[1..] == DeletedItems(s[1..]);
      forall i | 0 <= i < |e.deletedFiles|
        ensures PairLess(e.deletedFiles[i], s[0])
      {
        assert all[i] == e.deletedFiles[i] && all[|e.deletedFiles|] == s[0];
      }
      InsertLast(e.deletedFiles, s[0]);
      assert (s[0].0, s[0].1) == s[0];
      assert e.deletedFiles + [s[0]] + s[1..] == all;
      ApplyDeleted(Apply(e, DeletedFile(s[0].0, s[0].1)), s[1..]);
    }
  }

  lemma ApplyNumber(e: Edit, tag: nat, v: Option<nat>)
    ensures ApplyAll(e, NumberItem(tag, v)) == if v.Some? then Apply(e, Number(tag, v.value)) else e
  {
    hide Apply;
    if v.Some? {
      assert NumberItem(tag, v)[1..] == [];
    }
  }

  lemma ApplyHeader(e: Edit, base: Edit)
    requires base.comparator == None && base.logNumber == None && base.prevLogNumber == None
    requires base.nextFileNumber == None && base.lastSequence == None
    ensures
      ApplyAll(base, (if e.comparator.Some? then [Comparator(e.comparator.value)] else [])
                     + NumberItem(LOG_NUMBER, e.logNumber) + NumberItem(PREV_LOG_NUMBER, e.prevLogNumber)
                     + NumberItem(NEXT_FILE_NUMBER, e.nextFileNumber) + NumberItem(LAST_SEQUENCE, e.lastSequence))
      == Edit(e.comparator, e.logNumber, e.prevLogNumber, e.nextFileNumber, e.lastSequence,
              base.compactPointers, base.deletedFiles, base.newFiles)
  {
    hide ApplyAll, NumberItem;
    var a := if e.comparator.Some? then [Comparator(e.comparator.value)] else [];
    var b, c := NumberItem(LOG_NUMBER, e.logNumber), NumberItem(PREV_LOG_NUMBER, e.prevLogNumber);
    var d, f := NumberItem(NEXT_FILE_NUMBER, e.nextFileNumber), NumberItem(LAST_SEQUENCE, e.lastSequence);
    ApplyConcat(base, a + b + c + d, f);
    ApplyConcat(base, a + b + c, d);
    ApplyConcat(base, a + b, c);
    ApplyConcat(base, a, b);
    ApplyComparator(base, e.comparator);
    var e1 := base.(comparator := e.comparator);
    ApplyNumber(e1, LOG_NUMBER, e.logNumber);
    var e2 := e1.(logNumber := e.logNumber);
    ApplyNumber(e2, PREV_LOG_NUMBER, e.prevLogNumber);
    var e3 := e2.(prevLogNumber := e.prevLogNumber);
    ApplyNumber(e3, NEXT_FILE_NUMBER, e.nextFileNumber);
    var e4 := e3.(nextFileNumber := e.nextFileNumber);
    ApplyNumber(e4, LAST_SEQUENCE, e.lastSequence);
  }

  lemma ApplyComparator(e: Edit, name: Option<Data>)
    requires e.comparator == None
    ensures ApplyAll(e, if name.Some? then [Comparator(name.value)] else []) == e.(comparator := name)
  {
    if name.Some? {
      assert [Comparator(name.value)][1..] == [];
    }
  }

  /** Encoding an edit and decoding the bytes into a fresh one gives the edit back. */
  lemma EncodeInverse(e: Edit)
    requires Fits(e)
    ensures Decode(NO_EDIT, EncodeItems(Items(e))) == (e, None)
  {
    hide AllFit, PairsSorted, ApplyAll, NumberItem, EncodeItems, Decode, PointerItems, DeletedItems, NewItems;
    DecodeItems(NO_EDIT, Items(e));
    var header := (if e.comparator.Some? then [Comparator(e.comparator.value)] else [])
                  + NumberItem(LOG_NUMBER, e.logNumber) + NumberItem(PREV_LOG_NUMBER, e.prevLogNumber)
                  + NumberItem(NEXT_FILE_NUMBER, e.nextFileNumber) + NumberItem(LAST_SEQUENCE, e.lastSequence);
    var p, d, n := PointerItems(e.compactPointers), DeletedItems(e.deletedFiles), NewItems(e.newFiles);
    ApplyConcat(NO_EDIT, header + p + d, n);
    ApplyConcat(NO_EDIT, header + p, d);
    ApplyConcat(NO_EDIT, header, p);
    ApplyHeader(e, NO_EDIT);
    var e1 := Edit(e.comparator, e.logNumber, e.prevLogNumber, e.nextFileNumber, e.lastSequence, [], [], []);
    ApplyPointers(e1, e.compactPointers);
    assert [] + e.compactPointers == e.compactPointers;
    var e2 := e1.(compactPointers := e.compactPointers);
    assert [] + e.deletedFiles == e.deletedFiles;
    ApplyDeleted(e2, e.deletedFiles);
    var e3 := e2.(deletedFiles := e.deletedFiles);
    ApplyNew(e3, e.newFiles);
    assert [] + e.newFiles == e.newFiles;
  }

  // ---------------------------------------------------------------- the object

  class VersionEdit {
    var comparator: Option<Data>
    var logNumber: Option<nat>
    var prevLogNumber: Option<nat>
    var nextFileNumber: Option<nat>
    var lastSequence: Option<nat>
    var compactPointers: seq<(nat, Data)>
    var deletedFiles: seq<(nat, nat)>
    var newFiles: seq<(nat, FileRecord)>

    constructor ()
      ensures Value() == NO_EDIT
    {
      comparator, logNumber, prevLogNumber, nextFileNumber, lastSequence := None, None, None, None, None;
      compactPointers, deletedFiles, newFiles := [], [], [];
    }

    function Value(): Edit
      reads this
    {
      Edit(comparator, logNumber, prevLogNumber, nextFileNumber, lastSequence, compactPointers, deletedFiles, newFiles)
    }

    /** Forgets everything but the compaction pointers. */
    method Clear()
      modifies this
      ensures Value() == NO_EDIT.(compactPointers := old(compactPointers))
    {
      comparator, logNumber, prevLogNumber, nextFileNumber, lastSequence := None, None, None, None, None;
      deletedFiles, newFiles := [], [];
    }

    method EncodeTo(dst: Data) returns (r: Data)
      ensures r == dst + EncodeItems(Items(Value()))
    {
      hide EncodeItem, EncodeItems, PointerItems, DeletedItems, NewItems, NumberItem;
      r := dst;
      if comparator.Some? {
        r := PutItems(r, [Comparator(comparator.value)]);
      }
      r := PutItems(r, NumberItem(LOG_NUMBER, logNumber));
      r := PutItems(r, NumberItem(PREV_LOG_NUMBER, prevLogNumber));
      r := PutItems(r, NumberItem(NEXT_FILE_NUMBER, nextFileNumber));
      r := PutItems(r, NumberItem(LAST_SEQUENCE, lastSequence));
      r := PutItems(r, PointerItems(compactPointers));
      r := PutItems(r, DeletedItems(deletedFiles));
      r := PutItems(r, NewItems(newFiles));
      EncodeParts(dst, Value());
    }

    /** Reads a record into the edit, up to the first error. */
    method DecodeFrom(src: Data) returns (msg: Option<string>)
      modifies this
      ensures (Value(), msg) == Decode(NO_EDIT.(compactPointers := old(compactPointers)), src)
    {
      hide ParseBody, GetVarint32;
      Clear();
      var input := src;
      msg := None;
      while true
        invariant msg.None?
        invariant Decode(NO_EDIT.(compactPointers := old(compactPointers)), src) == Decode(Value(), input)
        decreases |input|
      {
        var tag := GetVarint32(input);
        if tag.None? {
          break;
        }
        TagRead(input);
        match ParseBody(tag.value.value, tag.value.rest)
        case Bad(m) =>
          msg := Some(m);
          return;
        case Good(item, rest) =>
          Set(item);
          input := rest;
      }
      if input != [] {
        msg := Some("invalid tag");
      }
    }

    method Set(item: Item)
      modifies this
      ensures Value() == Apply(old(Value()), item)
    {
      match item
      case Comparator(name) => comparator := Some(name);
      case Number(tag, v) =>
        if tag == LOG_NUMBER {
          logNumber := Some(v);
        } else if tag == PREV_LOG_NUMBER {
          prevLogNumber := Some(v);
        } else if tag == NEXT_FILE_NUMBER {
          nextFileNumber := Some(v);
        } else {
          lastSequence := Some(v);
        }
      case CompactPointer(level, key) => compactPointers := compactPointers + [(level, key)];
      case DeletedFile(level, number) => deletedFiles := InsertPair(deletedFiles, (level, number));
      case NewFile(level, f) => newFiles := newFiles + [(level, f)];
    }
  }

  lemma TagRead(input: Data)
    ensures GetVarint32(input).Some? ==> |GetVarint32(input).value.rest| < |input|
  {
  }

  method PutItems(dst: Data, items: seq<Item>) returns (r: Data)
    ensures r == dst + EncodeItems(items)
  {
    hide EncodeItem;
    r := dst;
    for i := 0 to |items|
      invariant r == dst + EncodeItems(items[..i])
    {
      EncodeConcat(items[..i], [items[i]]);
      assert items[..i + 1] == items[..i] + [items[i]];
      EncodeOne(items[i]);
      r := r + EncodeItem(items[i]);
    }
    assert items[..|items|] == items;
  }

  /** The bytes of an edit, part by part. */
  lemma EncodeParts(dst: Data, e: Edit)
    ensures
      dst + EncodeItems(Items(e))
      == (if e.comparator.Some? then dst + EncodeItems([Comparator(e.comparator.value)]) else dst)
         + EncodeItems(NumberItem(LOG_NUMBER, e.logNumber)) + EncodeItems(NumberItem(PREV_LOG_NUMBER, e.prevLogNumber))
         + EncodeItems(NumberItem(NEXT_FILE_NUMBER, e.nextFileNumber))
         + EncodeItems(NumberItem(LAST_SEQUENCE, e.lastSequence))
         + EncodeItems(PointerItems(e.compactPointers)) + EncodeItems(DeletedItems(e.deletedFiles))
         + EncodeItems(NewItems(e.newFiles))
  {
    hide EncodeItem, EncodeItems, PointerItems, DeletedItems, NewItems, NumberItem;
    var a := if e.comparator.Some? then [Comparator(e.comparator.value)] else [];
    var b, c := NumberItem(LOG_NUMBER, e.logNumber), NumberItem(PREV_LOG_NUMBER, e.prevLogNumber);
    var d, f := NumberItem(NEXT_FILE_NUMBER, e.nextFileNumber), NumberItem(LAST_SEQUENCE, e.lastSequence);
    var p, q, n := PointerItems(e.compactPointers), DeletedItems(e.deletedFiles), NewItems(e.newFiles);
    NoItems();
    EncodeConcat(a, b);
    EncodeConcat(a + b, c);
    EncodeConcat(a + b + c, d);
    EncodeConcat(a + b + c + d, f);
    EncodeConcat(a + b + c + d + f, p);
    EncodeConcat(a + b + c + d + f + p, q);
    EncodeConcat(a + b + c + d + f + p + q, n);
  }

  lemma NoItems()
    ensures EncodeItems([]) == []
  {
  }

  lemma EncodeOne(item: Item)
    ensures EncodeItems([item]) == EncodeItem(item)
  {
    assert [item][1..] == [];
  }

  // ---------------------------------------------------------------- recovering from the bytes

  ghost predicate LevelsFit(e: Edit) {
    && (forall i :: 0 <= i < |e.deletedFiles| ==> e.deletedFiles[i].0 < NUM_LEVELS)
    && (forall i :: 0 <= i < |e.newFiles| ==> e.newFiles[i].0 < NUM_LEVELS)
  }

  lemma {:induction false} InsertPairElements(s: seq<(nat, nat)>, p: (nat, nat))
    ensures forall q :: q in InsertPair(s, p) ==> q in s || q == p
  {
    if s == [] || PairLess(p, s[0]) {
    } else if PairLess(s[0], p) {
      InsertPairElements(s[1..], p);
    }
  }

  /** Whatever the bytes are, decoding only yields levels that exist. */
  lemma {:induction false} DecodeKeepsLevels(e: Edit, input: Data)
    requires LevelsFit(e)
    ensures LevelsFit(Decode(e, input).0)
    decreases |input|
  {
    hide ParseBody, GetVarint32;
    TagRead(input);
    var tag := GetVarint32(input);
    if tag.Some? {
      var r := ParseBody(tag.value.value, tag.value.rest);
      if r.Good? {
        BodyLevel(tag.value.value, tag.value.rest);
        ApplyKeepsLevels(e, r.item);
        DecodeKeepsLevels(Apply(e, r.item), r.rest);
      }
    }
  }

  lemma BodyLevel(tag: nat, input: Data)
    ensures var r := ParseBody(tag, input); r.Good? ==> LevelInRange(r.item) && |r.rest| <= |input|
  {
  }

  lemma ApplyKeepsLevels(e: Edit, item: Item)
    requires LevelsFit(e) && LevelInRange(item)
    ensures LevelsFit(Apply(e, item))
  {
    if item.DeletedFile? {
      InsertPairElements(e.deletedFiles, (item.level, item.number));
      var r := InsertPair(e.deletedFiles, (item.level, item.number));
      forall i | 0 <= i < |r|
        ensures r[i].0 < NUM_LEVELS
      {
        assert r[i] in r;
      }
    }
  }

  /** What the keys of a record mean, and what the tables hold. */
  datatype Storage = Storage(keyOf: Data -> InternalKey, contents: nat -> seq<Entry>)

  function FileOf(f: FileRecord, storage: Storage): FileMetaData {
    FileMetaData(f.number, f.fileSize, storage.keyOf(f.smallest), storage.keyOf(f.largest), storage.contents(f.number))
  }

  /** The changes to the file lists that an edit asks for. */
  function FileEditOf(e: Edit, storage: Storage): FileEdit {
    FileEdit(set p | p in e.deletedFiles,
             seq(|e.newFiles|, i requires 0 <= i < |e.newFiles| => (e.newFiles[i].0, FileOf(e.newFiles[i].1, storage))))
  }

  lemma FileEditLevels(e: Edit, storage: Storage)
    requires LevelsFit(e)
    ensures LevelsInRange(FileEditOf(e, storage))
  {
  }

  function FileEdits(edits: seq<Edit>, storage: Storage): (r: seq<FileEdit>)
    ensures |r| == |edits|
  {
    seq(|edits|, i requires 0 <= i < |edits| => FileEditOf(edits[i], storage))
  }

  function NextFileOf(e: Edit): Option<nat> { e.nextFileNumber }
  function LogOf(e: Edit): Option<nat> { e.logNumber }
  function PrevLogOf(e: Edit): Option<nat> { e.prevLogNumber }
  function LastSequenceOf(e: Edit): Option<nat> { e.lastSequence }

  /** The last value given for a field. */
  function Last(edits: seq<Edit>, field: Edit -> Option<nat>): Option<nat> {
    if edits == [] then None
    else if field(edits[|edits| - 1]).Some? then field(edits[|edits| - 1])
    else Last(edits[..|edits| - 1], field)
  }

  datatype Recovered = Recovered(
    version: Levels, nextFileNumber: nat, lastSequence: nat, logNumber: nat, prevLogNumber: nat)

  /** A record that decodes, of a database with this comparator or with none named. */
  predicate Readable(record: Data, comparator: Data) {
    var (e, msg) := Decode(NO_EDIT, record);
    msg.None? && (e.comparator.Some? ==> e.comparator.value == comparator)
  }

  /** The edits that some records hold. */
  function EditsOf(records: seq<Data>): (r: seq<Edit>)
    ensures |r| == |records|
  {
    seq(|records|, i requires 0 <= i < |records| => Decode(NO_EDIT, records[i]).0)
  }

  /** The records are those of some edits, written by a database of this comparator. */
  ghost predicate Records(records: seq<Data>, edits: seq<Edit>, comparator: Data) {
    && |records| == |edits|
    && forall i :: 0 <= i < |edits| ==>
         && Fits(edits[i]) && records[i] == EncodeItems(Items(edits[i]))
         && (edits[i].comparator.Some? ==> edits[i].comparator.value == comparator)
  }

  /** What was written for some edits is readable and holds them. */
  lemma RecordsReadBack(records: seq<Data>, edits: seq<Edit>, comparator: Data)
    requires Records(records, edits, comparator)
    ensures EditsOf(records) == edits
    ensures forall i :: 0 <= i < |records| ==> Readable(records[i], comparator)
  {
    hide Fits, Items, EncodeItems, Decode;
    forall i | 0 <= i < |records|
      ensures Decode(NO_EDIT, records[i]) == (edits[i], None)
    {
      EncodeInverse(edits[i]);
    }
  }

  /** Decodes one record and checks its comparator. */
  method ReadEdit(record: Data, comparator: Data, storage: Storage) returns (e: Option<Edit>)
    ensures e.Some? <==> Readable(record, comparator)
    ensures e.Some? ==> e.value == Decode(NO_EDIT, record).0 && LevelsInRange(FileEditOf(e.value, storage))
  {
    hide Decode, LevelsFit, LevelsInRange, FileEditOf;
    var edit := new VersionEdit();
    var msg := edit.DecodeFrom(record);
    if msg.Some? || (edit.comparator.Some? && edit.comparator.value != comparator) {
      return None;
    }
    NoLevels();
    DecodeKeepsLevels(NO_EDIT, record);
    FileEditLevels(edit.Value(), storage);
    e := Some(edit.Value());
  }

  /** Reads a manifest's records, whatever they are, through one builder: a version
      exactly if every record is readable and each of three numbers was given. */
  method Recover(records: seq<Data>, comparator: Data, storage: Storage) returns (r: Option<Recovered>)
    ensures
      var edits := EditsOf(records);
      r.Some? <==> && (forall i :: 0 <= i < |records| ==> Readable(records[i], comparator))
                   && Last(edits, NextFileOf).Some?
                   && Last(edits, LogOf).Some?
                   && Last(edits, LastSequenceOf).Some?
    ensures r.Some? ==>
      var edits := EditsOf(records);
      && |r.value.version| == NUM_LEVELS
      && (forall l :: 0 <= l < NUM_LEVELS ==> r.value.version[l] == SaveAt([], ReplayAt(FileEdits(edits, storage), l)))
      && r.value.nextFileNumber == Last(edits, NextFileOf).value + 1
      && r.value.lastSequence == Last(edits, LastSequenceOf).value
      && r.value.logNumber == Last(edits, LogOf).value
      && var prev := Last(edits, PrevLogOf);
         r.value.prevLogNumber == if prev.Some? then prev.value else 0
  {
    hide Readable, Decode, SaveAt, ApplyAt, LevelsInRange, FileEditOf, Last;
    NothingGiven();
    var builder := new Builder(NO_FILES);
    var nextFile, logNumber, prevLogNumber, lastSequence: Option<nat> := None, None, None, None;
    ghost var edits := EditsOf(records);
    for i := 0 to |records|
      invariant fresh(builder.levels)
      invariant forall j :: 0 <= j < i ==> Readable(records[j], comparator)
      invariant forall l :: 0 <= l < NUM_LEVELS ==> builder.levels[l] == ReplayAt(FileEdits(edits, storage)[..i], l)
      invariant nextFile == Last(edits[..i], NextFileOf)
      invariant logNumber == Last(edits[..i], LogOf)
      invariant prevLogNumber == Last(edits[..i], PrevLogOf)
      invariant lastSequence == Last(edits[..i], LastSequenceOf)
    {
      LastSnoc(edits, i, NextFileOf);
      LastSnoc(edits, i, LogOf);
      LastSnoc(edits, i, PrevLogOf);
      LastSnoc(edits, i, LastSequenceOf);
      assert FileEdits(edits, storage)[..i + 1][..i] == FileEdits(edits, storage)[..i];
      var read := ReadEdit(records[i], comparator, storage);
      if read.None? {
        return None;
      }
      var edit := read.value;
      builder.Apply(FileEditOf(edit, storage));
      logNumber := if edit.logNumber.Some? then edit.logNumber else logNumber;
      prevLogNumber := if edit.prevLogNumber.Some? then edit.prevLogNumber else prevLogNumber;
      nextFile := if edit.nextFileNumber.Some? then edit.nextFileNumber else nextFile;
      lastSequence := if edit.lastSequence.Some? then edit.lastSequence else lastSequence;
    }
    assert edits[..|edits|] == edits;
    assert FileEdits(edits, storage)[..|edits|] == FileEdits(edits, storage);
    if nextFile.None? || logNumber.None? || lastSequence.None? {
      return None;
    }
    var v := builder.SaveTo();
    r := Some(Recovered(v, nextFile.value + 1, lastSequence.value, logNumber.value,
                        if prevLogNumber.Some? then prevLogNumber.value else 0));
  }

  lemma LastSnoc(edits: seq<Edit>, i: nat, field: Edit -> Option<nat>)
    requires i < |edits|
    ensures Last(edits[..i + 1], field) == if field(edits[i]).Some? then field(edits[i]) else Last(edits[..i], field)
  {
    assert edits[..i + 1][..i] == edits[..i];
  }

  lemma NothingGiven()
    ensures forall field: Edit -> Option<nat> :: Last([], field) == None
  {
  }

  lemma NoLevels()
    ensures LevelsFit(NO_EDIT)
  {
  }
}