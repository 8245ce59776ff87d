/** Decoding whole messages, and the round trip. */
module ProtobufMessages {
  import opened InternalKeys
  import opened Bytes
  import opened Coding
  import opened Protobuf
  import opened ProtobufDecoder
  import E = ProtobufEncoder

  // ---------------------------------------------------------------- the field iterator

  lemma {:induction false} CountGrows(fields: seq<Field>, i: nat, n: nat)
    requires i <= n <= |fields|
    ensures CountRequired(fields, i) <= CountRequired(fields, n)
    ensures i < n && fields[i].htype.Required? ==> CountRequired(fields, i) < CountRequired(fields, n)
  {
    if i < n {
      CountGrows(fields, i, n - 1);
    }
  }

  /** A field of a message; an empty message has only the terminator. */
  class FieldIter {
    const fields: seq<Field>
    var pos: nat
    var requiredFieldIndex: nat

    constructor (fields: seq<Field>)
      ensures Valid() && this.fields == fields && pos == 0
    {
      this.fields := fields;
      pos, requiredFieldIndex := 0, 0;
    }

    ghost predicate Valid()
      reads this
    {
      && (fields == [] ==> pos == 0) && (fields != [] ==> pos < |fields|)
      && requiredFieldIndex == CountRequired(fields, pos)
    }

    /** Wraps around after the last field, and says so. */
    method Next() returns (more: bool)
      requires Valid()
      modifies this
      ensures Valid() && (more <==> old(pos) + 1 < |fields|)
      ensures pos == if more then old(pos) + 1 else 0
    {
      if fields == [] {
        return false;
      }
      var prev := fields[pos];
      if pos + 1 == |fields| {
        pos, requiredFieldIndex := 0, 0;
        return false;
      }
      pos := pos + 1;
      if prev.htype.Required? {
        requiredFieldIndex := requiredFieldIndex + 1;
      }
      more := true;
    }

    /** Searches all fields from here on, and around. */
    method Find(tag: nat) returns (found: bool)
      requires Valid() && fields != []
      modifies this
      ensures Valid() && (found <==> exists k :: 0 <= k < |fields| && fields[k].tag == tag)
      ensures found ==> fields[pos].tag == tag
    {
      var start := pos;
      ghost var seen := 0;
      while true
        invariant Valid() && seen < |fields|
        invariant pos == if start + seen < |fields| then start + seen else start + seen - |fields|
        invariant forall k :: 0 <= k < |fields| && Behind(start, seen, k) ==> fields[k].tag != tag
        decreases |fields| - seen
      {
        if fields[pos].tag == tag {
          return true;
        }
        var more := Next();
        seen := seen + 1;
        if pos == start {
          return false;
        }
      }
    }

    /** Position `k` is among the first `n` from `start` on. */
    ghost predicate Behind(start: nat, n: nat, k: nat) {
      start <= k < start + n || k + |fields| < start + n
    }

    /** All required fields, found by running on to the end. */
    method TotalRequired() returns (count: nat)
      requires Valid()
      modifies this
      ensures Valid() && count == CountRequired(fields, |fields|)
    {
      if fields == [] {
        return 0;
      }
      var last := fields[pos];
      count := requiredFieldIndex;
      var more := Next();
      while more
        invariant Valid() && (more ==> pos > 0)
        invariant !more ==> count == CountRequired(fields, |fields| - 1) && last == fields[|fields| - 1]
        decreases if more then |fields| - pos else 0
      {
        count := requiredFieldIndex;
        last := fields[pos];
        more := Next();
      }
      if last.htype.Required? {
        count := count + 1;
      }
    }
  }

  // ---------------------------------------------------------------- the required-field bitmap

  /** Whole words first, then the remaining bits, which must be the only ones set. */
  method AllSeen(fieldsSeen: seq<bool>, reqFieldCount: nat) returns (r: bool)
    requires |fieldsSeen| == MAX_REQUIRED_FIELDS
    requires forall b :: 0 <= b < MAX_REQUIRED_FIELDS && fieldsSeen[b] ==> b < reqFieldCount
    ensures r <==> forall b :: 0 <= b < MAX_REQUIRED_FIELDS && b < reqFieldCount ==> fieldsSeen[b]
  {
    var count := if reqFieldCount > MAX_REQUIRED_FIELDS then MAX_REQUIRED_FIELDS else reqFieldCount;
    for i := 0 to count / 32
      invariant forall b :: 0 <= b < 32 * i ==> fieldsSeen[b]
    {
      var word := fieldsSeen[32 * i..32 * i + 32];
      InWord(fieldsSeen, i, word);
      var whole := Ones(word, 32);
      if !whole {
        return false;
      }
    }
    if count % 32 != 0 {
      var word := fieldsSeen[32 * (count / 32)..32 * (count / 32) + 32];
      InWord(fieldsSeen, count / 32, word);
      var rest := Ones(word, count % 32);
      if !rest {
        return false;
      }
    }
    r := true;
  }

  /** Bits by their number in the word. */
  lemma InWord(fieldsSeen: seq<bool>, i: nat, word: seq<bool>)
    requires 32 * i + 32 <= |fieldsSeen| && word == fieldsSeen[32 * i..32 * i + 32]
    ensures forall b {:trigger fieldsSeen[b]} :: 32 * i <= b < 32 * i + 32 ==> fieldsSeen[b] == word[b - 32 * i]
    ensures forall b {:trigger word[b]} :: 0 <= b < 32 ==> word[b] == fieldsSeen[32 * i + b]
  {
  }

  /** The word has its `n` lowest bits set and no others. */
  method Ones(word: seq<bool>, n: nat) returns (r: bool)
    requires |word| == 32 && n <= 32
    ensures r <==> forall b :: 0 <= b < 32 ==> (word[b] <==> b < n)
  {
    r := true;
    for i := 0 to 32
      invariant r <==> forall b :: 0 <= b < i ==> (word[b] <==> b < n)
    {
      r := r && (word[i] <==> i < n);
    }
  }

  // ---------------------------------------------------------------- setting defaults

  lemma {:induction false} ZeroShaped(l: LType)
    ensures Shaped(l, Zero(l))
    decreases l, 0
  {
    if l.Submessage? {
      ZeroSlotsShaped(l.fields, |l.fields|);
    }
  }

  lemma {:induction false} ZeroSlotsShaped(fields: seq<Field>, n: nat)
    requires n <= |fields|
    ensures forall k :: 0 <= k < n ==> ZeroSlots(fields, n)[k] == ZeroSlot(fields[k]) && ShapedSlot(fields[k], ZeroSlot(fields[k]))
    decreases fields, n
  {
    hide ZeroSlot, ShapedSlot;
    if n > 0 {
      ZeroSlotsShaped(fields, n - 1);
      ZeroSlotShaped(fields[n - 1]);
    }
  }

  lemma {:induction false} ZeroSlotShaped(f: Field)
    ensures ShapedSlot(f, ZeroSlot(f))
    decreases f, 0
  {
    hide Zero, Shaped;
    ZeroShaped(f.ltype);
  }

  /** Defaults are ready to be decoded into. */
  lemma {:induction false} DefaultReady(l: LType, v: Value)
    requires Shaped(l, v)
    ensures Ready(l, SetDefault(l, v)) && Shaped(l, SetDefault(l, v))
    decreases l, 0
  {
    hide ReadySlot, ShapedSlot;
    if l.Submessage? {
      DefaultsReady(l.fields, v.slots);
    }
  }

  lemma {:induction false} DefaultsReady(fields: seq<Field>, m: seq<Slot>)
    requires ShapedMessage(fields, m)
    ensures |fields| == |m|
    ensures ReadyMessage(fields, SetDefaults(fields, m, |m|)) && ShapedMessage(fields, SetDefaults(fields, m, |m|))
    decreases fields, |fields| + 1
  {
    hide ReadySlot, ShapedSlot, SetDefaultSlot;
    forall k | 0 <= k < |m|
      ensures ReadySlot(fields[k], SetDefaults(fields, m, |m|)[k]) && ShapedSlot(fields[k], SetDefaults(fields, m, |m|)[k])
    {
      DefaultAt(fields, m, |m|, k);
      DefaultSlotReady(fields[k], m[k]);
    }
  }

  lemma {:induction false} DefaultAt(fields: seq<Field>, m: seq<Slot>, n: nat, k: nat)
    requires k < n <= |fields| == |m|
    ensures SetDefaults(fields, m, n)[k] == SetDefaultSlot(fields[k], m[k])
  {
    hide SetDefaultSlot;
    if k < n - 1 {
      DefaultAt(fields, m, n - 1, k);
    }
  }

  lemma {:induction false} DefaultSlotReady(f: Field, s: Slot)
    requires ShapedSlot(f, s)
    ensures ReadySlot(f, SetDefaultSlot(f, s)) && ShapedSlot(f, SetDefaultSlot(f, s))
    decreases f, 0
  {
    hide SetDefault, Shaped, Ready, ZeroFront;
    FrontShaped(f.ltype, s.items + s.held, SIZE_WIDTH);
    if !IsArray(f) && !f.htype.Oneof? {
      DefaultReady(f.ltype, s.items[0]);
    }
  }

  lemma {:induction false} FrontShaped(l: LType, items: seq<Value>, n: nat)
    requires forall v :: v in items ==> Shaped(l, v)
    ensures forall v :: v in ZeroFront(l, items, n) ==> Shaped(l, v)
  {
  }

  /** Field by field, in place. */
  method SetToDefaults(fields: seq<Field>, dest: seq<Slot>) returns (r: seq<Slot>)
    requires ShapedMessage(fields, dest)
    ensures |r| == |fields| == |dest| && r == SetDefaults(fields, dest, |dest|)
    decreases fields, 1
  {
    hide ShapedSlot, ShapedMessage, SetDefaultSlot, SetDefaults, OnlyFirst, CountRequired, FieldIter.Valid;
    var iter := new FieldIter(fields);
    r := dest;
    ShapedParts(fields, dest);
    NoDefaults(fields, dest);
    if fields == [] {
      return;
    }
    var more := true;
    while more
      invariant iter.Valid() && iter.fields == fields && |r| == |dest| == |fields| && iter.pos < |fields|
      invariant more ==> OnlyFirst(fields, dest, iter.pos, r)
      invariant !more ==> r == SetDefaults(fields, dest, |dest|)
      decreases if more then |fields| - iter.pos else 0
    {
      var p := iter.pos;
      NextDefault(fields, dest, p, r);
      var slot := SetFieldToDefault(fields[p], r[p]);
      r := r[p := slot];
      more := iter.Next();
    }
  }

  /** The first `p` slots have been set. */
  ghost predicate OnlyFirst(fields: seq<Field>, dest: seq<Slot>, p: nat, r: seq<Slot>) {
    p <= |fields| == |dest| && r == SetDefaults(fields, dest, p) + dest[p..]
  }

  lemma NoDefaults(fields: seq<Field>, dest: seq<Slot>)
    requires |fields| == |dest|
    ensures OnlyFirst(fields, dest, 0, dest) && (dest == [] ==> dest == SetDefaults(fields, dest, |dest|))
  {
  }

  lemma NextDefault(fields: seq<Field>, dest: seq<Slot>, p: nat, r: seq<Slot>)
    requires OnlyFirst(fields, dest, p, r) && p < |fields|
    ensures |r| == |dest| && r[p] == dest[p]
    ensures OnlyFirst(fields, dest, p + 1, r[p := SetDefaultSlot(fields[p], dest[p])])
    ensures p + 1 == |dest| ==> r[p := SetDefaultSlot(fields[p], dest[p])] == SetDefaults(fields, dest, |dest|)
  {
    hide SetDefaultSlot;
    assert SetDefaults(fields, dest, p + 1) == SetDefaults(fields, dest, p) + [SetDefaultSlot(fields[p], dest[p])];
  }

  method SetFieldToDefault(f: Field, s: Slot) returns (r: Slot)
    requires ShapedSlot(f, s)
    ensures r == SetDefaultSlot(f, s)
    decreases f, 0
  {
    var initData := true;
    r := s;
    if f.htype.Optional? {
      r := r.(has := false);
    } else if IsArray(f) || f.htype.Oneof? {
      // the count, or what lies where there is none; or the choice
      r := if f.htype.Repeated? then Slot(false, [], s.items + s.held)
           else if f.htype.FixedCount? then Slot(false, [], ZeroFront(f.ltype, s.items + s.held, SIZE_WIDTH))
           else Slot(false, [], []);
      initData := false;
    }
    if initData {
      var v := SetDefault(f.ltype, s.items[0]);
      if f.ltype.Submessage? {
        assert s.items[0] in s.items;
        ShapedSize(f.ltype.fields, s.items[0].slots);
        var m := SetToDefaults(f.ltype.fields, s.items[0].slots);
        v := Message(m);
      }
      r := Slot(false, [v], []);
    }
  }

  // ---------------------------------------------------------------- the wire format from the front

  function ItemsFrom(f: Field, items: seq<Value>, j: nat, tagged: bool): Data
    requires j <= |items|
    decreases |items| - j
  {
    if j == |items| then []
    else (if tagged then FieldTag(WireType(f.ltype), f.tag) else []) + WireValue(f.ltype, items[j]) + ItemsFrom(f, items, j + 1, tagged)
  }

  function FieldsFrom(fields: seq<Field>, m: seq<Slot>, k: nat): Data
    requires k <= |fields| == |m|
    decreases |fields| - k
  {
    if k == |fields| then [] else WireSlot(fields[k], m[k]) + FieldsFrom(fields, m, k + 1)
  }

  lemma {:induction false} ItemsSplit(f: Field, items: seq<Value>, j: nat, tagged: bool)
    requires j <= |items|
    ensures WireItems(f, items, |items|, tagged) == WireItems(f, items, j, tagged) + ItemsFrom(f, items, j, tagged)
    decreases |items| - j
  {
    hide FieldTag, WireValue;
    if j < |items| {
      ItemsSplit(f, items, j + 1, tagged);
      var item := (if tagged then FieldTag(WireType(f.ltype), f.tag) else []) + WireValue(f.ltype, items[j]);
      assert WireItems(f, items, j + 1, tagged) == WireItems(f, items, j, tagged) + item;
    }
  }

  lemma {:induction false} FieldsSplit(fields: seq<Field>, m: seq<Slot>, k: nat)
    requires k <= |fields| == |m|
    ensures WireMessage(fields, m, |m|) == WireMessage(fields, m, k) + FieldsFrom(fields, m, k)
    decreases |fields| - k
  {
    hide WireSlot;
    if k < |fields| {
      FieldsSplit(fields, m, k + 1);
    }
  }

  predicate IsPacked(f: Field) {
    IsArray(f) && Packable(f.ltype)
  }

  /** What is left to read when item `j` of field `k` comes next. */
  function Remaining(fields: seq<Field>, m: seq<Slot>, k: nat, j: nat): Data
    requires k <= |fields| == |m| && (j > 0 ==> k < |m| && j <= |m[k].items|)
  {
    if j == 0 then FieldsFrom(fields, m, k)
    else ItemsFrom(fields[k], m[k].items, j, true) + FieldsFrom(fields, m, k + 1)
  }

  lemma WholeMessage(fields: seq<Field>, m: seq<Slot>)
    requires |fields| == |m|
    ensures WireMessage(fields, m, |m|) == Remaining(fields, m, 0, 0)
  {
    FieldsSplit(fields, m, 0);
    assert WireMessage(fields, m, 0) == [];
  }

  lemma FirstItem(f: Field, items: seq<Value>, j: nat)
    requires j < |items|
    ensures ItemsFrom(f, items, j, true) == FieldTag(WireType(f.ltype), f.tag) + (WireValue(f.ltype, items[j]) + ItemsFrom(f, items, j + 1, true))
  {
    hide FieldTag, WireValue;
  }

  /** A field from its first byte on. */
  lemma SlotFrom(f: Field, s: Slot)
    requires Present(f, s)
    ensures !IsPacked(f) ==> WireSlot(f, s) == ItemsFrom(f, s.items, 0, true)
    ensures IsPacked(f) ==> WireSlot(f, s) == FieldTag(WT_STRING, f.tag) + Delimited(ItemsFrom(f, s.items, 0, false))
  {
    hide FieldTag, Delimited, ItemsFrom, Present;
    ItemsSplit(f, s.items, 0, true);
    ItemsSplit(f, s.items, 0, false);
    NothingBefore(f, s.items);
    assert WireItems(f, s.items, |s.items|, false) == ItemsFrom(f, s.items, 0, false);
  }

  /** A present field that is not packed starts with its first item. */
  lemma ItemComesNext(fields: seq<Field>, m: seq<Slot>, k: nat, j: nat)
    requires k < |fields| == |m| && Present(fields[k], m[k]) && !IsPacked(fields[k]) && j < |m[k].items|
    ensures
      var f := fields[k];
      var tail := if j + 1 < |m[k].items| then Remaining(fields, m, k, j + 1) else Remaining(fields, m, k + 1, 0);
      Remaining(fields, m, k, j) == FieldTag(WireType(f.ltype), f.tag) + (WireValue(f.ltype, m[k].items[j]) + tail)
  {
    hide FieldTag, WireValue, WireSlot, Present;
    var f, items := fields[k], m[k].items;
    SlotFrom(f, m[k]);
    FirstItem(f, items, j);
    var more, rest := ItemsFrom(f, items, j + 1, true), FieldsFrom(fields, m, k + 1);
    assert FieldTag(WireType(f.ltype), f.tag) + (WireValue(f.ltype, items[j]) + more) + rest
        == FieldTag(WireType(f.ltype), f.tag) + (WireValue(f.ltype, items[j]) + (more + rest));
    assert j + 1 == |items| ==> more + rest == rest;
  }

  lemma PackedComesNext(fields: seq<Field>, m: seq<Slot>, k: nat)
    requires k < |fields| == |m| && Present(fields[k], m[k]) && IsPacked(fields[k])
    ensures
      var f := fields[k];
      Remaining(fields, m, k, 0) == FieldTag(WT_STRING, f.tag)
        + (Delimited(ItemsFrom(f, m[k].items, 0, false)) + Remaining(fields, m, k + 1, 0))
  {
    hide FieldTag, Delimited, WireSlot, Present, ItemsFrom;
    SlotFrom(fields[k], m[k]);
  }

  lemma NothingBefore(f: Field, items: seq<Value>)
    ensures WireItems(f, items, 0, false) == [] && WireItems(f, items, 0, true) == []
  {
  }

  // ---------------------------------------------------------------- how far the struct is filled

  /** The slot of field `i` when item `j` of field `k` comes next and decoding began with
      `into`. */
  function Expected(fields: seq<Field>, m: seq<Slot>, into: seq<Slot>, k: nat, j: nat, i: nat): Slot
    requires i < |fields| == |m| == |into| && k <= |m| && (j > 0 ==> k < |m| && j <= |m[k].items|)
  {
    if i < k then DecodedSlot(fields[i], m[i], into[i])
    else if i == k && j > 0 then PartOf(fields[i], m[i], into[i], j)
    else into[i]
  }

  /** An array of which `j` entries have been read. */
  function PartOf(f: Field, s: Slot, into: Slot, j: nat): Slot
    requires j <= |s.items|
  {
    if j <= |into.held| then Slot(false, DecodedItems(f.ltype, s.items, into.held, j), into.held[j..]) else into
  }

  lemma {:induction false} DecodedAt(fields: seq<Field>, m: seq<Slot>, into: seq<Slot>, n: nat, i: nat)
    requires i < n <= |fields| == |m| == |into|
    ensures DecodedMessage(fields, m, into, n)[i] == DecodedSlot(fields[i], m[i], into[i])
  {
    hide DecodedSlot;
    if i < n - 1 {
      DecodedAt(fields, m, into, n - 1, i);
    }
  }

  /** Reading is between two items of a message as the encoder writes it: item `j` of
      field `k` comes next, the struct holds what came before, and nothing read so far was
      incomplete. */
  ghost predicate Between(fields: seq<Field>, m: seq<Slot>, into: seq<Slot>, k: nat, j: nat, rest: Data,
                          dest: seq<Slot>, seen: seq<bool>, fixed: Option<nat>) {
    && Place(fields, m, k, j, rest) && Filled(fields, m, into, k, j, dest)
    && Marked(fields, m, k, seen) && ReadSoFar(fields, m, k, j, fixed)
  }

  ghost predicate Place(fields: seq<Field>, m: seq<Slot>, k: nat, j: nat, rest: Data) {
    && FitsMessage(fields, m) && |fields| == |m| && k <= |m|
    && (j > 0 ==> k < |m| && j < |m[k].items| && Present(fields[k], m[k]) && IsArray(fields[k]) && !IsPacked(fields[k]))
    && rest == Remaining(fields, m, k, j)
  }

  ghost predicate Filled(fields: seq<Field>, m: seq<Slot>, into: seq<Slot>, k: nat, j: nat, dest: seq<Slot>) {
    && k <= |m| == |fields| == |dest| && (j > 0 ==> k < |m| && j <= |m[k].items|)
    && ReadyMessage(fields, into) && |into| == |m|
    && forall i :: 0 <= i < |dest| ==> dest[i] == Expected(fields, m, into, k, j, i)
  }

  /** The bit of each tracked required field tells whether it was read. */
  ghost predicate Marked(fields: seq<Field>, m: seq<Slot>, k: nat, seen: seq<bool>) {
    && |fields| == |m| && |seen| == MAX_REQUIRED_FIELDS
    && forall i :: 0 <= i < |fields| && fields[i].htype.Required? && CountRequired(fields, i) < MAX_REQUIRED_FIELDS ==>
         (seen[CountRequired(fields, i)] <==> i < k && m[i].items != [])
  }

  /** Reading did not fail. The array without a count that was read last may still be short. */
  ghost predicate ReadSoFar(fields: seq<Field>, m: seq<Slot>, k: nat, j: nat, fixed: Option<nat>) {
    && k <= |m| == |fields| && (j > 0 ==> k < |m| && j <= |m[k].items|)
    && (forall i :: 0 <= i < k ==> SlotRead(fields[i], m[i], fixed == Some(i)))
    && (j > 0 ==> ItemsComplete(fields[k], m[k].items, j))
    && (fixed.Some? ==>
          && fixed.value < |fields| && fields[fixed.value].htype.FixedCount? && m[fixed.value].items != []
          && fixed.value <= k && (fixed.value == k ==> j > 0))
    && (j > 0 && fields[k].htype.FixedCount? ==> fixed == Some(k))
  }

  ghost predicate ItemsComplete(f: Field, items: seq<Value>, n: nat)
    requires n <= |items|
  {
    forall i :: 0 <= i < n ==> Complete(f.ltype, items[i])
  }

  ghost predicate SlotRead(f: Field, s: Slot, last: bool) {
    && (Present(f, s) ==> ItemsComplete(f, s.items, |s.items|))
    && (f.htype.FixedCount? && s.items != [] && !last ==> |s.items| == f.htype.arraySize)
  }

  /** Fields that are absent leave nothing on the wire and their slots as they were. */
  lemma {:induction false} SkipAbsent(fields: seq<Field>, m: seq<Slot>, into: seq<Slot>, k: nat, rest: Data, dest: seq<Slot>, seen: seq<bool>,
                                      fixed: Option<nat>) returns (k1: nat)
    requires Between(fields, m, into, k, 0, rest, dest, seen, fixed)
    ensures k <= k1 <= |m| == |fields| && Between(fields, m, into, k1, 0, rest, dest, seen, fixed)
    ensures k1 < |m| ==> Present(fields[k1], m[k1])
    ensures k1 == |m| ==> rest == []
    decreases |m| - k
  {
    hide WireValue, IsDefault, DecodedItems, Filled, Marked, ReadSoFar, Present, WireSlot;
    if k < |m| && !Present(fields[k], m[k]) {
      AbsentSlot(fields, m, into, k, dest, seen, fixed);
      k1 := SkipAbsent(fields, m, into, k + 1, rest, dest, seen, fixed);
    } else {
      k1 := k;
    }
  }

  lemma AbsentSlot(fields: seq<Field>, m: seq<Slot>, into: seq<Slot>, k: nat, dest: seq<Slot>, seen: seq<bool>, fixed: Option<nat>)
    requires FitsMessage(fields, m) && k < |m| == |fields| && !Present(fields[k], m[k])
    requires Filled(fields, m, into, k, 0, dest) && Marked(fields, m, k, seen) && ReadSoFar(fields, m, k, 0, fixed)
    ensures WireSlot(fields[k], m[k]) == [] && FieldsFrom(fields, m, k) == FieldsFrom(fields, m, k + 1)
    ensures Filled(fields, m, into, k + 1, 0, dest) && Marked(fields, m, k + 1, seen) && ReadSoFar(fields, m, k + 1, 0, fixed)
  {
    hide WireValue, IsDefault, DecodedItems, FieldsOk, OneOfEach, Complete, CountRequired, FitsSlot, ReadySlot, PartOf;
    assert FieldsFrom(fields, m, k) == WireSlot(fields[k], m[k]) + FieldsFrom(fields, m, k + 1);
  }

  // ---------------------------------------------------------------- decoding values and fields

  /** A stream keeps its end, unless something fails. */
  ghost predicate Ends(ok: bool, end: nat, stream: IStream)
    reads stream
  {
    stream.End() <= end && (ok ==> stream.End() == end)
  }

  /** Field decoders by type. Entries of an array start from their defaults; other
      submessages are merged into what is there. */
  method DecodeValue(stream: IStream, l: LType, repeated: bool, dest: Value, ghost v: Value, ghost tail: Data)
    returns (ok: bool, r: Value)
    requires stream.Valid() && Shaped(l, dest)
    modifies stream
    ensures stream.Valid() && Ends(ok, old(stream.End()), stream) && stream.bytesLeft <= old(stream.bytesLeft) && Shaped(l, r)
    ensures
      && Fits(l, v) && old(stream.bytesLeft) < TWO_32 && old(stream.Rest()) == WireValue(l, v) + tail
      && (repeated || Ready(l, dest))
      ==> (ok <==> Complete(l, v)) && (ok ==> r == Decoded(l, v, if repeated then SetDefault(l, dest) else dest) && stream.Rest() == tail)
    decreases l, 0
  {
    hide WireNumber, Delimited, WireMessage, FitsMessage, DecodedMessage, ShapedMessage, FitsNumber, CompleteMessage, SetDefaults,
      ReadyMessage;
    r := dest;
    FitsSize(l, v);
    if l.ByteArray? || l.Text? || l.FixedLengthBytes? {
      var b;
      ok, b := DecodeBlob(stream, l, if dest.Blob? then dest.b else [], if v.Blob? then v.b else [], tail);
      r := Blob(b);
    } else if l.Submessage? {
      ShapedSize(l.fields, dest.slots);
      var m;
      ok, m := DecodeSubmessage(stream, l.fields, repeated, dest.slots, if v.Message? then v.slots else [], tail);
      r := Message(m);
    } else {
      var n;
      ok, n := DecodeNumber(stream, l, if v.Number? then v.n else 0, tail);
      r := Number(n);
    }
  }

  lemma FitsSize(l: LType, v: Value)
    ensures l.Submessage? && Fits(l, v) ==> v.Message? && |l.fields| == |v.slots|
  {
    if l.Submessage? && Fits(l, v) {
      assert FitsMessage(l.fields, v.slots);
    }
  }

  lemma ShapedSize(fields: seq<Field>, m: seq<Slot>)
    requires ShapedMessage(fields, m)
    ensures |fields| == |m|
  {
  }

  method DecodeSubmessage(stream: IStream, fields: seq<Field>, repeated: bool, dest: seq<Slot>, ghost m: seq<Slot>, ghost tail: Data)
    returns (ok: bool, r: seq<Slot>)
    requires stream.Valid() && ShapedMessage(fields, dest) && |fields| == |dest|
    modifies stream
    ensures stream.Valid() && Ends(ok, old(stream.End()), stream) && stream.bytesLeft <= old(stream.bytesLeft) && ShapedMessage(fields, r)
    ensures
      && FitsMessageSized(fields, m) && old(stream.bytesLeft) < TWO_32
      && old(stream.Rest()) == Delimited(WireMessage(fields, m, |m|)) + tail
      && (repeated || ReadyMessage(fields, dest))
      ==> && (ok <==> CompleteMessage(fields, m))
          && (ok ==> r == DecodedMessage(fields, m, if repeated then SetDefaults(fields, dest, |dest|) else dest, |m|)
                     && stream.Rest() == tail)
    decreases fields, 3
  {
    hide WireMessage, FitsMessage, DecodedMessage, ShapedMessage, ReadyMessage, SetDefaults, CompleteMessage;
    ghost var sized := FitsMessageSized(fields, m);
    ghost var b := if sized then WireMessage(fields, m, |m|) else [];
    ghost var good := sized && stream.bytesLeft < TWO_32 && stream.Rest() == Delimited(b) + tail
                      && (repeated || ReadyMessage(fields, dest));
    var substream;
    r := dest;
    if good {
      BelowLimit(b, tail);
    }
    ok, substream := stream.MakeStringSubstream(b, tail);
    if !ok {
      return;
    }
    ghost var behind := stream.state + |b|;
    if repeated {
      ok, r := Decode(substream, fields, dest, m);
    } else {
      ok, r := DecodeNoinit(substream, fields, dest, m);
    }
    stream.CloseStringSubstream(substream);
  }

  /** A well-formed message has one slot for each field. */
  ghost predicate FitsMessageSized(fields: seq<Field>, m: seq<Slot>) {
    FitsMessage(fields, m) && |fields| == |m|
  }

  /** Sets the defaults in a struct that may hold anything, and decodes into it. */
  method Decode(stream: IStream, fields: seq<Field>, dest: seq<Slot>, ghost m: seq<Slot>) returns (ok: bool, r: seq<Slot>)
    requires stream.Valid() && ShapedMessage(fields, dest)
    modifies stream
    ensures stream.Valid() && Ends(ok, old(stream.End()), stream) && stream.bytesLeft <= old(stream.bytesLeft) && ShapedMessage(fields, r)
    ensures |fields| == |dest|
    ensures FitsMessageSized(fields, m) && old(stream.bytesLeft) < TWO_32 && old(stream.Rest()) == WireMessage(fields, m, |m|) ==>
      && (ok <==> CompleteMessage(fields, m))
      && (ok ==> r == DecodedMessage(fields, m, SetDefaults(fields, dest, |dest|), |m|) && stream.Rest() == [])
    decreases fields, 2
  {
    hide WireMessage, FitsMessage, DecodedMessage, SetDefaults, ShapedMessage, ReadyMessage, CompleteMessage;
    DefaultsReady(fields, dest);
    var ready := SetToDefaults(fields, dest);
    ok, r := DecodeNoinit(stream, fields, ready, m);
  }

  /** One occurrence of a field, whose slot is `slot`. The ghost arguments are for an
      occurrence as the encoder writes it: item `j` of `items`, or all of them packed,
      in an array that held `held` before. */
  method DecodeSlot(stream: IStream, wireType: nat, f: Field, slot: Slot, ghost items: seq<Value>, ghost held: seq<Value>, ghost j: nat,
                    ghost tail: Data)
    returns (ok: bool, r: Slot)
    requires stream.Valid() && ShapedSlot(f, slot)
    modifies stream
    ensures stream.Valid() && Ends(ok, old(stream.End()), stream) && stream.bytesLeft <= old(stream.bytesLeft) && ShapedSlot(f, r)
    ensures
      && !IsArray(f) && |items| == 1 && Fits(f.ltype, items[0]) && old(stream.bytesLeft) < TWO_32
      && old(stream.Rest()) == WireValue(f.ltype, items[0]) + tail && ReadySlot(f, slot)
      ==> && (ok <==> Complete(f.ltype, items[0]))
          && (ok ==> r == Slot(f.htype.Optional? || f.htype.Oneof?, [Decoded(f.ltype, items[0], Target(f, slot))], [])
                     && stream.Rest() == tail)
    ensures
      && IsArray(f) && !IsPacked(f) && j < |items| <= |held| && Fits(f.ltype, items[j]) && old(stream.bytesLeft) < TWO_32
      && old(stream.Rest()) == WireValue(f.ltype, items[j]) + tail
      && slot == Slot(false, DecodedItems(f.ltype, items, held, j), held[j..])
      ==> && (ok <==> Complete(f.ltype, items[j]))
          && (ok ==> r == Slot(false, DecodedItems(f.ltype, items, held, j + 1), held[j + 1..]) && stream.Rest() == tail)
    ensures
      && IsPacked(f) && wireType == WT_STRING && |items| <= |held| && (forall v :: v in items ==> Fits(f.ltype, v))
      && old(stream.bytesLeft) < TWO_32
      && old(stream.Rest()) == Delimited(ItemsFrom(f, items, 0, false)) + tail && slot == Slot(false, [], held)
      ==> ok && r == Slot(false, DecodedItems(f.ltype, items, held, |items|), held[|items|..]) && stream.Rest() == tail
    decreases f, 1
  {
    hide WireValue, Delimited, Fits, SetDefault, Shaped, ItemsFrom, Decoded, Complete, Ready, Zero;
    r := slot;
    if IsArray(f) {
      if wireType == WT_STRING && Packable(f.ltype) {
        ok, r := DecodePacked(stream, f, slot, items, held, tail);
      } else {
        if |slot.items| >= f.htype.arraySize {
          return false, r;
        }
        var item;
        ok, item := DecodeValue(stream, f.ltype, true, slot.held[0], if j < |items| then items[j] else Number(0), tail);
        r := Slot(slot.has, slot.items + [item], slot.held[1..]);
      }
    } else {
      var dest := if f.htype.Oneof? then Zero(f.ltype) else slot.items[0];
      ZeroShaped(f.ltype);
      if f.htype.Oneof? {
        dest := SetDefault(f.ltype, dest);
        DefaultReady(f.ltype, Zero(f.ltype));
      }
      var item;
      ok, item := DecodeValue(stream, f.ltype, false, dest, if |items| == 1 then items[0] else Number(0), tail);
      r := Slot(slot.has || f.htype.Optional? || f.htype.Oneof?, [item], []);
    }
  }

  /** A packed array: its bytes must make up the items, and there must be room for them. */
  method DecodePacked(stream: IStream, f: Field, slot: Slot, ghost items: seq<Value>, ghost held: seq<Value>, ghost tail: Data)
    returns (ok: bool, r: Slot)
    requires stream.Valid() && ShapedSlot(f, slot) && IsPacked(f)
    modifies stream
    ensures stream.Valid() && Ends(ok, old(stream.End()), stream) && stream.bytesLeft <= old(stream.bytesLeft) && ShapedSlot(f, r)
    ensures
      && |items| <= |held| && (forall v :: v in items ==> Fits(f.ltype, v)) && old(stream.bytesLeft) < TWO_32
      && old(stream.Rest()) == Delimited(ItemsFrom(f, items, 0, false)) + tail && slot == Slot(false, [], held)
      ==> ok && r == Slot(false, DecodedItems(f.ltype, items, held, |items|), held[|items|..]) && stream.Rest() == tail
    decreases f, 0, 1
  {
    hide WireValue, Fits, ShapedSlot, ItemsFrom, DecodedItems;
    ghost var b := ItemsFrom(f, items, 0, false);
    ghost var good := |items| <= |held| && (forall v :: v in items ==> Fits(f.ltype, v)) && stream.bytesLeft < TWO_32
                      && stream.Rest() == Delimited(b) + tail && slot == Slot(false, [], held);
    var substream;
    r := slot;
    if good {
      BelowLimit(b, tail);
    }
    ok, substream := stream.MakeStringSubstream(b, tail);
    if !ok {
      return;
    }
    ghost var end, left := substream.End(), stream.bytesLeft;
    ok, r := DecodePackedItems(substream, f, slot, good, items, held);
    if substream.bytesLeft != 0 {
      return false, r;
    }
    stream.CloseStringSubstream(substream);
  }

  /** Items until the bytes or the places run out. */
  method DecodePackedItems(substream: IStream, f: Field, slot: Slot, ghost good: bool, ghost items: seq<Value>, ghost held: seq<Value>)
    returns (ok: bool, r: Slot)
    requires substream.Valid() && ShapedSlot(f, slot) && IsPacked(f)
    requires good ==> |items| <= |held| && (forall v :: v in items ==> Fits(f.ltype, v)) && substream.bytesLeft < TWO_32
                      && substream.Rest() == ItemsFrom(f, items, 0, false) && slot == Slot(false, [], held)
    modifies substream
    ensures substream.Valid() && Ends(ok, old(substream.End()), substream) && ShapedSlot(f, r)
    ensures good ==>
      ok && r == Slot(false, DecodedItems(f.ltype, items, held, |items|), held[|items|..]) && substream.bytesLeft == 0
    decreases f, 0, 0
  {
    hide WireValue, Fits, SetDefault, Shaped, ItemsFrom, Decoded, Complete;
    r, ok := slot, true;
    ghost var i := 0;
    while substream.bytesLeft > 0 && |r.items| < f.htype.arraySize
      invariant substream.Valid() && ok && substream.End() == old(substream.End()) && ShapedSlot(f, r)
      invariant good ==> i <= |items| && substream.bytesLeft < TWO_32
      invariant good ==> r == Slot(false, DecodedItems(f.ltype, items, held, i), held[i..])
      invariant good ==> substream.Rest() == ItemsFrom(f, items, i, false)
      decreases f.htype.arraySize - |r.items|
    {
      if good {
        PackedStep(f, items, held, i);
      }
      var item;
      ok, item := DecodeValue(substream, f.ltype, true, r.held[0], if i < |items| then items[i] else Number(0),
                              if i < |items| then ItemsFrom(f, items, i + 1, false) else []);
      if !ok {
        return;
      }
      r := Slot(r.has, r.items + [item], r.held[1..]);
      i := i + 1;
    }
    if good {
      PackedStep(f, items, held, i);
    }
  }

  /** The next item of a packed array comes from a non-empty rest. */
  lemma PackedStep(f: Field, items: seq<Value>, held: seq<Value>, i: nat)
    requires Packable(f.ltype) && i <= |items| <= |held| && forall v :: v in items ==> Fits(f.ltype, v)
    ensures ItemsFrom(f, items, i, false) == [] <==> i == |items|
    ensures i < |items| ==>
      && items[i] in items && Complete(f.ltype, items[i]) && ItemsFrom(f, items, i, false) == WireValue(f.ltype, items[i]) + ItemsFrom(f, items, i + 1, false)
      && DecodedItems(f.ltype, items, held, i + 1)
         == DecodedItems(f.ltype, items, held, i) + [Decoded(f.ltype, items[i], SetDefault(f.ltype, held[i]))]
  {
    hide Varint, Fixed, Decoded, SetDefault;
    if i < |items| {
      assert items[i] in items;
      assert WireValue(f.ltype, items[i]) != [];
    }
  }

  lemma BelowLimit(b: Data, tail: Data)
    ensures |b| <= |Delimited(b) + tail|
  {
  }

  // ---------------------------------------------------------------- decoding messages

  /** Setting one member of a oneof unsets the others. */
  function ClearUnion(fields: seq<Field>, p: nat, dest: seq<Slot>): (r: seq<Slot>)
    requires p < |fields| == |dest|
    ensures |r| == |dest| && r[p] == dest[p]
  {
    seq(|dest|, i requires 0 <= i < |dest| =>
      if i != p && fields[p].htype.Oneof? && fields[i].htype == fields[p].htype then Slot(false, [], []) else dest[i])
  }

  /** Marks a required field; those past the limit are not tracked. */
  function MarkSeen(seen: seq<bool>, f: Field, index: nat): (r: seq<bool>)
    ensures |r| == |seen|
  {
    if f.htype.Required? && index < |seen| then seen[index := true] else seen
  }

  /** The occurrence at hand has been read: what comes after it. */
  lemma Advance(fields: seq<Field>, m: seq<Slot>, into: seq<Slot>, k: nat, j: nat, rest: Data, dest: seq<Slot>, seen: seq<bool>, fixed: Option<nat>,
                k1: nat, j1: nat, rest1: Data, slot: Slot, fixed1: Option<nat>)
    requires Between(fields, m, into, k, j, rest, dest, seen, fixed) && k < |m| && Present(fields[k], m[k]) && j < |m[k].items|
    requires Follows(fields[k], m[k], k, j, k1, j1)
    requires rest1 == Remaining(fields, m, k1, j1) && slot == Expected(fields, m, into, k1, j1, k)
    requires fixed1 == if fields[k].htype.FixedCount? then Some(k) else fixed
    requires fields[k].htype.FixedCount? && fixed.Some? && fixed != Some(k) ==>
      |m[fixed.value].items| == fields[fixed.value].htype.arraySize
    requires IsPacked(fields[k]) || Complete(fields[k].ltype, m[k].items[j])
    ensures k < |dest| && Between(fields, m, into, k1, j1, rest1, ClearUnion(fields, k, dest[k := slot]),
                                  MarkSeen(seen, fields[k], CountRequired(fields, k)), fixed1)
  {
    hide Marked, ReadSoFar, DecodedSlot, PartOf, ReadyMessage, Remaining, FitsMessage, Complete, Present;
    AdvanceFilled(fields, m, into, k, j, dest, k1, j1, slot);
    AdvanceMarked(fields, m, k, k1, seen);
    AdvanceRead(fields, m, k, j, k1, j1, fixed, fixed1);
  }

  lemma AdvanceFilled(fields: seq<Field>, m: seq<Slot>, into: seq<Slot>, k: nat, j: nat, dest: seq<Slot>, k1: nat, j1: nat, slot: Slot)
    requires FitsMessage(fields, m) && Filled(fields, m, into, k, j, dest)
    requires k < |m| && Present(fields[k], m[k]) && Follows(fields[k], m[k], k, j, k1, j1)
    requires slot == Expected(fields, m, into, k1, j1, k)
    ensures Filled(fields, m, into, k1, j1, ClearUnion(fields, k, dest[k := slot]))
  {
    hide WireSlot, WireValue, DecodedItems, FitsSlot, FieldsOk, IsDefault, ReadyMessage;
    var after := ClearUnion(fields, k, dest[k := slot]);
    forall i | 0 <= i < |fields|
      ensures after[i] == Expected(fields, m, into, k1, j1, i)
    {
      if i != k && fields[k].htype.Oneof? && fields[i].htype == fields[k].htype {
        UnionUnset(fields, m, into, k, i);
      }
    }
  }

  lemma {:induction false} AdvanceMarked(fields: seq<Field>, m: seq<Slot>, k: nat, k1: nat, seen: seq<bool>)
    requires Marked(fields, m, k, seen) && k < |m| && m[k].items != []
    requires k1 == k + 1 || (k1 == k && IsArray(fields[k]))
    ensures Marked(fields, m, k1, MarkSeen(seen, fields[k], CountRequired(fields, k)))
  {
    var after := MarkSeen(seen, fields[k], CountRequired(fields, k));
    forall i | 0 <= i < |fields| && fields[i].htype.Required? && CountRequired(fields, i) < MAX_REQUIRED_FIELDS
      ensures after[CountRequired(fields, i)] <==> i < k1 && m[i].items != []
    {
      if i < k {
        CountGrows(fields, i, k);
      } else if i > k {
        CountGrows(fields, k, i);
      }
    }
  }

  lemma AdvanceRead(fields: seq<Field>, m: seq<Slot>, k: nat, j: nat, k1: nat, j1: nat, fixed: Option<nat>, fixed1: Option<nat>)
    requires ReadSoFar(fields, m, k, j, fixed)
    requires k < |m| && Present(fields[k], m[k]) && j < |m[k].items| && Follows(fields[k], m[k], k, j, k1, j1)
    requires FitsMessage(fields, m)
    requires fixed1 == if fields[k].htype.FixedCount? then Some(k) else fixed
    requires fields[k].htype.FixedCount? && fixed.Some? && fixed != Some(k) ==>
      |m[fixed.value].items| == fields[fixed.value].htype.arraySize
    requires IsPacked(fields[k]) || Complete(fields[k].ltype, m[k].items[j])
    ensures ReadSoFar(fields, m, k1, j1, fixed1)
  {
    hide FitsMessage, Complete, Present, Packable;
    if IsPacked(fields[k]) {
      PackedComplete(fields[k], m[k].items);
    }
  }

  lemma PackedComplete(f: Field, items: seq<Value>)
    requires IsPacked(f)
    ensures ItemsComplete(f, items, |items|)
  {
  }

  lemma UnionUnset(fields: seq<Field>, m: seq<Slot>, into: seq<Slot>, k: nat, i: nat)
    requires FitsMessage(fields, m) && k < |m| && i < |m| && i != k
    requires Present(fields[k], m[k]) && fields[k].htype.Oneof? && fields[i].htype == fields[k].htype
    requires |into| == |m| && ReadyMessage(fields, into)
    ensures DecodedSlot(fields[i], m[i], into[i]) == into[i] == Slot(false, [], [])
  {
    hide FitsSlot, FieldsOk;
    assert ReadySlot(fields[i], into[i]);
    assert !m[i].has by {
      assert OneOfEach(fields, m);
    }
  }

  /** Only bits of required fields are marked. */
  ghost predicate SeenOk(fields: seq<Field>, seen: seq<bool>) {
    |seen| == MAX_REQUIRED_FIELDS && forall b :: 0 <= b < MAX_REQUIRED_FIELDS && seen[b] ==> b < CountRequired(fields, |fields|)
  }

  ghost predicate FixedOk(fields: seq<Field>, fixed: Option<nat>) {
    fixed.Some? ==> fixed.value < |fields| && fields[fixed.value].htype.FixedCount?
  }

  lemma SeenStays(fields: seq<Field>, seen: seq<bool>, p: nat)
    requires SeenOk(fields, seen) && p < |fields|
    ensures SeenOk(fields, MarkSeen(seen, fields[p], CountRequired(fields, p)))
  {
    CountGrows(fields, p, |fields|);
  }

  lemma AtStart(fields: seq<Field>, m: seq<Slot>, into: seq<Slot>)
    requires FitsMessageSized(fields, m) && ReadyMessage(fields, into)
    ensures Between(fields, m, into, 0, 0, WireMessage(fields, m, |m|), into, seq(MAX_REQUIRED_FIELDS, _ => false), None)
  {
    hide WireMessage, FitsMessage, ReadySlot, DecodedSlot;
    WholeMessage(fields, m);
  }

  /** Nothing is left, so the whole message has been read; the last checks tell whether it
      was complete. */
  lemma AtEnd(fields: seq<Field>, m: seq<Slot>, into: seq<Slot>, k: nat, j: nat, dest: seq<Slot>, seen: seq<bool>, fixed: Option<nat>)
    requires Between(fields, m, into, k, j, [], dest, seen, fixed)
    ensures |fields| == |m| == |into| && dest == DecodedMessage(fields, m, into, |m|) && |seen| == MAX_REQUIRED_FIELDS
    ensures fixed.Some? ==> fixed.value < |fields|
    ensures CompleteMessage(fields, m) <==>
      && (fixed.Some? ==> |dest[fixed.value].items| == fields[fixed.value].htype.arraySize)
      && forall b :: 0 <= b < MAX_REQUIRED_FIELDS && b < CountRequired(fields, |fields|) ==> seen[b]
  {
    hide WireMessage, DecodedSlot, PartOf, WireValue, FieldTag, WireSlot, FieldsFrom, ItemsFrom, DecodedMessage, FitsSlot, ReadySlot,
      ReadSoFar, CompleteMessage, Present;
    var k1: nat := k;
    if j == 0 {
      k1 := SkipAbsent(fields, m, into, k, [], dest, seen, fixed);
    }
    if k1 < |m| {
      var k2, j2, wt, body := Occurrence(fields, m, into, k1, j, [], dest, seen, fixed);
      FirstByte(wt, fields[k1].tag);
      assert false;
    }
    forall i | 0 <= i < |m|
      ensures dest[i] == DecodedMessage(fields, m, into, |m|)[i]
    {
      DecodedAt(fields, m, into, |m|, i);
    }
    AllRead(fields, m, seen, fixed);
    if fixed.Some? {
      CountDecoded(fields, m, into, fixed.value);
    }
  }

  lemma AllRead(fields: seq<Field>, m: seq<Slot>, seen: seq<bool>, fixed: Option<nat>)
    requires ReadSoFar(fields, m, |m|, 0, fixed) && Marked(fields, m, |m|, seen)
    ensures fixed.Some? ==> fixed.value < |m| && m[fixed.value].items != [] && fields[fixed.value].htype.FixedCount?
    ensures CompleteMessage(fields, m) <==>
      && (fixed.Some? ==> |m[fixed.value].items| == fields[fixed.value].htype.arraySize)
      && forall b :: 0 <= b < MAX_REQUIRED_FIELDS && b < CountRequired(fields, |fields|) ==> seen[b]
  {
    hide Complete, Present, CountRequired;
    if CompleteMessage(fields, m) {
      if fixed.Some? {
        assert CompleteSlot(fields[fixed.value], m[fixed.value], CountRequired(fields, fixed.value));
      }
      forall b | 0 <= b < MAX_REQUIRED_FIELDS && b < CountRequired(fields, |fields|)
        ensures seen[b]
      {
        var i := RequiredAt(fields, |fields|, b);
        assert CompleteSlot(fields[i], m[i], CountRequired(fields, i));
      }
    } else {
      var i :| 0 <= i < |m| && !CompleteSlot(fields[i], m[i], CountRequired(fields, i));
      CountGrows(fields, i, |fields|);
      assert SlotRead(fields[i], m[i], fixed == Some(i));
    }
  }

  lemma FirstByte(wt: nat, t: nat)
    ensures FieldTag(wt, t) != []
  {
  }

  /** The `b`-th required field. */
  lemma {:induction false} RequiredAt(fields: seq<Field>, n: nat, b: nat) returns (i: nat)
    requires n <= |fields| && b < CountRequired(fields, n)
    ensures i < n && fields[i].htype.Required? && CountRequired(fields, i) == b
  {
    if b < CountRequired(fields, n - 1) {
      i := RequiredAt(fields, n - 1, b);
    } else {
      i := n - 1;
    }
  }

  /** The items of an array without a count are counted. */
  lemma CountDecoded(fields: seq<Field>, m: seq<Slot>, into: seq<Slot>, p: nat)
    requires FitsMessage(fields, m) && |fields| == |m| == |into| && ReadyMessage(fields, into)
    requires p < |m| && fields[p].htype.FixedCount?
    ensures |DecodedSlot(fields[p], m[p], into[p]).items| == |m[p].items|
  {
    hide FieldsOk, OneOfEach;
    assert FitsSlot(fields[p], m[p]) && ReadySlot(fields[p], into[p]);
  }

  /** What the encoder wrote for one tag of a field, starting with item `j`. */
  function Body(f: Field, items: seq<Value>, j: nat): Data
    requires j < |items|
  {
    if IsPacked(f) then Delimited(ItemsFrom(f, items, 0, false)) else WireValue(f.ltype, items[j])
  }

  /** Where reading is after that. */
  ghost predicate Follows(f: Field, s: Slot, k: nat, j: nat, k1: nat, j1: nat) {
    || (k1 == k + 1 && j1 == 0 && (IsPacked(f) || j + 1 == |s.items|))
    || (k1 == k && j1 == j + 1 && j1 < |s.items| && IsArray(f) && !IsPacked(f))
  }

  lemma Occurrence(fields: seq<Field>, m: seq<Slot>, into: seq<Slot>, k: nat, j: nat, rest: Data, dest: seq<Slot>, seen: seq<bool>, fixed: Option<nat>)
    returns (k1: nat, j1: nat, wt: nat, body: Data)
    requires Between(fields, m, into, k, j, rest, dest, seen, fixed)
    requires k < |m| && Present(fields[k], m[k])
    ensures wt == (if IsPacked(fields[k]) then WT_STRING else WireType(fields[k].ltype))
    ensures 0 < fields[k].tag < TAG_LIMIT
    ensures Follows(fields[k], m[k], k, j, k1, j1) && j < |m[k].items| && body == Body(fields[k], m[k].items, j)
    ensures rest == FieldTag(wt, fields[k].tag) + (body + Remaining(fields, m, k1, j1))
  {
    hide WireValue, FieldTag, WireSlot, ItemsFrom, DecodedSlot, PartOf, ReadyMessage, Delimited, IsDefault;
    var f := fields[k];
    assert FitsSlot(f, m[k]);
    body := Body(f, m[k].items, j);
    if IsPacked(f) {
      PackedComesNext(fields, m, k);
      wt, k1, j1 := WT_STRING, k + 1, 0;
    } else {
      ItemComesNext(fields, m, k, j);
      wt, k1, j1 := WireType(f.ltype), if j + 1 < |m[k].items| then k else k + 1, if j + 1 < |m[k].items| then j + 1 else 0;
    }
  }

  /** What reading that occurrence starts from and ends with. */
  lemma OccurrenceSlot(fields: seq<Field>, m: seq<Slot>, into: seq<Slot>, k: nat, j: nat, k1: nat, j1: nat)
    requires FitsMessage(fields, m) && k < |m| && Present(fields[k], m[k]) && j < |m[k].items|
    requires |into| == |m| && ReadyMessage(fields, into)
    requires j > 0 ==> IsArray(fields[k]) && !IsPacked(fields[k])
    requires Follows(fields[k], m[k], k, j, k1, j1)
    ensures
      var f, s, held := fields[k], m[k], into[k].held;
      && (forall v :: v in s.items ==> Fits(f.ltype, v)) && m[k].items[j] in s.items
      && (IsArray(f) ==> |s.items| <= |held| == f.htype.arraySize)
      && Expected(fields, m, into, k, j, k) == (if IsArray(f) then Slot(false, DecodedItems(f.ltype, s.items, held, j), held[j..]) else into[k])
      && Expected(fields, m, into, k1, j1, k) ==
           (if IsPacked(f) then Slot(false, DecodedItems(f.ltype, s.items, held, |s.items|), held[|s.items|..])
            else if IsArray(f) then Slot(false, DecodedItems(f.ltype, s.items, held, j + 1), held[j + 1..])
            else Slot(f.htype.Optional? || f.htype.Oneof?, [Decoded(f.ltype, s.items[0], Target(f, into[k]))], []))
      && (!IsArray(f) ==> |s.items| == 1 && ReadySlot(f, into[k]))
  {
    hide Decoded, Fits, FieldsOk, OneOfEach, IsDefault, Ready, Target, SetDefault;
    assert FitsSlot(fields[k], m[k]) && ReadySlot(fields[k], into[k]);
    if IsArray(fields[k]) {
      assert into[k] == Slot(false, [], into[k].held) && into[k].held[0..] == into[k].held;
      assert DecodedItems(fields[k].ltype, m[k].items, into[k].held, 0) == [];
    }
  }

  lemma ShapedUpdate(fields: seq<Field>, dest: seq<Slot>, p: nat, slot: Slot)
    requires ShapedMessage(fields, dest) && p < |dest| && ShapedSlot(fields[p], slot)
    ensures ShapedMessage(fields, ClearUnion(fields, p, dest[p := slot]))
  {
    var r := ClearUnion(fields, p, dest[p := slot]);
    forall k | 0 <= k < |r|
      ensures ShapedSlot(fields[k], r[k])
    {
    }
  }

  lemma ShapedParts(fields: seq<Field>, dest: seq<Slot>)
    requires ShapedMessage(fields, dest)
    ensures |fields| == |dest| && forall k :: 0 <= k < |dest| ==> ShapedSlot(fields[k], dest[k])
    ensures forall k :: 0 <= k < |dest| && fields[k].htype.FixedCount? ==>
      ShapedSlot(fields[k], Slot(false, [], dest[k].items + dest[k].held))
  {
  }

  /** The next tag on the wire, which there is as long as anything is left. */
  lemma NextTag(fields: seq<Field>, m: seq<Slot>, into: seq<Slot>, k: nat, j: nat, rest: Data, dest: seq<Slot>, seen: seq<bool>, fixed: Option<nat>)
    returns (at: nat, k1: nat, j1: nat, wt: nat, body: Data)
    requires Between(fields, m, into, k, j, rest, dest, seen, fixed) && rest != []
    ensures FitsMessage(fields, m) && |fields| == |m| == |dest| == |into| && ReadyMessage(fields, into)
    ensures at < |m| && Present(fields[at], m[at])
    ensures Between(fields, m, into, at, j, rest, dest, seen, fixed) && dest[at] == Expected(fields, m, into, at, j, at)
    ensures wt == (if IsPacked(fields[at]) then WT_STRING else WireType(fields[at].ltype)) && 0 < fields[at].tag < TAG_LIMIT
    ensures Follows(fields[at], m[at], at, j, k1, j1) && j < |m[at].items| && body == Body(fields[at], m[at].items, j)
    ensures rest == FieldTag(wt, fields[at].tag) + (body + Remaining(fields, m, k1, j1))
    ensures j > 0 ==> IsArray(fields[at]) && !IsPacked(fields[at])
    ensures fields[at].htype.FixedCount? && fixed != Some(at) ==> j == 0
    ensures fixed.Some? && fixed != Some(at) ==>
      && fixed.value < |fields| && |dest[fixed.value].items| == |m[fixed.value].items|
      && (CompleteMessage(fields, m) ==> |m[fixed.value].items| == fields[fixed.value].htype.arraySize)
  {
    hide WireValue, FieldTag, WireSlot, ItemsFrom, DecodedSlot, PartOf, ReadyMessage, Delimited, IsDefault, FitsSlot, Remaining, DecodedItems;
    at := k;
    if j == 0 {
      at := SkipAbsent(fields, m, into, k, rest, dest, seen, fixed);
    }
    k1, j1, wt, body := Occurrence(fields, m, into, at, j, rest, dest, seen, fixed);
    if fixed.Some? && fixed != Some(at) {
      CountDecoded(fields, m, into, fixed.value);
      if CompleteMessage(fields, m) {
        assert CompleteSlot(fields[fixed.value], m[fixed.value], CountRequired(fields, fixed.value));
      }
    }
  }

  lemma NotComplete(fields: seq<Field>, m: seq<Slot>, k: nat, j: nat)
    requires k < |m| == |fields| && Present(fields[k], m[k]) && j < |m[k].items| && !Complete(fields[k].ltype, m[k].items[j])
    ensures !CompleteMessage(fields, m)
  {
    hide Complete, Present, CountRequired;
    if CompleteMessage(fields, m) {
      assert CompleteSlot(fields[k], m[k], CountRequired(fields, k));
    }
  }

  /** Tags tell fields apart. */
  lemma TagIs(fields: seq<Field>, m: seq<Slot>, at: nat, p: nat)
    requires FitsMessage(fields, m) && at < |fields| && p < |fields| && fields[p].tag == fields[at].tag
    ensures p == at
  {
  }

  /** One tag and what belongs to it. */
  method DecodeOne(stream: IStream, iter: FieldIter, dest: seq<Slot>, seen: seq<bool>, fixed: Option<nat>,
                   ghost good: bool, ghost m: seq<Slot>, ghost into: seq<Slot>, ghost k: nat, ghost j: nat)
    returns (ok: bool, more: bool, r: seq<Slot>, seen1: seq<bool>, fixed1: Option<nat>, ghost k2: nat, ghost j2: nat)
    requires stream.Valid() && stream.bytesLeft > 0 && iter.Valid() && ShapedMessage(iter.fields, dest)
    requires SeenOk(iter.fields, seen) && FixedOk(iter.fields, fixed)
    requires good ==> stream.bytesLeft < TWO_32 && Between(iter.fields, m, into, k, j, stream.Rest(), dest, seen, fixed)
    modifies stream, iter
    ensures stream.Valid() && Ends(ok, old(stream.End()), stream) && stream.bytesLeft <= old(stream.bytesLeft)
    ensures ok && more ==> stream.bytesLeft < old(stream.bytesLeft)
    ensures iter.Valid() && ShapedMessage(iter.fields, r) && |r| == |iter.fields| && SeenOk(iter.fields, seen1) && FixedOk(iter.fields, fixed1)
    ensures good ==> more && if ok then Between(iter.fields, m, into, k2, j2, stream.Rest(), r, seen1, fixed1)
                             else !CompleteMessage(iter.fields, m)
    decreases iter.fields, 0
  {
    hide Between, ShapedSlot, ShapedMessage, FitsMessage, DecodedSlot, PartOf, ReadyMessage, ReadySlot, Target, FieldTag, WireValue, ItemsFrom, Delimited, Remaining, WireSlot,
      DecodedItems, Decoded, Fits, Present, CountRequired, SeenOk;
    ghost var fields := iter.fields;
    ShapedParts(fields, dest);
    r, seen1, fixed1, more, k2, j2 := dest, seen, fixed, true, k, j;
    ghost var at: nat, wt: nat, body: Data, tail: Data := k, 0, [], [];
    ghost var rest := stream.Rest();
    if good {
      at, k2, j2, wt, body := NextTag(fields, m, into, k, j, rest, dest, seen, fixed);
      tail := Remaining(fields, m, k2, j2);
    }
    var wireType, tag, eof;
    ok, wireType, tag, eof := stream.DecodeTag(wt, if good then fields[at].tag else 0, body + tail);
    if !ok {
      ok, more := eof, false;
      return;
    }
    if iter.fields == [] && tag == 0 {
      return false, more, r, seen1, fixed1, k2, j2;     // the terminator is taken for a field
    }
    var found := false;
    if iter.fields != [] {
      found := iter.Find(tag);
    }
    if !found {
      ok := stream.SkipField(wireType);
      return;
    }
    var p := iter.pos;
    var f := iter.fields[p];
    if good {
      TagIs(fields, m, at, p);
    }
    var slot := r[p];
    if f.htype.FixedCount? && fixed != Some(p) {
      if fixed.Some? && |r[fixed.value].items| != iter.fields[fixed.value].htype.arraySize {
        return false, more, r, seen1, fixed1, k2, j2;
      }
      fixed1 := Some(p);
      slot := Slot(false, [], slot.items + slot.held);
    }
    SeenStays(iter.fields, seen, p);
    seen1 := MarkSeen(seen, f, iter.requiredFieldIndex);
    if good {
      OccurrenceSlot(fields, m, into, at, j, k2, j2);
    }
    ok, slot := DecodeSlot(stream, wireType, f, slot, if good then m[at].items else [],
                           if good then into[at].held else [], j, tail);
    ShapedUpdate(iter.fields, r, p, slot);
    r := ClearUnion(iter.fields, p, r[p := slot]);
    if good && ok {
      Advance(fields, m, into, at, j, rest, dest, seen, fixed, k2, j2, tail, slot, fixed1);
    } else if good {
      NotComplete(fields, m, at, j);
    }
  }

  /** Decodes into a struct that has been set to defaults, or merges into any other. */
  method DecodeNoinit(stream: IStream, fields: seq<Field>, dest: seq<Slot>, ghost m: seq<Slot>) returns (ok: bool, r: seq<Slot>)
    requires stream.Valid() && ShapedMessage(fields, dest)
    modifies stream
    ensures stream.Valid() && Ends(ok, old(stream.End()), stream) && stream.bytesLeft <= old(stream.bytesLeft) && ShapedMessage(fields, r)
    ensures |dest| == |fields|
    ensures
      && FitsMessageSized(fields, m) && old(stream.bytesLeft) < TWO_32 && old(stream.Rest()) == WireMessage(fields, m, |m|)
      && ReadyMessage(fields, dest)
      ==> (ok <==> CompleteMessage(fields, m)) && (ok ==> r == DecodedMessage(fields, m, dest, |m|) && stream.Rest() == [])
    decreases fields, 1
  {
    hide WireMessage, FitsMessage, DecodedMessage, ShapedMessage, ReadyMessage, Between;
    ghost var good := FitsMessageSized(fields, m) && stream.bytesLeft < TWO_32 && stream.Rest() == WireMessage(fields, m, |m|)
                      && ReadyMessage(fields, dest);
    ShapedParts(fields, dest);
    r := dest;
    var iter := new FieldIter(fields);
    var fieldsSeen := seq(MAX_REQUIRED_FIELDS, _ => false);
    var fixedCountField: Option<nat> := None;
    ghost var k, j := 0, 0;
    if good {
      AtStart(fields, m, dest);
    }
    while stream.bytesLeft > 0
      invariant stream.Valid() && stream.End() == old(stream.End()) && stream.bytesLeft <= old(stream.bytesLeft)
      invariant ShapedMessage(fields, r) && |r| == |fields| && iter.Valid() && iter.fields == fields
      invariant SeenOk(fields, fieldsSeen) && FixedOk(fields, fixedCountField)
      invariant good ==> stream.bytesLeft < TWO_32 && Between(fields, m, dest, k, j, stream.Rest(), r, fieldsSeen, fixedCountField)
      decreases stream.bytesLeft
    {
      var more;
      ok, more, r, fieldsSeen, fixedCountField, k, j := DecodeOne(stream, iter, r, fieldsSeen, fixedCountField, good, m, dest, k, j);
      if !ok {
        return;
      }
      if !more {
        break;
      }
    }
    // the last array without a count must be complete, and no required field missing
    if good {
      AtEnd(fields, m, dest, k, j, r, fieldsSeen, fixedCountField);
    }
    if fixedCountField.Some? && |r[fixedCountField.value].items| != fields[fixedCountField.value].htype.arraySize {
      return false, r;
    }
    var count := iter.TotalRequired();
    ok := AllSeen(fieldsSeen, count);
  }
}
