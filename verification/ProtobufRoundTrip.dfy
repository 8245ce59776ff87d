/** Messages through the encoder and the decoder, and exactly which come back the same. */
module ProtobufRoundTrip {
  import opened InternalKeys
  import opened Bytes
  import opened Coding
  import opened Protobuf
  import E = ProtobufEncoder
  import D = ProtobufDecoder
  import M = ProtobufMessages

  // ---------------------------------------------------------------- what both take

  /** A struct of the field's type, within its limits. */
  ghost predicate Holds(l: LType, v: Value) {
    Typed(l, v) && Fits(l, v)
  }

  ghost predicate HoldsMessage(fields: seq<Field>, m: seq<Slot>) {
    TypedMessage(fields, m) && FitsMessage(fields, m)
  }

  ghost predicate HoldsSlot(f: Field, s: Slot) {
    TypedSlot(f, s) && FitsSlot(f, s)
  }

  /** Every text in it has room for its terminator. */
  ghost predicate Terminated(l: LType, v: Value)
    decreases v, 0
  {
    && (l.Text? && v.Blob? ==> |v.b| < l.max)
    && (l.Submessage? && v.Message? ==> TerminatedMessage(l.fields, v.slots))
  }

  ghost predicate TerminatedMessage(fields: seq<Field>, m: seq<Slot>)
    decreases m, 0
  {
    |fields| == |m| ==> forall k :: 0 <= k < |m| ==> TerminatedSlot(fields[k], m[k])
  }

  /** Only what is written counts. */
  ghost predicate TerminatedSlot(f: Field, s: Slot)
    decreases s, 0
  {
    Present(f, s) ==> forall k :: 0 <= k < |s.items| ==> Terminated(f.ltype, s.items[k])
  }

  /** The encoder takes all of these values, the decoder those with terminated texts. */
  lemma {:induction false} Accepted(l: LType, v: Value)
    requires Holds(l, v)
    ensures Encodable(l, v) && (Complete(l, v) <==> Terminated(l, v))
    decreases v, 0
  {
    hide EncodableSlot, WireSlot, FitsSlot, TypedSlot, CompleteMessage, TerminatedMessage;
    if l.Submessage? {
      MessageAccepted(l.fields, v.slots);
    }
  }

  lemma {:induction false} MessageAccepted(fields: seq<Field>, m: seq<Slot>)
    requires HoldsMessage(fields, m)
    ensures |fields| == |m| && EncodableMessage(fields, m, |m|)
    ensures CompleteMessage(fields, m) <==> TerminatedMessage(fields, m)
    decreases m, 0
  {
    hide EncodableSlot, CompleteSlot, FitsSlot, TypedSlot, OneOfEach, FieldsOk, TerminatedSlot;
    forall k | 0 <= k < |m|
      ensures EncodableSlot(fields[k], m[k])
      ensures CompleteSlot(fields[k], m[k], CountRequired(fields, k)) <==> TerminatedSlot(fields[k], m[k])
    {
      SlotAccepted(fields[k], m[k], CountRequired(fields, k));
    }
    SlotsEncodable(fields, m, |m|);
  }

  lemma {:induction false} SlotsEncodable(fields: seq<Field>, m: seq<Slot>, n: nat)
    requires n <= |m| == |fields| && forall k :: 0 <= k < |m| ==> EncodableSlot(fields[k], m[k])
    ensures EncodableMessage(fields, m, n)
  {
    hide EncodableSlot;
    if n > 0 {
      SlotsEncodable(fields, m, n - 1);
    }
  }

  lemma {:induction false} SlotAccepted(f: Field, s: Slot, index: nat)
    requires HoldsSlot(f, s)
    ensures EncodableSlot(f, s) && (CompleteSlot(f, s, index) <==> TerminatedSlot(f, s))
    decreases s, 0
  {
    hide Fits, Typed, Encodable, Complete, Terminated, IsDefault;
    forall v | v in s.items
      ensures Encodable(f.ltype, v) && (Complete(f.ltype, v) <==> Terminated(f.ltype, v))
    {
      Accepted(f.ltype, v);
    }
    ItemsEncodable(f.ltype, s.items, |s.items|);
  }

  lemma {:induction false} ItemsEncodable(l: LType, items: seq<Value>, n: nat)
    requires n <= |items| && forall v :: v in items ==> Encodable(l, v)
    ensures EncodableItems(l, items, n)
  {
    hide Encodable;
    if n > 0 {
      ItemsEncodable(l, items, n - 1);
    }
  }

  /** Any message within its limits that fits the buffer is written; it is read back, into
      a struct that may hold anything, exactly when its texts are terminated; and it is the
      same exactly when it survives there. */
  method EncodeThenDecode(fields: seq<Field>, m: seq<Slot>, maxSize: nat, dest: seq<Slot>) returns (ok: bool, r: seq<Slot>)
    requires HoldsMessage(fields, m) && maxSize < TWO_32 && ShapedMessage(fields, dest)
    ensures |m| == |fields| == |dest|
    ensures ok <==> |WireMessage(fields, m, |m|)| <= maxSize && TerminatedMessage(fields, m)
    ensures ok ==>
      && r == DecodedMessage(fields, m, SetDefaults(fields, dest, |dest|), |m|)
      && (SameMessage(fields, m, r) <==> SurvivesMessage(fields, m, dest))
  {
    hide FitsMessage, WireMessage, EncodableMessage, TypedMessage, DecodedMessage, CompleteMessage, SameMessage, SurvivesMessage,
      TerminatedMessage, ShapedMessage, SetDefaults;
    MessageAccepted(fields, m);
    M.ShapedSize(fields, dest);
    ComesBack(fields, m, dest);
    r := [];
    var s := new E.OStream(true, maxSize, []);
    ok := E.Encode(s, fields, m);
    if !ok {
      return;
    }
    var input := new D.IStream(s.out, 0, |s.out|);
    ok, r := M.Decode(input, fields, dest, m);
  }

  /** What is missing on the wire is found out: the decoder takes exactly the complete
      messages. */
  method DecodeWritten(fields: seq<Field>, m: seq<Slot>, input: Data, dest: seq<Slot>) returns (ok: bool, r: seq<Slot>)
    requires FitsMessage(fields, m) && |m| == |fields| && input == WireMessage(fields, m, |m|) && |input| < TWO_32
    requires ShapedMessage(fields, dest)
    ensures |dest| == |fields|
    ensures ok <==> CompleteMessage(fields, m)
    ensures ok ==> r == DecodedMessage(fields, m, SetDefaults(fields, dest, |dest|), |m|)
  {
    hide FitsMessage, WireMessage, DecodedMessage, CompleteMessage, ShapedMessage, SetDefaults;
    var stream := new D.IStream(input, 0, |input|);
    ok, r := M.Decode(stream, fields, dest, m);
  }

  // ---------------------------------------------------------------- the same message

  /** Equal in everything that a reader of the struct may look at: what an unset field or
      a union member not chosen holds does not count, but an array without a count always
      does, all of it. */
  predicate Same(l: LType, v: Value, w: Value)
    decreases v, 0
  {
    if l.Submessage? then v.Message? && w.Message? && SameMessage(l.fields, v.slots, w.slots)
    else v == w
  }

  predicate SameMessage(fields: seq<Field>, m: seq<Slot>, d: seq<Slot>)
    decreases m, 0
  {
    |fields| == |m| == |d| && forall k :: 0 <= k < |m| ==> SameSlot(fields[k], m[k], d[k])
  }

  predicate SameSlot(f: Field, s: Slot, t: Slot)
    decreases s, 0
  {
    if f.htype.Optional? || f.htype.Oneof? then
      s.has == t.has && (s.has ==> SameItems(f.ltype, s.items, t.items))
    else if f.htype.FixedCount? then SameItems(f.ltype, s.items, t.items + t.held)
    else SameItems(f.ltype, s.items, t.items)
  }

  predicate SameItems(l: LType, items: seq<Value>, others: seq<Value>)
    decreases items, 0
  {
    |items| == |others| && forall k :: 0 <= k < |items| ==> Same(l, items[k], others[k])
  }

  // ---------------------------------------------------------------- when it comes back

  /** What the array's memory holds, counted or not. */
  function Contents(s: Slot): seq<Value> {
    s.items + s.held
  }

  /** Where entry `k` of a field is decoded to; a oneof is cleared first. */
  function Place(f: Field, dest: Slot, k: nat): Value {
    if f.htype.Oneof? || k >= |Contents(dest)| then Zero(f.ltype) else Contents(dest)[k]
  }

  /** Each singular field that looks default and is not written is one that setting the
      defaults in the destination restores. */
  predicate Survives(l: LType, v: Value, dest: Value)
    decreases v, 0
  {
    l.Submessage? && v.Message? && dest.Message? ==> SurvivesMessage(l.fields, v.slots, dest.slots)
  }

  predicate SurvivesMessage(fields: seq<Field>, m: seq<Slot>, dest: seq<Slot>)
    decreases m, 0
  {
    |fields| == |m| == |dest| ==> forall k :: 0 <= k < |m| ==> SurvivesSlot(fields[k], m[k], dest[k])
  }

  predicate SurvivesSlot(f: Field, s: Slot, dest: Slot)
    decreases s, 0
  {
    if Present(f, s) then forall k :: 0 <= k < |s.items| ==> Survives(f.ltype, s.items[k], Place(f, dest, k))
    else f.htype.Singular? && |s.items| == 1 == |dest.items| ==> Restored(f.ltype, s.items[0], dest.items[0])
  }

  /** Its arrays without a count agree with those of the destination behind the bytes that
      setting the defaults overwrites. */
  predicate Restored(l: LType, v: Value, dest: Value)
    decreases v, 0
  {
    l.Submessage? && v.Message? && dest.Message? ==> RestoredMessage(l.fields, v.slots, dest.slots)
  }

  predicate RestoredMessage(fields: seq<Field>, m: seq<Slot>, dest: seq<Slot>)
    decreases m, 0
  {
    |fields| == |m| == |dest| ==> forall k :: 0 <= k < |m| ==> RestoredSlot(fields[k], m[k], dest[k])
  }

  predicate RestoredSlot(f: Field, s: Slot, dest: Slot)
    decreases s, 0
  {
    if f.htype.FixedCount? then
      SameItems(f.ltype, ZeroFront(f.ltype, s.items, SIZE_WIDTH), ZeroFront(f.ltype, Contents(dest), SIZE_WIDTH))
    else f.htype.Singular? && |s.items| == 1 == |dest.items| ==> Restored(f.ltype, s.items[0], dest.items[0])
  }

  // ---------------------------------------------------------------- the bytes that are overwritten

  lemma DivMod(v: nat)
    ensures v / 0x100 / 0x100 == v / 0x1_0000 && v / 0x1_0000 / 0x100 == v / 0x100_0000
    ensures v / 0x100 / 0x1_0000 == v / 0x100_0000
    ensures v % 0x1_0000 == v % 0x100 + 0x100 * (v / 0x100 % 0x100)
    ensures v % 0x100_0000 == v % 0x1_0000 + 0x1_0000 * (v / 0x1_0000 % 0x100)
    ensures v % TWO_32 == v % 0x100_0000 + 0x100_0000 * (v / 0x100_0000 % 0x100)
  {
  }

  /** The first bytes of a number being zero. */
  lemma LowBytes(v: nat, w: nat, n: nat)
    requires n <= w && n <= 4 && forall i :: 0 <= i < n ==> Fixed(v, w)[i] == 0
    ensures v % Power256(n) == 0
  {
    D.Widths();
    DivMod(v);
    if n > 0 {
      assert Fixed(v, w)[0] == (v % 256) as byte;
    }
    if n > 1 {
      assert Fixed(v, w)[1] == Fixed(v / 0x100, w - 1)[0];
    }
    if n > 2 {
      assert Fixed(v, w)[2] == Fixed(v / 0x100, w - 1)[1] == Fixed(v / 0x100 / 0x100, w - 2)[0];
    }
    if n > 3 {
      assert Fixed(v, w)[3] == Fixed(v / 0x100, w - 1)[2] == Fixed(v / 0x100 / 0x100, w - 2)[1]
          == Fixed(v / 0x100 / 0x100 / 0x100, w - 3)[0];
    }
    assert Power256(3) == 0x100_0000;
  }

  /** The number's bytes in memory determine the number. */
  lemma NumberCleared(l: LType, x: int, n: nat)
    requires Packable(l) && FitsNumber(l, x) && 0 < n <= SIZE_WIDTH
    requires forall i :: 0 <= i < n && i < |Memory(l, Number(x))| ==> Memory(l, Number(x))[i] == Some(0)
    ensures ZeroBytes(l, Number(x), n) == Number(x) && |Memory(l, Number(x))| == SizeOf(l)
  {
    hide Power256, Fixed;
    D.Widths();
    var w := SizeOf(l);
    var v: nat := x % Power256(w);
    var k := if n < w then n else w;
    if n >= w {
      assert w <= 4;
    }
    forall i | 0 <= i < k
      ensures Fixed(v, w)[i] == 0
    {
      assert Memory(l, Number(x))[i] == Some(Fixed(v, w)[i]);
    }
    LowBytes(v, w, k);
    ClearedIs(x, w, k);
  }

  lemma ClearedIs(x: int, w: nat, k: nat)
    requires w in {1, 2, 4, 8} && 0 < k <= w && (x % Power256(w)) % Power256(k) == 0
    ensures k < w ==> x % Power256(k) == 0
    ensures k == w && 0 <= x + HalfRange(w) && x < Power256(w) ==> x == 0
  {
    hide Power256;
    PowerSplit(w - k, k);
    Nested(x, Power256(w - k), Power256(k));
    if k == w {
      D.Widths();
    }
  }

  lemma {:induction false} PowerSplit(a: nat, b: nat)
    ensures Power256(a + b) == Power256(a) * Power256(b)
  {
    if a > 0 {
      PowerSplit(a - 1, b);
      assert 256 * (Power256(a - 1) * Power256(b)) == 256 * Power256(a - 1) * Power256(b);
    }
  }

  lemma Nested(x: int, a: nat, b: nat)
    requires a > 0 && b > 0
    ensures a * b > 0 && (x % (a * b)) % b == x % b
  {
    var q, r := x / (a * b), x % (a * b);
    assert x == (a * q) * b + r by {
      assert a * b * q == (a * q) * b;
    }
    Shifted(r, a * q, b);
  }

  lemma Shifted(r: int, q: int, b: nat)
    requires b > 0
    ensures (q * b + r) % b == r % b
  {
    var x, d := q * b + r, r / b;
    assert x == (q + d) * b + r % b by {
      assert (q + d) * b == q * b + d * b;
    }
    var e := x / b - (q + d);
    assert e * b == r % b - x % b by {
      assert e * b == (x / b) * b - (q + d) * b;
    }
    assert e == 0;
  }

  /** What looks like a count of zero is not changed by setting one. */
  lemma {:induction false} FrontIsZero(l: LType, items: seq<Value>, n: nat)
    requires !l.Submessage? && n <= SIZE_WIDTH && (l.ByteArray? ==> n in {0, SIZE_WIDTH})
    requires forall v :: v in items ==> Holds(l, v)
    requires forall i :: 0 <= i < n && i < |ArrayMemory(l, items)| && ArrayMemory(l, items)[i].Some? ==> ArrayMemory(l, items)[i] == Some(0)
    ensures ZeroFront(l, items, n) == items
  {
    hide Memory, ZeroBytes, Typed, Fits;
    if n > 0 && items != [] {
      var v, rest := items[0], items[1..];
      assert v in items;
      var m := Memory(l, v);
      assert ArrayMemory(l, items) == m + ArrayMemory(l, rest);
      ItemIsZero(l, v, n, m, ArrayMemory(l, rest));
      var k := if n > SizeOf(l) then n - SizeOf(l) else 0;
      forall i | 0 <= i < k && i < |ArrayMemory(l, rest)| && ArrayMemory(l, rest)[i].Some?
        ensures ArrayMemory(l, rest)[i] == Some(0)
      {
        assert ArrayMemory(l, items)[SizeOf(l) + i] == ArrayMemory(l, rest)[i];
      }
      FrontIsZero(l, rest, k);
      assert items == [v] + rest;
    }
  }

  lemma ItemIsZero(l: LType, v: Value, n: nat, m: seq<Option<byte>>, rest: seq<Option<byte>>)
    requires !l.Submessage? && 0 < n <= SIZE_WIDTH && (l.ByteArray? ==> n == SIZE_WIDTH) && Holds(l, v) && m == Memory(l, v)
    requires forall i :: 0 <= i < n && i < |m + rest| && (m + rest)[i].Some? ==> (m + rest)[i] == Some(0)
    ensures ZeroBytes(l, v, n) == v && |m| == SizeOf(l)
  {
    hide Fixed, Power256, FitsNumber;
    forall i | 0 <= i < n && i < |m| && m[i].Some?
      ensures m[i] == Some(0)
    {
      assert (m + rest)[i] == m[i];
    }
    if Packable(l) {
      NumberCleared(l, v.n, n);
    } else if l.FixedLengthBytes? {
      assert forall i :: 0 <= i < |v.b| && i < n ==> m[i] == Some(v.b[i]);
    } else if l.Text? {
      TextByte(l, v, m);
    } else {
      CountedBytes(l, v, n, m);
    }
  }

  /** A text that begins with a zero is empty. */
  lemma TextByte(l: LType, v: Value, m: seq<Option<byte>>)
    requires l.Text? && Holds(l, v) && m == Memory(l, v)
    ensures |m| == l.max && (m != [] && m[0] == Some(0) ==> v == Blob([]))
    ensures m == [] || m[0].Some?
  {
    assert forall i :: 0 <= i < |v.b| ==> v.b[i] in v.b;
  }

  /** The count in front of some bytes. */
  lemma CountedBytes(l: LType, v: Value, n: nat, m: seq<Option<byte>>)
    requires l.ByteArray? && Holds(l, v) && m == Memory(l, v) && 0 < n <= SIZE_WIDTH
    requires forall i :: 0 <= i < n && i < |m| && m[i].Some? ==> m[i] == Some(0)
    ensures v == Blob([]) || n < SIZE_WIDTH
    ensures |m| == SizeOf(l)
  {
    hide Fixed, Power256;
    D.Widths();
    if n == SIZE_WIDTH {
      forall i | 0 <= i < SIZE_WIDTH
        ensures Fixed(|v.b|, SIZE_WIDTH)[i] == 0
      {
        assert m[i] == Some(Fixed(|v.b|, SIZE_WIDTH)[i]);
      }
      LowBytes(|v.b|, SIZE_WIDTH, SIZE_WIDTH);
    }
  }

  // ---------------------------------------------------------------- into a given destination

  /** A slot that looks default, against what setting the default leaves. */
  lemma {:induction false} DefaultSlotIsSame(f: Field, s: Slot, dest: Slot)
    requires HoldsSlot(f, s) && SlotDefault(f, s) && ShapedSlot(f, dest)
    ensures SameSlot(f, s, SetDefaultSlot(f, dest)) <==> RestoredSlot(f, s, dest)
    decreases s, 0
  {
    hide Fits, Typed, IsDefault, SetDefault, Restored, Same, Shaped, ZeroFront, CountSeen;
    if f.htype.Singular? {
      assert s.items[0] in s.items && dest.items[0] in dest.items;
      DefaultIsSame(f.ltype, s.items[0], dest.items[0]);
    } else if f.htype.FixedCount? {
      NothingSeen(f, s);
      assert [] + ZeroFront(f.ltype, Contents(dest), SIZE_WIDTH) == ZeroFront(f.ltype, Contents(dest), SIZE_WIDTH);
    }
  }

  lemma NothingSeen(f: Field, s: Slot)
    requires HoldsSlot(f, s) && f.htype.FixedCount? && !CountSeen(f.ltype, s)
    ensures ZeroFront(f.ltype, s.items, SIZE_WIDTH) == s.items
  {
    hide Typed, Fits, Memory, ArrayMemory, ZeroBytes;
    if !f.ltype.Submessage? {
      forall i | 0 <= i < SIZE_WIDTH && i < |ArrayMemory(f.ltype, s.items)| && ArrayMemory(f.ltype, s.items)[i].Some?
        ensures ArrayMemory(f.ltype, s.items)[i] == Some(0)
      {
        assert ByteOf(f.ltype, s.items, i) == ArrayMemory(f.ltype, s.items)[i];
      }
      FrontIsZero(f.ltype, s.items, SIZE_WIDTH);
    }
  }

  lemma {:induction false} DefaultIsSame(l: LType, v: Value, dest: Value)
    requires Holds(l, v) && IsDefault(l, v) && Shaped(l, dest)
    ensures Same(l, v, SetDefault(l, dest)) <==> Restored(l, v, dest)
    decreases v, 0
  {
    hide SlotDefault, SameSlot, SetDefaultSlot, FitsSlot, TypedSlot, ShapedSlot, RestoredSlot, FieldsOk, OneOfEach;
    if l.Submessage? {
      var fields, m, d := l.fields, v.slots, dest.slots;
      assert TypedMessage(fields, m) && FitsMessage(fields, m) && ShapedMessage(fields, d);
      forall k | 0 <= k < |m|
        ensures SameSlot(fields[k], m[k], SetDefaults(fields, d, |d|)[k]) <==> RestoredSlot(fields[k], m[k], d[k])
      {
        M.DefaultAt(fields, d, |d|, k);
        LooksDefault(fields, m, |m|, k);
        DefaultSlotIsSame(fields[k], m[k], d[k]);
      }
    }
  }

  lemma {:induction false} LooksDefault(fields: seq<Field>, m: seq<Slot>, n: nat, k: nat)
    requires k < n <= |fields| == |m| && AllDefault(fields, m, n)
    ensures SlotDefault(fields[k], m[k])
  {
    hide SlotDefault;
    if k < n - 1 {
      LooksDefault(fields, m, n - 1, k);
    }
  }

  /** A message within its limits comes back the same, in a struct that held `dest`
      before, exactly when it survives there. */
  lemma {:induction false} ComesBack(fields: seq<Field>, m: seq<Slot>, dest: seq<Slot>)
    requires HoldsMessage(fields, m) && ShapedMessage(fields, dest)
    ensures |fields| == |m| == |dest|
    ensures SameMessage(fields, m, DecodedMessage(fields, m, SetDefaults(fields, dest, |dest|), |m|)) <==> SurvivesMessage(fields, m, dest)
    decreases m, 0
  {
    hide FitsSlot, TypedSlot, ShapedSlot, SameSlot, SurvivesSlot, DecodedSlot, SetDefaultSlot, FieldsOk, OneOfEach;
    var into := SetDefaults(fields, dest, |dest|);
    forall k | 0 <= k < |m|
      ensures SameSlot(fields[k], m[k], DecodedMessage(fields, m, into, |m|)[k]) <==> SurvivesSlot(fields[k], m[k], dest[k])
    {
      M.DefaultAt(fields, dest, |dest|, k);
      M.DecodedAt(fields, m, into, |m|, k);
      SlotComesBack(fields[k], m[k], dest[k]);
    }
  }

  lemma {:induction false} SlotComesBack(f: Field, s: Slot, dest: Slot)
    requires HoldsSlot(f, s) && ShapedSlot(f, dest)
    ensures SameSlot(f, s, DecodedSlot(f, s, SetDefaultSlot(f, dest))) <==> SurvivesSlot(f, s, dest)
    decreases s, 0
  {
    hide Fits, Typed, Same, Survives, Decoded, SetDefault, IsDefault, Restored, Shaped, ZeroFront, Zero, CountSeen;
    if !Present(f, s) {
      if f.htype.Singular? {
        assert s.items[0] in s.items && dest.items[0] in dest.items;
        DefaultIsSame(f.ltype, s.items[0], dest.items[0]);
      }
    } else if IsArray(f) {
      ArrayComesBack(f, s, dest);
    } else {
      var place := Place(f, dest, 0);
      assert s.items[0] in s.items;
      M.ZeroShaped(f.ltype);
      assert !f.htype.Oneof? ==> place in dest.items;
      ValueComesBack(f.ltype, s.items[0], place);
    }
  }

  lemma {:induction false} ArrayComesBack(f: Field, s: Slot, dest: Slot)
    requires HoldsSlot(f, s) && ShapedSlot(f, dest) && IsArray(f) && Present(f, s)
    ensures SameSlot(f, s, DecodedSlot(f, s, SetDefaultSlot(f, dest))) <==> SurvivesSlot(f, s, dest)
    decreases s.items, 1
  {
    hide Fits, Typed, Same, Survives, Decoded, SetDefault, Shaped, ZeroFront, Zero;
    var into := SetDefaultSlot(f, dest);
    assert f.htype.FixedCount? ==> into.held[|s.items|..] == [];
    forall k | 0 <= k < |s.items|
      ensures Same(f.ltype, s.items[k], DecodedItems(f.ltype, s.items, into.held, |s.items|)[k])
          <==> Survives(f.ltype, s.items[k], Place(f, dest, k))
    {
      assert s.items[k] in s.items;
      ItemAt(f.ltype, s.items, into.held, |s.items|, k);
      EntryPlace(f, dest, k);
      ValueComesBack(f.ltype, s.items[k], Place(f, dest, k));
    }
  }

  lemma EntryPlace(f: Field, dest: Slot, k: nat)
    requires ShapedSlot(f, dest) && IsArray(f) && k < f.htype.arraySize
    ensures k < |SetDefaultSlot(f, dest).held| && Shaped(f.ltype, Place(f, dest, k))
    ensures SetDefault(f.ltype, SetDefaultSlot(f, dest).held[k]) == SetDefault(f.ltype, Place(f, dest, k))
  {
    hide Shaped;
    if k < |dest.items| {
      assert dest.items[k] in dest.items;
    } else {
      assert dest.held[k - |dest.items|] in dest.held;
    }
  }

  lemma {:induction false} ItemAt(l: LType, items: seq<Value>, held: seq<Value>, n: nat, k: nat)
    requires k < n <= |items| && n <= |held|
    ensures DecodedItems(l, items, held, n)[k] == Decoded(l, items[k], SetDefault(l, held[k]))
  {
    hide Decoded, SetDefault;
    if k < n - 1 {
      ItemAt(l, items, held, n - 1, k);
    }
  }

  lemma {:induction false} ValueComesBack(l: LType, v: Value, dest: Value)
    requires Holds(l, v) && Shaped(l, dest)
    ensures Same(l, v, Decoded(l, v, SetDefault(l, dest))) <==> Survives(l, v, dest)
    decreases v, 0
  {
    hide FitsMessage, SameMessage, SurvivesMessage, DecodedMessage, TypedMessage, SetDefaults, ShapedMessage;
    if l.Submessage? {
      M.FitsSize(l, v);
      M.ShapedSize(l.fields, dest.slots);
      ComesBack(l.fields, v.slots, dest.slots);
    }
  }

  /** A message without submessages always comes back. */
  lemma FlatComesBack(fields: seq<Field>, m: seq<Slot>, dest: seq<Slot>)
    requires HoldsMessage(fields, m) && ShapedMessage(fields, dest)
    requires forall k :: 0 <= k < |fields| ==> !fields[k].ltype.Submessage?
    ensures |fields| == |m| == |dest|
    ensures SameMessage(fields, m, DecodedMessage(fields, m, SetDefaults(fields, dest, |dest|), |m|))
  {
    hide FitsMessage, SameMessage, DecodedMessage, SetDefaults, IsDefault, TypedMessage, ShapedMessage;
    ComesBack(fields, m, dest);
    forall k | 0 <= k < |m|
      ensures SurvivesSlot(fields[k], m[k], dest[k])
    {
    }
  }

  // ---------------------------------------------------------------- into every destination

  /** The entries of an array of `n` are determined by the bytes that setting a default
      overwrites. */
  predicate AllCleared(l: LType, n: nat) {
    if l.ByteArray? || l.Text? then n <= 1 || (n - 1) * SizeOf(l) < SIZE_WIDTH
    else !l.Submessage? && n * SizeOf(l) <= SIZE_WIDTH
  }

  /** So are all arrays without a count that a singular value of this type drops. */
  predicate AlwaysRestored(l: LType)
    decreases l
  {
    l.Submessage? ==> forall k :: 0 <= k < |l.fields| ==>
      && (l.fields[k].htype.FixedCount? ==> AllCleared(l.fields[k].ltype, l.fields[k].htype.arraySize))
      && (l.fields[k].htype.Singular? ==> AlwaysRestored(l.fields[k].ltype))
  }

  predicate AlwaysSurvives(l: LType, v: Value)
    decreases v, 0
  {
    l.Submessage? && v.Message? ==> AlwaysSurvivesMessage(l.fields, v.slots)
  }

  predicate AlwaysSurvivesMessage(fields: seq<Field>, m: seq<Slot>)
    decreases m, 0
  {
    |fields| == |m| ==> forall k :: 0 <= k < |m| ==> AlwaysSurvivesSlot(fields[k], m[k])
  }

  predicate AlwaysSurvivesSlot(f: Field, s: Slot)
    decreases s, 0
  {
    if !Present(f, s) then f.htype.Singular? ==> AlwaysRestored(f.ltype)
    else if f.htype.Oneof? then forall k :: 0 <= k < |s.items| ==> Survives(f.ltype, s.items[k], Zero(f.ltype))
    else forall k :: 0 <= k < |s.items| ==> AlwaysSurvives(f.ltype, s.items[k])
  }

  /** No array without a count has submessages for entries. */
  predicate PlainArrays(l: LType)
    decreases l
  {
    l.Submessage? ==> forall k :: 0 <= k < |l.fields| ==>
      PlainArrays(l.fields[k].ltype) && (l.fields[k].htype.FixedCount? ==> !l.fields[k].ltype.Submessage?)
  }

  lemma {:induction false} FrontAt(l: LType, items: seq<Value>, n: nat, i: nat)
    requires !l.Submessage? && i < |items|
    ensures ZeroFront(l, items, n)[i] == if n > i * SizeOf(l) then ZeroBytes(l, items[i], n - i * SizeOf(l)) else items[i]
  {
    hide ZeroBytes;
    if n > 0 {
      var z, k := SizeOf(l), if n > SizeOf(l) then n - SizeOf(l) else 0;
      if i > 0 {
        assert i * z == (i - 1) * z + z;
        FrontAt(l, items[1..], k, i - 1);
      }
    } else {
      assert i * SizeOf(l) >= 0;
    }
  }

  /** Overwritten arrays no longer depend on what they held. */
  lemma ClearedAgree(l: LType, items: seq<Value>, others: seq<Value>)
    requires |items| == |others| && AllCleared(l, |items|)
    ensures ZeroFront(l, items, SIZE_WIDTH) == ZeroFront(l, others, SIZE_WIDTH)
  {
    hide ZeroBytes, SizeOf, ZeroFront;
    forall i | 0 <= i < |items|
      ensures ZeroFront(l, items, SIZE_WIDTH)[i] == ZeroFront(l, others, SIZE_WIDTH)[i]
    {
      FrontAt(l, items, SIZE_WIDTH, i);
      FrontAt(l, others, SIZE_WIDTH, i);
      EntryCleared(l, items[i], others[i], |items|, i);
    }
  }

  lemma EntryCleared(l: LType, v: Value, w: Value, n: nat, i: nat)
    requires AllCleared(l, n) && i < n
    ensures SIZE_WIDTH > i * SizeOf(l) ==> ZeroBytes(l, v, SIZE_WIDTH - i * SizeOf(l)) == ZeroBytes(l, w, SIZE_WIDTH - i * SizeOf(l))
    ensures SIZE_WIDTH <= i * SizeOf(l) ==> v == w
  {
    var z := SizeOf(l);
    Products(i, n, z);
  }

  lemma Products(i: nat, n: nat, z: nat)
    requires i < n
    ensures i * z <= (n - 1) * z && i * z + z <= n * z
  {
    assert n * z == i * z + (n - i) * z && (n - 1) * z == i * z + (n - 1 - i) * z;
    assert (n - i) * z >= z;
  }

  lemma {:induction false} AlwaysIsRestored(l: LType, v: Value, dest: Value)
    requires Holds(l, v) && IsDefault(l, v) && Shaped(l, dest) && AlwaysRestored(l)
    ensures Restored(l, v, dest)
    decreases v, 0
  {
    hide SlotDefault, FitsSlot, TypedSlot, ShapedSlot, RestoredSlot, FieldsOk, OneOfEach, AllCleared;
    if l.Submessage? {
      var fields, m, d := l.fields, v.slots, dest.slots;
      assert TypedMessage(fields, m) && FitsMessage(fields, m) && ShapedMessage(fields, d);
      forall k | 0 <= k < |m|
        ensures RestoredSlot(fields[k], m[k], d[k])
      {
        LooksDefault(fields, m, |m|, k);
        AlwaysSlotRestored(fields[k], m[k], d[k]);
      }
    }
  }

  lemma {:induction false} AlwaysSlotRestored(f: Field, s: Slot, dest: Slot)
    requires HoldsSlot(f, s) && SlotDefault(f, s) && ShapedSlot(f, dest)
    requires f.htype.FixedCount? ==> AllCleared(f.ltype, f.htype.arraySize)
    requires f.htype.Singular? ==> AlwaysRestored(f.ltype)
    ensures RestoredSlot(f, s, dest)
    decreases s, 0
  {
    hide Fits, Typed, IsDefault, Restored, Shaped, ZeroFront, CountSeen, AlwaysRestored;
    if f.htype.FixedCount? {
      ClearedAgree(f.ltype, s.items, Contents(dest));
      SameAsItself(f.ltype, ZeroFront(f.ltype, s.items, SIZE_WIDTH));
    } else if f.htype.Singular? {
      assert s.items[0] in s.items && dest.items[0] in dest.items;
      AlwaysIsRestored(f.ltype, s.items[0], dest.items[0]);
    }
  }

  lemma SameAsItself(l: LType, items: seq<Value>)
    ensures !l.Submessage? ==> SameItems(l, items, items)
  {
  }

  lemma {:induction false} AlwaysDoes(fields: seq<Field>, m: seq<Slot>, dest: seq<Slot>)
    requires HoldsMessage(fields, m) && ShapedMessage(fields, dest) && AlwaysSurvivesMessage(fields, m)
    ensures SurvivesMessage(fields, m, dest)
    decreases m, 0
  {
    hide FitsSlot, TypedSlot, ShapedSlot, SurvivesSlot, AlwaysSurvivesSlot, FieldsOk, OneOfEach;
    forall k | 0 <= k < |m|
      ensures |fields| == |m| == |dest| ==> SurvivesSlot(fields[k], m[k], dest[k])
    {
      AlwaysDoesSlot(fields[k], m[k], dest[k]);
    }
  }

  lemma {:induction false} AlwaysDoesSlot(f: Field, s: Slot, dest: Slot)
    requires HoldsSlot(f, s) && ShapedSlot(f, dest) && AlwaysSurvivesSlot(f, s)
    ensures SurvivesSlot(f, s, dest)
    decreases s, 0
  {
    hide Fits, Typed, Survives, AlwaysSurvives, IsDefault, Restored, AlwaysRestored, Shaped, Zero, FitsMessage, TypedMessage;
    if !Present(f, s) {
      if f.htype.Singular? {
        assert s.items[0] in s.items && dest.items[0] in dest.items;
        AlwaysIsRestored(f.ltype, s.items[0], dest.items[0]);
      }
    } else if !f.htype.Oneof? {
      forall k | 0 <= k < |s.items|
        ensures Survives(f.ltype, s.items[k], Place(f, dest, k))
      {
        assert s.items[k] in s.items;
        PlaceShaped(f, dest, k);
        AlwaysDoesValue(f.ltype, s.items[k], Place(f, dest, k));
      }
    }
  }

  lemma PlaceShaped(f: Field, dest: Slot, k: nat)
    requires ShapedSlot(f, dest)
    ensures Shaped(f.ltype, Place(f, dest, k))
  {
    hide Shaped, Zero;
    M.ZeroShaped(f.ltype);
    if k < |dest.items| {
      assert dest.items[k] in dest.items;
    } else if k < |Contents(dest)| {
      assert dest.held[k - |dest.items|] in dest.held;
    }
  }

  lemma {:induction false} AlwaysDoesValue(l: LType, v: Value, dest: Value)
    requires Holds(l, v) && Shaped(l, dest) && AlwaysSurvives(l, v)
    ensures Survives(l, v, dest)
    decreases v, 0
  {
    hide FitsMessage, TypedMessage, ShapedMessage, SurvivesMessage, AlwaysSurvivesMessage;
    if l.Submessage? {
      AlwaysDoes(l.fields, v.slots, dest.slots);
    }
  }

  /** Otherwise there is a destination that shows through. */
  lemma SpoilArray(l: LType, items: seq<Value>) returns (held: seq<Value>)
    requires !l.Submessage? && !AllCleared(l, |items|)
    ensures |held| == |items| && ZeroFront(l, items, SIZE_WIDTH) != ZeroFront(l, held, SIZE_WIDTH)
  {
    hide ZeroFront;
    assert items != [] by {
      assert 0 * SizeOf(l) == 0;
    }
    var last := |items| - 1;
    var z := last * SizeOf(l);
    var r := if SIZE_WIDTH > z then SIZE_WIDTH - z else 0;
    assert |items| * SizeOf(l) == z + SizeOf(l);
    var a, b := TwoValues(l, r);
    var shown := if r > 0 then ZeroBytes(l, items[last], r) else items[last];
    var other := if (if r > 0 then ZeroBytes(l, a, r) else a) != shown then a else b;
    held := items[last := other];
    FrontAt(l, items, SIZE_WIDTH, last);
    FrontAt(l, held, SIZE_WIDTH, last);
  }

  /** Two values that differ behind their first bytes. */
  lemma TwoValues(l: LType, r: nat) returns (a: Value, b: Value)
    requires !l.Submessage? && if l.ByteArray? || l.Text? then r == 0 else r < SizeOf(l)
    ensures (if r > 0 then ZeroBytes(l, a, r) else a) != (if r > 0 then ZeroBytes(l, b, r) else b)
  {
    hide Power256;
    if l.ByteArray? || l.Text? {
      a, b := Blob([]), Blob([1]);
    } else if l.FixedLengthBytes? {
      a, b := Blob(seq(l.size, _ => 0)), Blob(seq(l.size - 1, _ => 0 as byte) + [1]);
      if r > 0 {
        assert ZeroBytes(l, a, r).b[l.size - 1] == 0 && ZeroBytes(l, b, r).b[l.size - 1] == 1;
      } else {
        assert a.b[l.size - 1] == 0 && b.b[l.size - 1] == 1;
      }
    } else {
      a, b := Number(0), Number(Power256(r));
      assert Power256(r) % Power256(r) == 0 && 0 % Power256(r) == 0;
    }
  }

  lemma {:induction false} SpoilRestored(l: LType, v: Value) returns (dest: Value)
    requires Holds(l, v) && IsDefault(l, v) && PlainArrays(l) && !AlwaysRestored(l)
    ensures Shaped(l, dest) && !Restored(l, v, dest)
    decreases v, 0
  {
    hide SlotDefault, FitsSlot, TypedSlot, ShapedSlot, RestoredSlot, FieldsOk, OneOfEach, AllCleared, ZeroSlot;
    var fields, m := l.fields, v.slots;
    assert TypedMessage(fields, m) && FitsMessage(fields, m);
    var k :| 0 <= k < |fields| &&
      !((fields[k].htype.FixedCount? ==> AllCleared(fields[k].ltype, fields[k].htype.arraySize))
        && (fields[k].htype.Singular? ==> AlwaysRestored(fields[k].ltype)));
    LooksDefault(fields, m, |m|, k);
    var slot := SpoilRestoredSlot(fields[k], m[k]);
    M.ZeroSlotsShaped(fields, |fields|);
    var d := ZeroSlots(fields, |fields|)[k := slot];
    assert ShapedMessage(fields, d);
    dest := Message(d);
  }

  lemma {:induction false} SpoilRestoredSlot(f: Field, s: Slot) returns (dest: Slot)
    requires HoldsSlot(f, s) && SlotDefault(f, s) && PlainArrays(f.ltype) && (f.htype.FixedCount? ==> !f.ltype.Submessage?)
    requires !((f.htype.FixedCount? ==> AllCleared(f.ltype, f.htype.arraySize)) && (f.htype.Singular? ==> AlwaysRestored(f.ltype)))
    ensures ShapedSlot(f, dest) && !RestoredSlot(f, s, dest)
    decreases s, 0
  {
    hide Fits, Typed, IsDefault, Restored, ZeroFront, CountSeen, AllCleared, AlwaysRestored, PlainArrays;
    if f.htype.FixedCount? {
      var held := SpoilArray(f.ltype, s.items);
      dest := Slot(false, [], held);
      assert [] + held == held;
      DifferentItems(f.ltype, ZeroFront(f.ltype, s.items, SIZE_WIDTH), ZeroFront(f.ltype, held, SIZE_WIDTH));
    } else {
      assert s.items[0] in s.items;
      var v := SpoilRestored(f.ltype, s.items[0]);
      dest := Slot(false, [v], []);
    }
  }

  lemma {:induction false} DifferentItems(l: LType, items: seq<Value>, others: seq<Value>)
    ensures !l.Submessage? && SameItems(l, items, others) ==> items == others
  {
    if !l.Submessage? && SameItems(l, items, others) {
      forall k | 0 <= k < |items|
        ensures items[k] == others[k]
      {
        assert Same(l, items[k], others[k]);
      }
    }
  }

  lemma {:induction false} Spoil(fields: seq<Field>, m: seq<Slot>) returns (dest: seq<Slot>)
    requires HoldsMessage(fields, m) && PlainArrays(Submessage(fields)) && !AlwaysSurvivesMessage(fields, m)
    ensures ShapedMessage(fields, dest) && !SurvivesMessage(fields, m, dest)
    decreases m, 0
  {
    hide FitsSlot, TypedSlot, ShapedSlot, SurvivesSlot, AlwaysSurvivesSlot, FieldsOk, OneOfEach, ZeroSlot;
    var k :| 0 <= k < |m| && !AlwaysSurvivesSlot(fields[k], m[k]);
    var slot := SpoilSlot(fields[k], m[k]);
    M.ZeroSlotsShaped(fields, |fields|);
    dest := ZeroSlots(fields, |fields|)[k := slot];
  }

  lemma {:induction false} SpoilSlot(f: Field, s: Slot) returns (dest: Slot)
    requires HoldsSlot(f, s) && PlainArrays(f.ltype) && !AlwaysSurvivesSlot(f, s)
    ensures ShapedSlot(f, dest) && !SurvivesSlot(f, s, dest)
    decreases s, 0
  {
    hide Fits, Typed, Survives, AlwaysSurvives, IsDefault, Restored, AlwaysRestored, PlainArrays, Shaped, Zero;
    M.ZeroSlotShaped(f);
    dest := ZeroSlot(f);
    if !Present(f, s) {
      assert s.items[0] in s.items;
      var v := SpoilRestored(f.ltype, s.items[0]);
      dest := Slot(false, [v], []);
    } else if !f.htype.Oneof? {
      var k :| 0 <= k < |s.items| && !AlwaysSurvives(f.ltype, s.items[k]);
      assert s.items[k] in s.items;
      var v := SpoilValue(f.ltype, s.items[k]);
      dest := if IsArray(f) then Slot(false, [], dest.held[k := v]) else Slot(false, [v], []);
      assert Place(f, dest, k) == v;
    }
  }

  lemma {:induction false} SpoilValue(l: LType, v: Value) returns (dest: Value)
    requires Holds(l, v) && PlainArrays(l) && !AlwaysSurvives(l, v)
    ensures Shaped(l, dest) && !Survives(l, v, dest)
    decreases v, 0
  {
    hide FitsMessage, TypedMessage, ShapedMessage, SurvivesMessage, AlwaysSurvivesMessage;
    var d := Spoil(l.fields, v.slots);
    dest := Message(d);
  }

  ghost predicate ComesBackAnywhere(fields: seq<Field>, m: seq<Slot>)
    requires |fields| == |m|
  {
    forall dest: seq<Slot> :: ShapedMessage(fields, dest) && |dest| == |fields| ==>
      SameMessage(fields, m, DecodedMessage(fields, m, SetDefaults(fields, dest, |dest|), |m|))
  }

  /** A message comes back the same in whatever struct it is decoded into exactly when all
      arrays without a count that it drops are overwritten as a whole. */
  lemma ComesBackAnywhereExact(fields: seq<Field>, m: seq<Slot>)
    requires HoldsMessage(fields, m) && PlainArrays(Submessage(fields))
    ensures |fields| == |m| && (ComesBackAnywhere(fields, m) <==> AlwaysSurvivesMessage(fields, m))
  {
    hide SameMessage, DecodedMessage, SetDefaults, ShapedMessage, SurvivesMessage, AlwaysSurvivesMessage, PlainArrays, TypedMessage;
    MessageAccepted(fields, m);
    if AlwaysSurvivesMessage(fields, m) {
      forall dest: seq<Slot> | ShapedMessage(fields, dest) && |dest| == |fields|
        ensures SameMessage(fields, m, DecodedMessage(fields, m, SetDefaults(fields, dest, |dest|), |m|))
      {
        AlwaysDoes(fields, m, dest);
        ComesBack(fields, m, dest);
      }
    } else {
      var dest := Spoil(fields, m);
      ComesBack(fields, m, dest);
      assert ShapedMessage(fields, dest) && |dest| == |fields|;
    }
  }

  // ---------------------------------------------------------------- messages that do not come back

  const LOSSY_COUNT := 8

  /** A singular submessage whose one field is an array of bytes without a count. */
  const ByteArrayFields: seq<Field> := [Field(1, FixedCount(LOSSY_COUNT), UIntVarint(1))]
  const LossyFields: seq<Field> := [Field(1, Singular, Submessage(ByteArrayFields))]

  function LossyMessage(bytes: seq<Value>): seq<Slot> {
    [Slot(false, [Message([Slot(false, bytes, [])])], [])]
  }

  /** A struct for it that holds some bytes. */
  function LossyStruct(held: seq<Value>): seq<Slot> {
    [Slot(false, [Message([Slot(false, [], held)])], [])]
  }

  ghost predicate EightBytes(bytes: seq<Value>) {
    |bytes| == LOSSY_COUNT && forall v :: v in bytes ==> Holds(UIntVarint(1), v)
  }

  /** It comes back exactly when one of the four bytes that are taken for a count is not
      zero, or the destination held the other four before. Otherwise nothing of it is
      written. */
  lemma ByteArrayComesBack(bytes: seq<Value>, held: seq<Value>)
    requires EightBytes(bytes) && EightBytes(held)
    ensures HoldsMessage(LossyFields, LossyMessage(bytes)) && ShapedMessage(LossyFields, LossyStruct(held))
    ensures
      var m, dest := LossyMessage(bytes), LossyStruct(held);
      var counted := exists i :: 0 <= i < SIZE_WIDTH && bytes[i] != Number(0);
      && (SameMessage(LossyFields, m, DecodedMessage(LossyFields, m, SetDefaults(LossyFields, dest, 1), 1))
          <==> counted || bytes[SIZE_WIDTH..] == held[SIZE_WIDTH..])
      && (!counted ==> WireMessage(LossyFields, m, 1) == [])
  {
    hide DecodedMessage, SetDefaults, SameMessage, FieldTag, Delimited, WireItems, CountSeen, ByteOf, Typed, Fits, ZeroFront;
    var m, dest, slot := LossyMessage(bytes), LossyStruct(held), Slot(false, bytes, []);
    LossyHolds(bytes, held);
    ByteArrayCount(bytes);
    assert AllDefault(ByteArrayFields, [slot], 0);
    assert AllDefault(ByteArrayFields, [slot], 1) <==> SlotDefault(ByteArrayFields[0], slot);
    assert Present(LossyFields[0], m[0]) <==> CountSeen(UIntVarint(1), slot);
    ComesBack(LossyFields, m, dest);
    LossySurvives(bytes, held);
    assert WireMessage(LossyFields, m, 0) == [];
  }

  lemma LossyHolds(bytes: seq<Value>, held: seq<Value>)
    requires EightBytes(bytes) && EightBytes(held)
    ensures HoldsMessage(LossyFields, LossyMessage(bytes)) && ShapedMessage(LossyFields, LossyStruct(held))
  {
    var slot, into := Slot(false, bytes, []), Slot(false, [], held);
    assert IsArray(ByteArrayFields[0]) && ByteArrayFields[0].htype.arraySize == LOSSY_COUNT && !IsArray(LossyFields[0]);
    assert HoldsSlot(ByteArrayFields[0], slot) && ShapedSlot(ByteArrayFields[0], into);
    assert HoldsMessage(ByteArrayFields, [slot]) && ShapedMessage(ByteArrayFields, [into]);
    assert Holds(LossyFields[0].ltype, LossyMessage(bytes)[0].items[0]);
    assert HoldsSlot(LossyFields[0], LossyMessage(bytes)[0]) && ShapedSlot(LossyFields[0], LossyStruct(held)[0]);
  }

  lemma LossySurvives(bytes: seq<Value>, held: seq<Value>)
    requires EightBytes(bytes) && EightBytes(held)
    ensures
      var m, dest := LossyMessage(bytes), LossyStruct(held);
      SurvivesMessage(LossyFields, m, dest)
      <==> Present(LossyFields[0], m[0]) || bytes[SIZE_WIDTH..] == held[SIZE_WIDTH..]
  {
    hide Typed, Fits, ZeroFront, Present;
    var m, dest := LossyMessage(bytes), LossyStruct(held);
    var slot, into := m[0].items[0].slots[0], dest[0].items[0].slots[0];
    assert Contents(into) == held && ByteArrayFields[0].htype.FixedCount?;
    BehindTheCount(bytes, held);
    DifferentItems(UIntVarint(1), ZeroFront(UIntVarint(1), bytes, SIZE_WIDTH), ZeroFront(UIntVarint(1), held, SIZE_WIDTH));
    SameAsItself(UIntVarint(1), ZeroFront(UIntVarint(1), bytes, SIZE_WIDTH));
    assert RestoredSlot(ByteArrayFields[0], slot, into) <==> bytes[SIZE_WIDTH..] == held[SIZE_WIDTH..];
    assert RestoredMessage(ByteArrayFields, [slot], [into]) <==> RestoredSlot(ByteArrayFields[0], slot, into);
    assert Restored(LossyFields[0].ltype, m[0].items[0], dest[0].items[0]) <==> RestoredSlot(ByteArrayFields[0], slot, into);
    assert Survives(UIntVarint(1), Number(0), Number(0));
    InnerSurvives(bytes, held);
    assert SurvivesMessage(LossyFields, m, dest) <==> SurvivesSlot(LossyFields[0], m[0], dest[0]);
  }

  lemma InnerSurvives(bytes: seq<Value>, held: seq<Value>)
    requires EightBytes(bytes) && EightBytes(held)
    ensures Survives(LossyFields[0].ltype, LossyMessage(bytes)[0].items[0], Place(LossyFields[0], LossyStruct(held)[0], 0))
  {
    hide Typed, Fits, Present;
    assert SurvivesSlot(ByteArrayFields[0], Slot(false, bytes, []), Slot(false, [], held));
  }

  /** One byte an item: the first four are overwritten. */
  lemma BehindTheCount(bytes: seq<Value>, held: seq<Value>)
    requires EightBytes(bytes) && EightBytes(held)
    ensures ZeroFront(UIntVarint(1), bytes, SIZE_WIDTH) == ZeroFront(UIntVarint(1), held, SIZE_WIDTH)
       <==> bytes[SIZE_WIDTH..] == held[SIZE_WIDTH..]
  {
    hide ZeroFront, Typed, Fits;
    var a, b := ZeroFront(UIntVarint(1), bytes, SIZE_WIDTH), ZeroFront(UIntVarint(1), held, SIZE_WIDTH);
    forall i | 0 <= i < LOSSY_COUNT
      ensures a[i] == if i < SIZE_WIDTH then Number(0) else bytes[i]
      ensures b[i] == if i < SIZE_WIDTH then Number(0) else held[i]
    {
      FrontAt(UIntVarint(1), bytes, SIZE_WIDTH, i);
      FrontAt(UIntVarint(1), held, SIZE_WIDTH, i);
    }
    if a == b {
      forall i | 0 <= i < LOSSY_COUNT - SIZE_WIDTH
        ensures bytes[SIZE_WIDTH..][i] == held[SIZE_WIDTH..][i]
      {
        assert a[SIZE_WIDTH + i] == b[SIZE_WIDTH + i];
      }
    }
    if bytes[SIZE_WIDTH..] == held[SIZE_WIDTH..] {
      forall i | 0 <= i < LOSSY_COUNT
        ensures a[i] == b[i]
      {
        assert i >= SIZE_WIDTH ==> bytes[i] == bytes[SIZE_WIDTH..][i - SIZE_WIDTH] && held[i] == held[SIZE_WIDTH..][i - SIZE_WIDTH];
      }
    }
  }

  /** One byte an item, so the count is made of the first four items. */
  lemma ByteArrayCount(bytes: seq<Value>)
    requires EightBytes(bytes)
    ensures CountSeen(UIntVarint(1), Slot(false, bytes, [])) <==> exists i :: 0 <= i < SIZE_WIDTH && bytes[i] != Number(0)
  {
    forall i | 0 <= i < SIZE_WIDTH
      ensures ByteOf(UIntVarint(1), bytes, i).Some? && (ByteOf(UIntVarint(1), bytes, i) == Some(0) <==> bytes[i] == Number(0))
    {
      ByteArrayMemory(bytes, i);
    }
  }

  lemma {:induction false} ByteArrayMemory(bytes: seq<Value>, i: nat)
    requires i < |bytes| && forall v :: v in bytes ==> Holds(UIntVarint(1), v)
    ensures i < |ArrayMemory(UIntVarint(1), bytes)|
    ensures ArrayMemory(UIntVarint(1), bytes)[i].Some?
    ensures ArrayMemory(UIntVarint(1), bytes)[i] == Some(0) <==> bytes[i] == Number(0)
  {
    var v := bytes[0];
    assert Holds(UIntVarint(1), v);
    OneByte(v.n);
    if i > 0 {
      ByteArrayMemory(bytes[1..], i - 1);
    }
  }

  lemma OneByte(n: int)
    requires FitsNumber(UIntVarint(1), n)
    ensures 0 <= n < 256 && Memory(UIntVarint(1), Number(n)) == [Some(n as byte)]
  {
    assert Power256(1) == 256;
    assert Fixed(n, 1) == [n as byte];
  }

  /** Zeros in front lose what follows, in a struct of zeros. */
  lemma LossyIsLost()
    ensures
      var bytes := [Number(0), Number(0), Number(0), Number(0), Number(5), Number(6), Number(7), Number(8)];
      var m, dest := LossyMessage(bytes), LossyStruct(seq(LOSSY_COUNT, _ => Number(0)));
      && HoldsMessage(LossyFields, m) && ShapedMessage(LossyFields, dest) && WireMessage(LossyFields, m, 1) == []
      && !SameMessage(LossyFields, m, DecodedMessage(LossyFields, m, SetDefaults(LossyFields, dest, 1), 1))
  {
    hide HoldsMessage, WireMessage, SameMessage, DecodedMessage, SetDefaults, ShapedMessage;
    var bytes := [Number(0), Number(0), Number(0), Number(0), Number(5), Number(6), Number(7), Number(8)];
    var held := seq(LOSSY_COUNT, _ => Number(0));
    forall v | v in bytes || v in held
      ensures Holds(UIntVarint(1), v)
    {
      assert Power256(1) == 256;
    }
    assert bytes[SIZE_WIDTH..][0] == Number(5) && held[SIZE_WIDTH..][0] == Number(0);
    ByteArrayComesBack(bytes, held);
  }

  /** A text that fills its array is written, but then refused. */
  lemma FullTextIsRefused(b: Data)
    requires b != [] && |b| <= SIZE_MAX && 0 !in b
    ensures
      var fields, m := [Field(1, Required, Text(|b|))], [Slot(false, [Blob(b)], [])];
      HoldsMessage(fields, m) && !CompleteMessage(fields, m) && EncodableMessage(fields, m, 1)
  {
    var fields, m := [Field(1, Required, Text(|b|))], [Slot(false, [Blob(b)], [])];
    assert Holds(fields[0].ltype, Blob(b));
    assert HoldsSlot(fields[0], m[0]);
    assert HoldsMessage(fields, m);
    assert !Terminated(fields[0].ltype, m[0].items[0]);
    assert !TerminatedSlot(fields[0], m[0]);
    MessageAccepted(fields, m);
  }
}
