/** Encoding: the stream, which may only count, and a message written field by field;
    the length of a submessage is found by a first pass that writes nothing. */
module ProtobufEncoder {
  import opened Bytes
  import opened Coding
  import opened Protobuf

  class OStream {
    const writing: bool           // or only counting
    const maxSize: nat
    var bytesWritten: nat
    var out: Data

    constructor (writing: bool, maxSize: nat, out: Data)
      ensures Valid() && this.writing == writing && this.maxSize == maxSize && bytesWritten == 0 && this.out == out
    {
      this.writing, this.maxSize, this.bytesWritten, this.out := writing, maxSize, 0, out;
    }

    ghost predicate Valid()
      reads this
    {
      writing ==> bytesWritten <= maxSize
    }

    /** There is room for `n` more bytes. */
    predicate Room(n: nat)
      reads this`bytesWritten
    {
      !writing || bytesWritten + n <= maxSize
    }

    /** What arrives of some bytes. */
    function Shown(w: Data): Data {
      if writing then w else []
    }

    method Write(buf: Data) returns (ok: bool)
      requires Valid()
      modifies this
      ensures Valid()
      ensures ok <==> old(Room(|buf|))
      ensures ok ==> bytesWritten == old(bytesWritten) + |buf| && out == old(out) + Shown(buf)
    {
      if writing {
        if bytesWritten + |buf| > maxSize {
          return false;
        }
        out := out + buf;
      }
      bytesWritten := bytesWritten + |buf|;
      ok := true;
    }

    /** Counts bytes that nobody looks at. */
    method Count(n: nat) returns (ok: bool)
      requires !writing
      modifies this`bytesWritten
      ensures Valid() && ok && bytesWritten == old(bytesWritten) + n
    {
      bytesWritten := bytesWritten + n;
      ok := true;
    }
  }

  /** Groups of seven bits, lowest first; the top bit of the last one is cleared. */
  method EncodeVarint(s: OStream, v: nat) returns (ok: bool)
    requires s.Valid()
    modifies s
    ensures s.Valid()
    ensures ok <==> old(s.Room(|Varint(v)|))
    ensures ok ==> s.bytesWritten == old(s.bytesWritten) + |Varint(v)| && s.out == old(s.out) + s.Shown(Varint(v))
  {
    hide Varint;
    VarintDigit(v);
    if v <= 0x7F {
      ok := s.Write([v as byte]);
      return;
    }
    var buffer := VarintBuffer(v);
    ok := s.Write(buffer);
  }

  lemma VarintDigit(v: nat)
    ensures v < 128 ==> Varint(v) == [v as byte]
    ensures v >= 128 ==> Varint(v) == [(v % 128 + 128) as byte] + Varint(v / 128)
  {
  }

  method VarintBuffer(v: nat) returns (buffer: Data)
    requires v > 0
    ensures buffer == Varint(v)
  {
    hide Varint;
    buffer := [];
    var value: nat := v;
    while value != 0
      invariant value > 0 ==> Varint(v) == buffer + Varint(value)
      invariant value == 0 ==> buffer != [] && buffer[|buffer| - 1] as nat >= 128
      invariant value == 0 ==> Varint(v) == buffer[..|buffer| - 1] + [(buffer[|buffer| - 1] as nat - 128) as byte]
    {
      VarintDigit(value);
      buffer := buffer + [(value % 128 + 128) as byte];
      value := value / 128;
    }
    buffer := buffer[|buffer| - 1 := (buffer[|buffer| - 1] as nat - 128) as byte];
  }

  method EncodeTag(s: OStream, wireType: nat, tag: nat) returns (ok: bool)
    requires s.Valid()
    modifies s
    ensures s.Valid()
    ensures ok <==> old(s.Room(|FieldTag(wireType, tag)|))
    ensures ok ==> s.bytesWritten == old(s.bytesWritten) + |FieldTag(wireType, tag)|
                   && s.out == old(s.out) + s.Shown(FieldTag(wireType, tag))
  {
    ok := EncodeVarint(s, tag * 8 + wireType);
  }

  method EncodeString(s: OStream, b: Data) returns (ok: bool)
    requires s.Valid()
    modifies s
    ensures s.Valid()
    ensures ok <==> old(s.Room(|Delimited(b)|))
    ensures ok ==> s.bytesWritten == old(s.bytesWritten) + |Delimited(b)| && s.out == old(s.out) + s.Shown(Delimited(b))
  {
    hide Varint;
    ok := EncodeVarint(s, |b|);
    if ok {
      ok := s.Write(b);
    }
  }

  method EncodeNumber(s: OStream, l: LType, n: int) returns (ok: bool)
    requires Packable(l)
    requires s.Valid()
    modifies s
    ensures s.Valid()
    ensures ok <==> old(s.Room(|WireNumber(l, n)|))
    ensures ok ==> s.bytesWritten == old(s.bytesWritten) + |WireNumber(l, n)| && s.out == old(s.out) + s.Shown(WireNumber(l, n))
  {
    hide Varint, Fixed;
    match l
    case IntVarint(_) => ok := EncodeVarint(s, n % TWO_64);
    case UIntVarint(_) => ok := EncodeVarint(s, n % TWO_64);
    case ZigZagVarint(_) => ok := EncodeVarint(s, ZigZag(n) % TWO_64);
    case Fixed32 => ok := s.Write(Fixed(n % TWO_32, 4));
    case Fixed64 => ok := s.Write(Fixed(n % TWO_64, 8));
  }

  /** Field encoders by type. */
  method EncodeValue(s: OStream, l: LType, v: Value) returns (ok: bool)
    requires Typed(l, v)
    requires s.Valid()
    modifies s
    ensures s.Valid()
    ensures ok <==> Encodable(l, v) && old(s.Room(|WireValue(l, v)|))
    ensures ok ==> s.bytesWritten == old(s.bytesWritten) + |WireValue(l, v)| && s.out == old(s.out) + s.Shown(WireValue(l, v))
    decreases v, 0
  {
    hide Varint, WireNumber, Delimited, WireMessage, EncodableMessage;
    match l
    case ByteArray(max) =>
      if |v.b| > max {
        return false;
      }
      ok := EncodeString(s, v.b);
    case Text(_) => ok := EncodeString(s, v.b);
    case FixedLengthBytes(_) => ok := EncodeString(s, v.b);
    case Submessage(fields) => ok := EncodeSubmessage(s, fields, v.slots);
    case _ => ok := EncodeNumber(s, l, v.n);
  }

  /** A first pass finds the size; the second one must write just as much. */
  method EncodeSubmessage(s: OStream, fields: seq<Field>, m: seq<Slot>) returns (ok: bool)
    requires TypedMessage(fields, m)
    requires s.Valid()
    modifies s
    ensures s.Valid()
    ensures
      var w := Delimited(WireMessage(fields, m, |m|));
      && (ok <==> EncodableMessage(fields, m, |m|) && old(s.Room(|w|)))
      && (ok ==> s.bytesWritten == old(s.bytesWritten) + |w| && s.out == old(s.out) + s.Shown(w))
    decreases m, 1
  {
    hide Varint, WireMessage, EncodableMessage, TypedMessage;
    var sizing := new OStream(false, 0, []);
    var counted := Encode(sizing, fields, m);
    if !counted {
      return false;
    }
    var size := sizing.bytesWritten;
    ok := EncodeVarint(s, size);
    if !ok {
      return;
    }
    if !s.writing {
      ok := s.Count(size);
      return;
    }
    if s.bytesWritten + size > s.maxSize {
      return false;
    }
    var substream := new OStream(true, size, s.out);
    var status := Encode(substream, fields, m);
    s.bytesWritten := s.bytesWritten + substream.bytesWritten;
    s.out := substream.out;
    if substream.bytesWritten != size {
      assert false;      // the size never changes between the passes
    }
    ok := status;
  }

  /** Encodes every field in the order of the descriptor. */
  method Encode(s: OStream, fields: seq<Field>, m: seq<Slot>) returns (ok: bool)
    requires TypedMessage(fields, m)
    requires s.Valid()
    modifies s
    ensures s.Valid()
    ensures
      var w := WireMessage(fields, m, |m|);
      && (ok <==> EncodableMessage(fields, m, |m|) && old(s.Room(|w|)))
      && (ok ==> s.bytesWritten == old(s.bytesWritten) + |w| && s.out == old(s.out) + s.Shown(w))
    decreases m, 0
  {
    hide Varint, WireSlot, EncodableSlot, TypedSlot;
    ghost var before := s.bytesWritten;
    for k := 0 to |fields|
      invariant EncodableMessage(fields, m, k)
      invariant s.Valid() && s.bytesWritten == before + |WireMessage(fields, m, k)| && old(s.Room(|WireMessage(fields, m, k)|))
      invariant s.out == old(s.out) + s.Shown(WireMessage(fields, m, k))
    {
      MorePrefix(fields, m, k + 1);
      ok := EncodeField(s, fields[k], m[k]);
      if !ok {
        return;
      }
    }
    ok := true;
  }

  /** A prefix that does not fit means that the whole does not. */
  lemma {:induction false} MorePrefix(fields: seq<Field>, m: seq<Slot>, n: nat)
    requires n <= |fields| == |m|
    ensures |WireMessage(fields, m, n)| <= |WireMessage(fields, m, |m|)|
    ensures EncodableMessage(fields, m, |m|) ==> EncodableMessage(fields, m, n)
    decreases |m| - n
  {
    hide WireSlot, EncodableSlot;
    if n < |m| {
      MorePrefix(fields, m, n + 1);
    }
  }

  method EncodeField(s: OStream, f: Field, slot: Slot) returns (ok: bool)
    requires TypedSlot(f, slot)
    requires s.Valid()
    modifies s
    ensures s.Valid()
    ensures ok <==> EncodableSlot(f, slot) && old(s.Room(|WireSlot(f, slot)|))
    ensures ok ==> s.bytesWritten == old(s.bytesWritten) + |WireSlot(f, slot)| && s.out == old(s.out) + s.Shown(WireSlot(f, slot))
    decreases slot, 0
  {
    hide Varint, FieldTag, IsDefault, WireItems, EncodableItems, WireValue, Typed, Encodable, Delimited;
    if f.htype.Repeated? || f.htype.FixedCount? {
      if |slot.items| == 0 {
        return true;
      }
      if f.htype.Repeated? && |slot.items| > f.htype.arraySize {
        return false;
      }
      ok := EncodeArray(s, f, slot.items);
      return;
    }
    var present := true;       // a required field always is
    if f.htype.Optional? || f.htype.Oneof? {
      present := slot.has;
    } else if f.htype.Singular? {
      present := !IsDefault(f.ltype, slot.items[0]);
    }
    if !present {
      return true;
    }
    ok := EncodeOne(s, f, slot.items);
  }

  method EncodeOne(s: OStream, f: Field, items: seq<Value>) returns (ok: bool)
    requires |items| == 1 && Typed(f.ltype, items[0])
    requires s.Valid()
    modifies s
    ensures s.Valid()
    ensures ok <==> EncodableItems(f.ltype, items, 1) && old(s.Room(|WireItems(f, items, 1, true)|))
    ensures ok ==> s.bytesWritten == old(s.bytesWritten) + |WireItems(f, items, 1, true)|
                   && s.out == old(s.out) + s.Shown(WireItems(f, items, 1, true))
    decreases items, 1
  {
    hide Varint, FieldTag, WireItems, EncodableItems, WireValue, Typed, Encodable;
    OneItem(f, items);
    ok := EncodeTag(s, WireType(f.ltype), f.tag);
    if ok {
      ok := EncodeValue(s, f.ltype, items[0]);
    }
  }

  lemma OneItem(f: Field, items: seq<Value>)
    requires |items| == 1
    ensures WireItems(f, items, 1, true) == FieldTag(WireType(f.ltype), f.tag) + WireValue(f.ltype, items[0])
    ensures EncodableItems(f.ltype, items, 1) <==> Encodable(f.ltype, items[0])
  {
    hide FieldTag, WireValue, Encodable;
    assert WireItems(f, items, 0, true) == [] && EncodableItems(f.ltype, items, 0);
  }

  /** An array: packed if its type allows it, otherwise each entry with its tag. */
  method EncodeArray(s: OStream, f: Field, items: seq<Value>) returns (ok: bool)
    requires items != [] && forall v :: v in items ==> Typed(f.ltype, v)
    requires s.Valid()
    modifies s
    ensures s.Valid()
    ensures
      var w := if Packable(f.ltype) then FieldTag(WT_STRING, f.tag) + Delimited(WireItems(f, items, |items|, false))
               else WireItems(f, items, |items|, true);
      && (ok <==> EncodableItems(f.ltype, items, |items|) && old(s.Room(|w|)))
      && (ok ==> s.bytesWritten == old(s.bytesWritten) + |w| && s.out == old(s.out) + s.Shown(w))
    decreases items, 2
  {
    hide Varint, FieldTag, WireItems, EncodableItems, WireValue, Typed;
    if Packable(f.ltype) {
      ok := EncodeTag(s, WT_STRING, f.tag);
      if !ok {
        return;
      }
      var size := PackedSize(f, items);
      ok := EncodeVarint(s, size);
      if !ok {
        return;
      }
      if !s.writing {
        ok := s.Count(size);
        return;
      }
      ok := EncodeItems(s, f, items, false);
    } else {
      ok := EncodeItems(s, f, items, true);
    }
  }

  /** The entries of an array one after the other. */
  method EncodeItems(s: OStream, f: Field, items: seq<Value>, tagged: bool) returns (ok: bool)
    requires forall v :: v in items ==> Typed(f.ltype, v)
    requires s.Valid()
    modifies s
    ensures s.Valid()
    ensures
      var w := WireItems(f, items, |items|, tagged);
      && (ok <==> EncodableItems(f.ltype, items, |items|) && old(s.Room(|w|)))
      && (ok ==> s.bytesWritten == old(s.bytesWritten) + |w| && s.out == old(s.out) + s.Shown(w))
    decreases items, 0
  {
    hide Varint, FieldTag, WireItems, EncodableItems, WireValue, Typed, Encodable;
    ghost var before := s.bytesWritten;
    NoItems(f, items, tagged);
    for i := 0 to |items|
      invariant EncodableItems(f.ltype, items, i)
      invariant s.Valid() && s.bytesWritten == before + |WireItems(f, items, i, tagged)| && old(s.Room(|WireItems(f, items, i, tagged)|))
      invariant s.out == old(s.out) + s.Shown(WireItems(f, items, i, tagged))
    {
      MoreItems(f, items, i + 1, tagged);
      NextItem(f, items, i, tagged);
      assert items[i] in items;
      if tagged {
        ok := EncodeTag(s, WireType(f.ltype), f.tag);
        if !ok {
          return;
        }
      }
      ok := EncodeValue(s, f.ltype, items[i]);
      if !ok {
        return;
      }
    }
    ok := true;
  }

  lemma NoItems(f: Field, items: seq<Value>, tagged: bool)
    ensures WireItems(f, items, 0, tagged) == [] && EncodableItems(f.ltype, items, 0)
  {
  }

  lemma NextItem(f: Field, items: seq<Value>, i: nat, tagged: bool)
    requires i < |items|
    ensures WireItems(f, items, i + 1, tagged) == WireItems(f, items, i, tagged)
              + ((if tagged then FieldTag(WireType(f.ltype), f.tag) else []) + WireValue(f.ltype, items[i]))
    ensures EncodableItems(f.ltype, items, i + 1) <==> EncodableItems(f.ltype, items, i) && Encodable(f.ltype, items[i])
  {
    hide FieldTag, WireValue, Encodable;
  }

  lemma {:induction false} MoreItems(f: Field, items: seq<Value>, n: nat, tagged: bool)
    requires n <= |items|
    ensures |WireItems(f, items, n, tagged)| <= |WireItems(f, items, |items|, tagged)|
    ensures EncodableItems(f.ltype, items, |items|) ==> EncodableItems(f.ltype, items, n)
    decreases |items| - n
  {
    hide FieldTag, WireValue, Encodable;
    if n < |items| {
      MoreItems(f, items, n + 1, tagged);
    }
  }

  /** The size of a packed array: known for fixed widths, counted otherwise. */
  method PackedSize(f: Field, items: seq<Value>) returns (size: nat)
    requires Packable(f.ltype) && forall v :: v in items ==> Typed(f.ltype, v)
    ensures size == |WireItems(f, items, |items|, false)|
    ensures EncodableItems(f.ltype, items, |items|)
    decreases items, 1
  {
    hide Varint, FieldTag, WireValue, Typed, WireItems;
    NumbersFit(f.ltype, items, |items|);
    if f.ltype.Fixed32? {
      FixedSize(f, items, |items|);
      size := 4 * |items|;
    } else if f.ltype.Fixed64? {
      FixedSize(f, items, |items|);
      size := 8 * |items|;
    } else {
      var sizing := new OStream(false, 0, []);
      var ok := EncodeItems(sizing, f, items, false);
      size := sizing.bytesWritten;
    }
  }

  lemma {:induction false} NumbersFit(l: LType, items: seq<Value>, n: nat)
    requires n <= |items| && Packable(l) && forall v :: v in items ==> Typed(l, v)
    ensures EncodableItems(l, items, n)
  {
    if n > 0 {
      NumbersFit(l, items, n - 1);
      assert items[n - 1] in items;
    }
  }

  lemma {:induction false} FixedSize(f: Field, items: seq<Value>, n: nat)
    requires n <= |items| && (f.ltype.Fixed32? || f.ltype.Fixed64?) && forall v :: v in items ==> Typed(f.ltype, v)
    ensures |WireItems(f, items, n, false)| == (if f.ltype.Fixed32? then 4 else 8) * n
  {
    hide Varint, Fixed;
    if n > 0 {
      FixedSize(f, items, n - 1);
      assert items[n - 1] in items;
      assert |WireValue(f.ltype, items[n - 1])| == if f.ltype.Fixed32? then 4 else 8;
    }
  }
}
