/** Protocol buffer messages as nanopb lays them out: field descriptors, the values a
    message struct holds, their wire format, and what decoding gives back. */
module Protobuf {
  import opened InternalKeys
  import opened Bytes
  import opened Coding

  // ---------------------------------------------------------------- descriptors and values

  /** What a field holds. Numbers come with the width of their C type in bytes; `max` is the
      room for the bytes, for a text that of its terminator included. */
  datatype LType =
    | IntVarint(width: nat) | UIntVarint(width: nat) | ZigZagVarint(width: nat) | Fixed32 | Fixed64
    | ByteArray(max: nat) | Text(max: nat) | FixedLengthBytes(size: nat) | Submessage(fields: seq<Field>)

  /** How often a field occurs. `Singular` is optional without a has_ flag, as in proto3;
      `FixedCount` is a repeated field without a count. */
  datatype HType = Required | Optional | Singular | Repeated(arraySize: nat) | FixedCount(arraySize: nat) | Oneof(union: nat)

  datatype Field = Field(tag: nat, htype: HType, ltype: LType)

  datatype Value = Number(n: int) | Blob(b: Data) | Message(slots: seq<Slot>)

  /** A field's place in the struct. `has` is its has_ flag; for a member of a oneof, that
      the which_ tag is its own; for a fixed-count array it only stands for bytes that the
      items do not determine (see CountSeen). `items` is what counts: the value, the chosen
      member of a oneof, the counted or received entries of an array. `held` is what the
      rest of an array's memory holds. */
  datatype Slot = Slot(has: bool, items: seq<Value>, held: seq<Value>)

  const TAG_LIMIT: nat := 0x2000_0000

  /** Sizes and array counts have this many bytes. */
  const SIZE_WIDTH: nat := 4
  const SIZE_MAX: nat := 0xffff_ffff

  /** Half of the numbers that a width can hold. */
  function HalfRange(width: nat): nat {
    Power256(width) / 2
  }

  predicate FitsNumber(l: LType, n: int) {
    match l
    case IntVarint(w) => w in {1, 2, 4, 8} && 0 <= n + HalfRange(w) < Power256(w)
    case ZigZagVarint(w) => w in {1, 2, 4, 8} && 0 <= n + HalfRange(w) < Power256(w)
    case UIntVarint(w) => w in {1, 2, 4, 8} && 0 <= n < Power256(w)
    case Fixed32 => 0 <= n < TWO_32
    case Fixed64 => 0 <= n < TWO_64
    case _ => false
  }

  predicate Packable(l: LType) {
    l.IntVarint? || l.UIntVarint? || l.ZigZagVarint? || l.Fixed32? || l.Fixed64?
  }

  /** Tags are distinct and in range; at most one member of a oneof is set. */
  ghost predicate FieldsOk(fields: seq<Field>) {
    && (forall k :: 0 <= k < |fields| ==> 0 < fields[k].tag < TAG_LIMIT)
    && forall j, k :: 0 <= j < k < |fields| ==> fields[j].tag != fields[k].tag
  }

  ghost predicate OneOfEach(fields: seq<Field>, m: seq<Slot>)
    requires |fields| == |m|
  {
    forall j, k :: 0 <= j < k < |fields| && fields[j].htype.Oneof? && fields[k].htype == fields[j].htype ==> !(m[j].has && m[k].has)
  }

  /** What can be on the wire, where a required field may be missing, an array without a
      count may be short and a text may leave no room for its terminator. */
  ghost predicate Fits(l: LType, v: Value)
    decreases v, 0
  {
    match l
    case ByteArray(max) => v.Blob? && |v.b| <= max && |v.b| <= SIZE_MAX
    case Text(max) => v.Blob? && |v.b| <= max <= SIZE_MAX && 0 !in v.b
    case FixedLengthBytes(size) => v.Blob? && |v.b| == size <= SIZE_MAX
    case Submessage(fields) => v.Message? && FitsMessage(fields, v.slots)
    case _ => v.Number? && FitsNumber(l, v.n)
  }

  ghost predicate FitsMessage(fields: seq<Field>, m: seq<Slot>)
    decreases m, 0
  {
    && |fields| == |m| && FieldsOk(fields) && OneOfEach(fields, m)
    && forall k :: 0 <= k < |m| ==> FitsSlot(fields[k], m[k])
  }

  ghost predicate FitsSlot(f: Field, s: Slot)
    decreases s, 0
  {
    && (forall v :: v in s.items ==> Fits(f.ltype, v))
    && match f.htype
       case Repeated(n) => |s.items| <= n <= SIZE_MAX
       case FixedCount(n) => |s.items| <= n && 0 < n <= SIZE_MAX
       case Oneof(_) => |s.items| == if s.has then 1 else 0
       case Required => |s.items| <= 1
       case _ => |s.items| == 1
  }

  predicate IsArray(f: Field) {
    f.htype.Repeated? || f.htype.FixedCount?
  }

  // ---------------------------------------------------------------- structs in memory

  /** The struct has the form of its descriptor, whatever its contents. */
  ghost predicate Shaped(l: LType, v: Value)
    decreases v, 0
  {
    l.Submessage? ==> v.Message? && ShapedMessage(l.fields, v.slots)
  }

  ghost predicate ShapedMessage(fields: seq<Field>, m: seq<Slot>)
    decreases m, 0
  {
    |fields| == |m| && forall k :: 0 <= k < |m| ==> ShapedSlot(fields[k], m[k])
  }

  ghost predicate ShapedSlot(f: Field, s: Slot)
    decreases s, 0
  {
    && (forall v :: v in s.items ==> Shaped(f.ltype, v)) && (forall v :: v in s.held ==> Shaped(f.ltype, v))
    && if IsArray(f) then |s.items| + |s.held| == f.htype.arraySize
       else s.held == [] && (!f.htype.Oneof? ==> |s.items| == 1)
  }

  /** A struct of zeros. */
  function Zero(l: LType): Value
    decreases l, 0
  {
    match l
    case ByteArray(_) => Blob([])
    case Text(_) => Blob([])
    case FixedLengthBytes(size) => Blob(seq(size, _ => 0))
    case Submessage(fields) => Message(ZeroSlots(fields, |fields|))
    case _ => Number(0)
  }

  function ZeroSlots(fields: seq<Field>, n: nat): (r: seq<Slot>)
    requires n <= |fields|
    ensures |r| == n
    decreases fields, n
  {
    if n == 0 then [] else ZeroSlots(fields, n - 1) + [ZeroSlot(fields[n - 1])]
  }

  function ZeroSlot(f: Field): Slot
    decreases f, 0
  {
    if IsArray(f) then Slot(false, [], seq(f.htype.arraySize, _ => Zero(f.ltype)))
    else if f.htype.Oneof? then Slot(false, [], [])
    else Slot(false, [Zero(f.ltype)], [])
  }

  // ---------------------------------------------------------------- defaults

  /** Bytes that a value takes in an array; the size of a submessage is not modelled. */
  function SizeOf(l: LType): nat {
    match l
    case IntVarint(w) => w
    case UIntVarint(w) => w
    case ZigZagVarint(w) => w
    case Fixed32 => 4
    case Fixed64 => 8
    case ByteArray(max) => SIZE_WIDTH + max
    case Text(max) => max
    case FixedLengthBytes(size) => size
    case Submessage(_) => 0
  }

  /** A value after its first `n` bytes were overwritten with zeros. */
  function ZeroBytes(l: LType, v: Value, n: nat): Value {
    if l.Submessage? then v
    else if l.ByteArray? || l.Text? then Blob([])
    else if l.FixedLengthBytes? then
      if n >= l.size then Blob(seq(l.size, _ => 0))
      else if v.Blob? && n <= |v.b| then Blob(seq(n, _ => 0) + v.b[n..])
      else v
    else if n >= SizeOf(l) then Number(0)
    else if v.Number? then Number(v.n - v.n % Power256(n))
    else v
  }

  /** An array after its first `n` bytes were; for submessages this is left to what the
      array holds. */
  function ZeroFront(l: LType, items: seq<Value>, n: nat): (r: seq<Value>)
    ensures |r| == |items|
  {
    if l.Submessage? || n == 0 || items == [] then items
    else [ZeroBytes(l, items[0], n)] + ZeroFront(l, items[1..], if n > SizeOf(l) then n - SizeOf(l) else 0)
  }

  /** What pb_message_set_to_defaults makes of a struct. */
  function SetDefault(l: LType, v: Value): Value
    decreases l, 0
  {
    match l
    case ByteArray(_) => Blob([])
    case Text(_) => Blob([])
    case FixedLengthBytes(size) => Blob(seq(size, _ => 0))
    case Submessage(fields) =>
      if v.Message? && |v.slots| == |fields| then Message(SetDefaults(fields, v.slots, |fields|)) else v
    case _ => Number(0)
  }

  function SetDefaults(fields: seq<Field>, m: seq<Slot>, n: nat): (r: seq<Slot>)
    requires n <= |fields| == |m|
    ensures |r| == n
    decreases fields, n
  {
    if n == 0 then [] else SetDefaults(fields, m, n - 1) + [SetDefaultSlot(fields[n - 1], m[n - 1])]
  }

  /** Arrays are not initialised, only their count is set to zero; an array without a
      count has its first bytes overwritten instead. */
  function SetDefaultSlot(f: Field, s: Slot): Slot
    decreases f, 0
  {
    match f.htype
    case Repeated(_) => Slot(false, [], s.items + s.held)
    case FixedCount(_) => Slot(false, [], ZeroFront(f.ltype, s.items + s.held, SIZE_WIDTH))
    case Oneof(_) => Slot(false, [], [])
    case _ => if s.items == [] then s else Slot(false, [SetDefault(f.ltype, s.items[0])], [])
  }

  /** What pb_check_proto3_default_value answers. */
  predicate IsDefault(l: LType, v: Value)
    decreases v, 0
  {
    match v
    case Number(n) => n == 0
    case Blob(b) => if l.FixedLengthBytes? then l.size == 0 else b == []
    case Message(m) => l.Submessage? && |l.fields| == |m| && AllDefault(l.fields, m, |m|)
  }

  predicate AllDefault(fields: seq<Field>, m: seq<Slot>, n: nat)
    requires n <= |fields| == |m|
    decreases m, n
  {
    n == 0 || (AllDefault(fields, m, n - 1) && SlotDefault(fields[n - 1], m[n - 1]))
  }

  /** The bytes of a value in the struct, as far as its contents determine them: not
      padding, not what is behind the end of a text, not the layout of a submessage. */
  function Memory(l: LType, v: Value): seq<Option<byte>> {
    match v
    case Number(n) =>
      var w := if l.Fixed32? then 4 else if l.IntVarint? || l.UIntVarint? || l.ZigZagVarint? then l.width else 8;
      Known(Fixed(n % Power256(w), w))
    case Blob(b) =>
      if l.ByteArray? then Known(Fixed(|b|, SIZE_WIDTH) + b) + Unknown(l.max - |b|)
      else if l.Text? then Known(b) + (if |b| < l.max then [Some(0 as byte)] + Unknown(l.max - |b| - 1) else [])
      else Known(b)
    case Message(_) => Unknown(SIZE_WIDTH)
  }

  function Known(b: Data): seq<Option<byte>> {
    seq(|b|, i requires 0 <= i < |b| => Some(b[i]))
  }

  function Unknown(n: int): seq<Option<byte>> {
    if n <= 0 then [] else seq(n, _ => None)
  }

  /** An array lies in the struct item by item. */
  function ArrayMemory(l: LType, items: seq<Value>): seq<Option<byte>> {
    if items == [] then [] else Memory(l, items[0]) + ArrayMemory(l, items[1..])
  }

  /** Byte `i` of the struct from the start of the array on. */
  function ByteOf(l: LType, items: seq<Value>, i: nat): Option<byte> {
    var memory := ArrayMemory(l, items);
    if i < |memory| then memory[i] else None
  }

  /** The first bytes of an array without a count are read as one, and it is not zero. */
  predicate CountSeen(l: LType, s: Slot) {
    || (exists i :: 0 <= i < SIZE_WIDTH && ByteOf(l, s.items, i).Some? && ByteOf(l, s.items, i) != Some(0))
    || (s.has && exists i :: 0 <= i < SIZE_WIDTH && ByteOf(l, s.items, i).None?)
  }

  predicate SlotDefault(f: Field, s: Slot)
    decreases s, 0
  {
    match f.htype
    case Required => false
    case Repeated(_) => s.items == []
    case FixedCount(_) => !CountSeen(f.ltype, s)
    case Singular => |s.items| == 1 && IsDefault(f.ltype, s.items[0])
    case _ => !s.has
  }

  // ---------------------------------------------------------------- the wire format

  const WT_VARINT := 0
  const WT_64BIT := 1
  const WT_STRING := 2
  const WT_32BIT := 5

  function WireType(l: LType): (w: nat)
    ensures w < 8
  {
    match l
    case IntVarint(_) => WT_VARINT
    case UIntVarint(_) => WT_VARINT
    case ZigZagVarint(_) => WT_VARINT
    case Fixed32 => WT_32BIT
    case Fixed64 => WT_64BIT
    case _ => WT_STRING
  }

  function FieldTag(wireType: nat, tag: nat): Data {
    Varint(tag * 8 + wireType)
  }

  function ZigZag(n: int): nat {
    if n < 0 then -2 * n - 1 else 2 * n
  }

  function WireNumber(l: LType, n: int): Data {
    match l
    case IntVarint(_) => Varint(n % TWO_64)
    case UIntVarint(_) => Varint(n % TWO_64)
    case ZigZagVarint(_) => Varint(ZigZag(n) % TWO_64)
    case Fixed32 => Fixed(n % TWO_32, 4)
    case _ => Fixed(n % TWO_64, 8)
  }

  function Delimited(b: Data): Data {
    Varint(|b|) + b
  }

  function WireValue(l: LType, v: Value): Data
    decreases v, 0
  {
    match v
    case Number(n) => WireNumber(l, n)
    case Blob(b) => Delimited(b)
    case Message(m) => Delimited(if l.Submessage? && |l.fields| == |m| then WireMessage(l.fields, m, |m|) else [])
  }

  /** The first `n` items, one after the other; each with a tag unless they are packed. */
  function WireItems(f: Field, items: seq<Value>, n: nat, tagged: bool): Data
    requires n <= |items|
    decreases items, n
  {
    if n == 0 then []
    else WireItems(f, items, n - 1, tagged)
         + (if tagged then FieldTag(WireType(f.ltype), f.tag) else []) + WireValue(f.ltype, items[n - 1])
  }

  predicate Present(f: Field, s: Slot) {
    match f.htype
    case Required => s.items != []
    case Singular => |s.items| == 1 && !IsDefault(f.ltype, s.items[0])
    case Repeated(_) => s.items != []
    case FixedCount(_) => s.items != []
    case _ => s.has
  }

  function WireSlot(f: Field, s: Slot): Data
    decreases s, 0
  {
    if !Present(f, s) then []
    else if (f.htype.Repeated? || f.htype.FixedCount?) && Packable(f.ltype) then
      FieldTag(WT_STRING, f.tag) + Delimited(WireItems(f, s.items, |s.items|, false))
    else WireItems(f, s.items, |s.items|, true)
  }

  /** The first `n` fields. */
  function WireMessage(fields: seq<Field>, m: seq<Slot>, n: nat): Data
    requires n <= |fields| == |m|
    decreases m, n
  {
    if n == 0 then [] else WireMessage(fields, m, n - 1) + WireSlot(fields[n - 1], m[n - 1])
  }

  // ---------------------------------------------------------------- what the encoder accepts

  /** The value is one that the field's C type can hold. */
  ghost predicate Typed(l: LType, v: Value)
    decreases v, 0
  {
    match l
    case ByteArray(_) => v.Blob? && |v.b| <= SIZE_MAX
    case Text(max) => v.Blob? && |v.b| <= max < TWO_64 && 0 !in v.b
    case FixedLengthBytes(size) => v.Blob? && |v.b| == size < TWO_64
    case Submessage(fields) => v.Message? && TypedMessage(fields, v.slots)
    case _ => v.Number? && FitsNumber(l, v.n)
  }

  ghost predicate TypedMessage(fields: seq<Field>, m: seq<Slot>)
    decreases m, 0
  {
    |fields| == |m| && forall k :: 0 <= k < |m| ==> TypedSlot(fields[k], m[k])
  }

  ghost predicate TypedSlot(f: Field, s: Slot)
    decreases s, 0
  {
    && f.tag < TAG_LIMIT
    && (forall v :: v in s.items ==> Typed(f.ltype, v))
    && match f.htype
       case Repeated(_) => true
       case FixedCount(n) => |s.items| == n
       case Oneof(_) => s.has ==> |s.items| == 1
       case _ => |s.items| == 1
  }

  /** Nothing that is present exceeds the size of its array. */
  predicate Encodable(l: LType, v: Value)
    decreases v, 0
  {
    match v
    case Blob(b) => l.ByteArray? ==> |b| <= l.max
    case Message(m) => l.Submessage? && |l.fields| == |m| ==> EncodableMessage(l.fields, m, |m|)
    case _ => true
  }

  predicate EncodableItems(l: LType, items: seq<Value>, n: nat)
    requires n <= |items|
    decreases items, n
  {
    n == 0 || (EncodableItems(l, items, n - 1) && Encodable(l, items[n - 1]))
  }

  predicate EncodableSlot(f: Field, s: Slot)
    decreases s, 0
  {
    Present(f, s) ==>
      (f.htype.Repeated? ==> |s.items| <= f.htype.arraySize) && EncodableItems(f.ltype, s.items, |s.items|)
  }

  predicate EncodableMessage(fields: seq<Field>, m: seq<Slot>, n: nat)
    requires n <= |fields| == |m|
    decreases m, n
  {
    n == 0 || (EncodableMessage(fields, m, n - 1) && EncodableSlot(fields[n - 1], m[n - 1]))
  }

  // ---------------------------------------------------------------- what comes back

  /** What decoding a written value leaves where `into` was. */
  function Decoded(l: LType, v: Value, into: Value): Value
    decreases v, 0
  {
    match v
    case Message(m) =>
      if l.Submessage? && into.Message? && |l.fields| == |m| == |into.slots| then
        Message(DecodedMessage(l.fields, m, into.slots, |m|))
      else v
    case _ => v
  }

  /** Entries of an array start from their defaults. */
  function DecodedItems(l: LType, items: seq<Value>, held: seq<Value>, n: nat): (r: seq<Value>)
    requires n <= |items| && n <= |held|
    ensures |r| == n
    decreases items, n
  {
    if n == 0 then [] else DecodedItems(l, items, held, n - 1) + [Decoded(l, items[n - 1], SetDefault(l, held[n - 1]))]
  }

  /** What a value that is no array entry is decoded into: a oneof is cleared first. */
  function Target(f: Field, into: Slot): Value {
    if f.htype.Oneof? || into.items == [] then SetDefault(f.ltype, Zero(f.ltype)) else into.items[0]
  }

  /** A field that is not on the wire stays what it was. */
  function DecodedSlot(f: Field, s: Slot, into: Slot): Slot
    decreases s, 0
  {
    if !Present(f, s) || s.items == [] then into
    else if IsArray(f) then
      if |s.items| <= |into.held| then
        Slot(false, DecodedItems(f.ltype, s.items, into.held, |s.items|), into.held[|s.items|..])
      else into
    else Slot(f.htype.Optional? || f.htype.Oneof?, [Decoded(f.ltype, s.items[0], Target(f, into))], [])
  }

  function DecodedMessage(fields: seq<Field>, m: seq<Slot>, into: seq<Slot>, n: nat): (r: seq<Slot>)
    requires n <= |fields| == |m| == |into|
    ensures |r| == n
    decreases m, n
  {
    if n == 0 then [] else DecodedMessage(fields, m, into, n - 1) + [DecodedSlot(fields[n - 1], m[n - 1], into[n - 1])]
  }

  /** Counts are zero and nothing is set, as after setting defaults. */
  ghost predicate Ready(l: LType, v: Value)
    decreases v, 0
  {
    l.Submessage? ==> v.Message? && ReadyMessage(l.fields, v.slots)
  }

  ghost predicate ReadyMessage(fields: seq<Field>, m: seq<Slot>)
    decreases m, 0
  {
    |fields| == |m| && forall k :: 0 <= k < |m| ==> ReadySlot(fields[k], m[k])
  }

  ghost predicate ReadySlot(f: Field, s: Slot)
    decreases s, 0
  {
    && !s.has
    && if IsArray(f) then s.items == [] && |s.held| == f.htype.arraySize && forall v :: v in s.held ==> Shaped(f.ltype, v)
       else s.held == [] && if f.htype.Oneof? then s.items == [] else |s.items| == 1 && Ready(f.ltype, s.items[0])
  }

  // ---------------------------------------------------------------- what the decoder accepts

  const MAX_REQUIRED_FIELDS := 64

  /** Required fields among the first `n`. */
  function CountRequired(fields: seq<Field>, n: nat): nat
    requires n <= |fields|
  {
    if n == 0 then 0 else CountRequired(fields, n - 1) + if fields[n - 1].htype.Required? then 1 else 0
  }

  /** The first required fields are there, arrays without a count are absent or full, and
      texts have room for their terminator. */
  predicate Complete(l: LType, v: Value)
    decreases v, 0
  {
    && (l.Submessage? && v.Message? ==> CompleteMessage(l.fields, v.slots))
    && (l.Text? && v.Blob? ==> |v.b| < l.max)
  }

  predicate CompleteMessage(fields: seq<Field>, m: seq<Slot>)
    decreases m, 0
  {
    |fields| == |m| ==> forall k :: 0 <= k < |m| ==> CompleteSlot(fields[k], m[k], CountRequired(fields, k))
  }

  predicate CompleteSlot(f: Field, s: Slot, index: nat)
    decreases s, 0
  {
    && (f.htype.Required? && index < MAX_REQUIRED_FIELDS ==> s.items != [])
    && (f.htype.FixedCount? && s.items != [] ==> |s.items| == f.htype.arraySize)
    && (Present(f, s) ==> forall k :: 0 <= k < |s.items| ==> Complete(f.ltype, s.items[k]))
  }
}
