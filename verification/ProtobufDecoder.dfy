/** Decoding: the stream and its length-limited substreams, the field iterator that wraps
    around, and a message read in whatever order its fields come. What was encoded comes
    back. */
module ProtobufDecoder {
  import opened InternalKeys
  import opened Bytes
  import opened Coding
  import opened Protobuf
  import E = ProtobufEncoder

  // ---------------------------------------------------------------- the stream

  class IStream {
    const input: Data
    var state: nat
    var bytesLeft: nat

    constructor (input: Data, state: nat, bytesLeft: nat)
      requires state + bytesLeft <= |input|
      ensures Valid() && this.input == input && this.state == state && this.bytesLeft == bytesLeft
    {
      this.input, this.state, this.bytesLeft := input, state, bytesLeft;
    }

    ghost predicate Valid()
      reads this
    {
      state + bytesLeft <= |input|
    }

    /** Where the stream ends. */
    function End(): nat
      reads this
    {
      state + bytesLeft
    }

    /** What is left to read. */
    ghost function Rest(): (r: Data)
      requires Valid()
      reads this
      ensures |r| == bytesLeft
    {
      input[state..state + bytesLeft]
    }

    method Read(count: nat) returns (ok: bool, buf: Data)
      requires Valid()
      modifies this
      ensures Valid() && End() == old(End()) && (ok <==> count <= old(bytesLeft)) && bytesLeft <= old(bytesLeft)
      ensures ok ==> state == old(state) + count && bytesLeft == old(bytesLeft) - count
      ensures ok ==> buf == old(Rest())[..count] && Rest() == old(Rest())[count..]
      ensures !ok ==> Rest() == old(Rest())
    {
      if bytesLeft < count {
        return false, [];
      }
      buf := input[state..state + count];
      state := state + count;
      bytesLeft := bytesLeft - count;
      ok := true;
    }

    method ReadByte() returns (ok: bool, b: byte)
      requires Valid()
      modifies this
      ensures Valid() && End() == old(End()) && (ok <==> old(bytesLeft) > 0)
      ensures ok ==> b == old(Rest())[0] && Rest() == old(Rest())[1..]
      ensures !ok ==> Rest() == old(Rest())
    {
      if bytesLeft == 0 {
        return false, 0;
      }
      b := input[state];
      state := state + 1;
      bytesLeft := bytesLeft - 1;
      ok := true;
    }

    /** Also tells whether there was nothing to read at all. `value` and `tail` are for
        the case that the stream goes on with a number as the encoder writes it. */
    method DecodeVarint32(ghost value: nat, ghost tail: Data) returns (ok: bool, v: nat, eof: bool)
      requires Valid()
      modifies this
      ensures Valid() && End() == old(End()) && bytesLeft <= old(bytesLeft)
      ensures ok ==> v < TWO_32 && bytesLeft < old(bytesLeft)
      ensures eof <==> old(bytesLeft) == 0
      ensures eof ==> !ok
      ensures value < TWO_32 && old(Rest()) == Varint(value) + tail ==> ok && v == value && Rest() == tail
    {
      hide Varint, Weight;
      ghost var good := value < TWO_32 && Rest() == Varint(value) + tail;
      if good {
        FirstDigit(value, tail);
      }
      v := 0;
      eof := bytesLeft == 0;
      var b;
      ok, b := ReadByte();
      if !ok {
        return;
      }
      if b < 128 {
        v := b as nat;
        return;
      }
      ok, v := DecodeMultibyte(b as nat - 128, value, tail);
    }

    /** The second byte and on. */
    method DecodeMultibyte(first: nat, ghost value: nat, ghost tail: Data) returns (ok: bool, result: nat)
      requires Valid() && first < 128
      modifies this
      ensures Valid() && End() == old(End()) && bytesLeft <= old(bytesLeft)
      ensures ok ==> result < TWO_32
      ensures 128 <= value < TWO_32 && first == value % 128 && old(Rest()) == Varint(value / 128) + tail ==>
        ok && result == value && Rest() == tail
    {
      hide Varint, Pow128, Shifted, Partial, Digit, SignBit;
      ghost var good := 128 <= value < TWO_32 && first == value % 128 && Rest() == Varint(value / 128) + tail;
      var i := 1;                  // bitpos is 7 * i
      ghost var rest: nat := value / 128;
      var b: byte := 0;
      var more := true;
      result := first;
      FirstPartial(value, first);
      while more
        invariant Valid() && End() == old(End()) && bytesLeft <= old(bytesLeft) && i >= 1 && result < TWO_32 && (i <= 5 ==> result < Pow128(i))
        invariant good && more ==> i <= 4 && rest > 0 && Partial(value, result, rest, i) && Rest() == Varint(rest) + tail
        invariant good && !more ==> i <= 5 && result == value && Rest() == tail && (i == 5 ==> b as nat < 16)
        decreases bytesLeft, more
      {
        if good {
          FirstDigit(rest, tail);
        }
        ok, b := ReadByte();
        if !ok {
          return;
        }
        var digit := Digit(b);
        if i >= 5 {
          // trailing zeros, or the sign bits of a negative number
          var signExtension := if i < 9 then 0xFF else 0x01;
          if digit != 0 && (!SignBit(result) || b as nat != signExtension) {
            return false, 0;
          }
        } else {
          ShiftBound(result, digit, i);
          if good {
            DigitIs(b, rest);
            NextDigit(value, result, rest, i, digit);
          }
          result := result + Shifted(digit, i);
          rest := rest / 128;
        }
        i := i + 1;
        more := b >= 128;
      }
      if i == 5 && Digit(b) >= 16 {
        // the last byte was at bit 28, so only its lowest four bits fit
        return false, 0;
      }
      ok := true;
    }

    /** Up to ten bytes of a 64-bit number. */
    method DecodeVarint() returns (r: Option<nat>)
      requires Valid()
      modifies this
      ensures Valid() && End() == old(End()) && bytesLeft <= old(bytesLeft)
      ensures r.Some? ==> bytesLeft < old(bytesLeft)
      ensures r == var p := GetVarint64(old(Rest())); if p.Some? then Some(p.value.value) else None
      ensures r.Some? ==> Rest() == GetVarint64(old(Rest())).value.rest
    {
      hide ParseVarint, Contribution, SoFar, Added;
      ghost var all := Rest();
      var result: nat := 0;
      var i := 0;                  // bitpos is 7 * i
      assert all[0..] == all;
      SoFarNothing(all);
      while i < 10
        invariant Valid() && End() == old(End()) && i <= 10 && i <= |all| && Rest() == all[i..] && SoFar(all, i, result)
      {
        if bytesLeft == 0 {
          SoFarEnds(all, i, result);
        } else {
          SoFarStep(all, i, result);
        }
        var ok, b := ReadByte();
        if !ok {
          return None;
        }
        result := result + Contribution(b as nat % 128, i, TWO_64);
        i := i + 1;
        if b < 128 {
          return Some(result);
        }
      }
      SoFarEnds(all, i, result);
      r := None;
    }

    // ---------------------------------------------------------------- skipping

    method SkipVarint() returns (ok: bool)
      requires Valid()
      modifies this
      ensures Valid() && End() == old(End()) && bytesLeft <= old(bytesLeft)
    {
      var b: byte := 128;
      while b >= 128
        invariant Valid() && End() == old(End()) && bytesLeft <= old(bytesLeft)
        decreases bytesLeft, b as nat
      {
        ok, b := ReadByte();
        if !ok {
          return;
        }
      }
      ok := true;
    }

    method SkipString() returns (ok: bool)
      requires Valid()
      modifies this
      ensures Valid() && End() == old(End()) && bytesLeft <= old(bytesLeft)
    {
      var length, eof, buf;
      ok, length, eof := DecodeVarint32(0, []);
      if ok {
        ok, buf := Read(length);
      }
    }

    method SkipField(wireType: nat) returns (ok: bool)
      requires Valid()
      modifies this
      ensures Valid() && End() == old(End()) && bytesLeft <= old(bytesLeft)
    {
      var buf;
      if wireType == WT_VARINT {
        ok := SkipVarint();
      } else if wireType == WT_64BIT {
        ok, buf := Read(8);
      } else if wireType == WT_STRING {
        ok := SkipString();
      } else if wireType == WT_32BIT {
        ok, buf := Read(4);
      } else {
        ok := false;
      }
    }

    // ---------------------------------------------------------------- tags and substreams

    /** A zero ends the message, as the end of the stream does. */
    method DecodeTag(ghost wt: nat, ghost t: nat, ghost tail: Data) returns (ok: bool, wireType: nat, tag: nat, eof: bool)
      requires Valid()
      modifies this
      ensures Valid() && End() == old(End()) && bytesLeft <= old(bytesLeft) && (ok ==> bytesLeft < old(bytesLeft))
      ensures wt < 8 && 0 < t < TAG_LIMIT && old(Rest()) == FieldTag(wt, t) + tail ==>
        ok && wireType == wt && tag == t && Rest() == tail
    {
      hide Varint;
      var temp;
      wireType, tag := 0, 0;
      ok, temp, eof := DecodeVarint32(t * 8 + wt, tail);
      if !ok {
        return;
      }
      if temp == 0 {
        return false, 0, 0, true;
      }
      tag, wireType := temp / 8, temp % 8;
    }

    /** A stream over the bytes that come next; this one goes on behind them. Its state is
        only moved when the substream is closed. */
    method MakeStringSubstream(ghost b: Data, ghost tail: Data) returns (ok: bool, substream: IStream)
      requires Valid()
      modifies this
      ensures Valid() && End() <= old(End()) && bytesLeft <= old(bytesLeft) && fresh(substream) && substream.Valid() && substream.input == input
      ensures ok ==> substream.state == state && state + substream.bytesLeft + bytesLeft == old(End())
                     && substream.bytesLeft + bytesLeft < old(bytesLeft)
      ensures |b| < TWO_32 && old(Rest()) == Delimited(b) + tail ==>
        ok && substream.Rest() == b && input[state + |b|..state + |b| + bytesLeft] == tail
    {
      hide Varint;
      ghost var good := |b| < TWO_32 && Rest() == Delimited(b) + tail;
      if good {
        assert Delimited(b) + tail == Varint(|b|) + (b + tail);
      }
      var size, eof;
      ok, size, eof := DecodeVarint32(|b|, b + tail);
      substream := new IStream(input, state, if ok && size <= bytesLeft then size else 0);
      if !ok {
        return;
      }
      if bytesLeft < size {
        return false, substream;
      }
      ghost var rest := Rest();
      bytesLeft := bytesLeft - size;
      if good {
        assert rest[..|b|] == b && rest[|b|..] == tail;
        assert substream.Rest() == rest[..|b|];
        assert input[state + |b|..state + |b| + bytesLeft] == rest[|b|..];
      }
    }

    /** Skips what is left of the substream, and goes on behind it. */
    method CloseStringSubstream(substream: IStream)
      requires substream != this && substream.input == input && substream.Valid()
      requires substream.state + substream.bytesLeft + bytesLeft <= |input|
      modifies this`state, substream
      ensures Valid() && bytesLeft == old(bytesLeft)
      ensures state == old(substream.End())
    {
      if substream.bytesLeft > 0 {
        var ok, buf := substream.Read(substream.bytesLeft);
      }
      state := substream.state;
    }
  }

  /** After `i` bytes of a 64-bit varint. */
  ghost predicate SoFar(all: Data, i: nat, result: nat) {
    i <= 10 && i <= |all| && GetVarint64(all) == Added(result, ParseVarint(all[i..], i, 10 - i, TWO_64))
  }

  lemma SoFarNothing(all: Data)
    ensures SoFar(all, 0, 0)
  {
    hide ParseVarint, Contribution;
    assert all[0..] == all;
  }

  lemma SoFarStep(all: Data, i: nat, result: nat)
    requires SoFar(all, i, result) && i < 10 && i < |all|
    ensures
      var b := all[i] as nat;
      var next := result + Contribution(b % 128, i, TWO_64);
      if b >= 128 then SoFar(all, i + 1, next) else GetVarint64(all) == Some(Parsed(next, all[i + 1..]))
  {
    hide ParseVarint, Contribution;
    ParseStep(all, i, 10 - i, TWO_64);
  }

  lemma SoFarEnds(all: Data, i: nat, result: nat)
    requires SoFar(all, i, result) && (i == 10 || i == |all|)
    ensures GetVarint64(all) == None
  {
    hide ParseVarint, Contribution;
    ParseEnd(all[i..], i, 10 - i, TWO_64);
  }

  function Pow128(i: nat): nat
    requires i <= 5
  {
    if i == 0 then 1 else if i == 1 then 0x80 else if i == 2 then 0x4000 else if i == 3 then 0x20_0000
    else if i == 4 then 0x1000_0000 else 0x8_0000_0000
  }

  /** The first byte of a varint, and what follows it. */
  lemma FirstDigit(value: nat, tail: Data)
    ensures
      var all := Varint(value) + tail;
      && all[0] as nat == (if value < 128 then value else value % 128 + 128)
      && all[1..] == if value < 128 then tail else Varint(value / 128) + tail
  {
    hide Varint;
    E.VarintDigit(value);
  }

  function Digit(b: byte): (d: nat)
    ensures d < 128 && d <= b as nat
  {
    b as nat % 128
  }

  predicate SignBit(x: nat) {
    x / 0x8000_0000 > 0
  }

  lemma DigitIs(b: byte, rest: nat)
    requires b as nat == if rest < 128 then rest else rest % 128 + 128
    ensures Digit(b) == rest % 128
  {
  }

  /** Seven bits moved to their place, as far as they fit into 32. */
  function Shifted(digit: nat, i: nat): nat
    requires i <= 4
  {
    (digit * Pow128(i)) % TWO_32
  }

  /** `rest` is what is still to come of the value. */
  ghost predicate Partial(value: nat, result: nat, rest: nat, i: nat) {
    i <= 5 && result + rest * Pow128(i) == value && result < Pow128(i)
  }

  lemma FirstPartial(value: nat, first: nat)
    requires first < 128
    ensures first < Pow128(1) && (first == value % 128 ==> Partial(value, first, value / 128, 1))
  {
  }

  lemma ShiftBound(result: nat, digit: nat, i: nat)
    requires 1 <= i <= 4 && result < Pow128(i) && digit < 128
    ensures result + Shifted(digit, i) < TWO_32 && result + Shifted(digit, i) < Pow128(i + 1)
  {
  }

  lemma NextDigit(value: nat, result: nat, rest: nat, i: nat, digit: nat)
    requires value < TWO_32 && 1 <= i <= 4 && rest > 0 && Partial(value, result, rest, i) && digit == rest % 128
    ensures Partial(value, result + Shifted(digit, i), rest / 128, i + 1)
    ensures rest < 128 ==> result + Shifted(digit, i) == value
    ensures (i == 4 ==> rest < 16) && (rest >= 128 ==> i < 4)
  {
  }

  // ---------------------------------------------------------------- single values

  /** A number cut to a width, as a signed one. */
  function Signed(x: int, width: nat): int
    requires width in {1, 2, 4, 8}
  {
    var y := x % Power256(width);
    if y >= HalfRange(width) then y - Power256(width) else y
  }

  function UnZigZag(v: nat): int {
    if v % 2 == 1 then -(v / 2) - 1 else v / 2
  }

  lemma Widths()
    ensures Power256(1) == 0x100 && Power256(2) == 0x1_0000 && Power256(4) == TWO_32 && Power256(8) == TWO_64
    ensures HalfRange(1) == 0x80 && HalfRange(2) == 0x8000 && HalfRange(4) == 0x8000_0000 && HalfRange(8) == TWO_64 / 2
  {
    Powers();
    assert Power256(1) == 256;
    assert Power256(2) == 256 * Power256(1);
  }

  lemma SignedInverse(n: int, w: nat)
    requires w in {1, 2, 4, 8} && 0 <= n + HalfRange(w) < Power256(w)
    ensures Signed(n, w) == n
  {
    hide Power256;
    Widths();
  }

  /** As the code reads it: as 64 bits, or only the lower 32 of them. */
  lemma WordInverse(n: int, w: nat)
    requires w in {1, 2, 4, 8} && 0 <= n + HalfRange(w) < Power256(w)
    ensures if w == 8 then Signed(n % TWO_64, 8) == n else Signed(n % TWO_64, 4) == n
  {
    hide Power256;
    Widths();
    assert (n % TWO_64) % TWO_32 == n % TWO_32;
  }

  lemma ZigZagInverse(n: int, w: nat)
    requires w in {1, 2, 4, 8} && 0 <= n + HalfRange(w) < Power256(w)
    ensures UnZigZag(ZigZag(n)) == n && ZigZag(n) < TWO_64
  {
    hide Power256;
    Widths();
  }

  method DecodeNumber(stream: IStream, l: LType, ghost n: int, ghost tail: Data) returns (ok: bool, value: int)
    requires stream.Valid() && Packable(l)
    modifies stream
    ensures stream.Valid() && stream.End() == old(stream.End()) && stream.bytesLeft <= old(stream.bytesLeft) && (ok ==> stream.bytesLeft < old(stream.bytesLeft))
    ensures FitsNumber(l, n) && old(stream.Rest()) == WireNumber(l, n) + tail ==>
      ok && value == n && stream.Rest() == tail
  {
    hide Varint, ParseVarint, Fixed, FixedValue, Power256;
    Widths();
    ok, value := false, 0;
    if l.Fixed32? || l.Fixed64? {
      ok, value := DecodeFixed(stream, if l.Fixed32? then 4 else 8, n, tail);
      return;
    }
    if l.width !in {1, 2, 4, 8} {
      ok, value := false, 0;
      var r := stream.DecodeVarint();
      return;
    }
    if FitsNumber(l, n) {
      NumberInverse(l, n, tail);
    }
    var r := stream.DecodeVarint();
    if r.None? {
      return;
    }
    match l
    case IntVarint(w) =>
      // a negative 32-bit number may have been written with 32 bits only
      var svalue := if w == 8 then Signed(r.value, 8) else Signed(r.value, 4);
      value := Signed(svalue, w);
      ok := value == svalue;
    case UIntVarint(w) =>
      value := r.value % Power256(w);
      ok := value == r.value;
    case ZigZagVarint(w) =>
      value := Signed(UnZigZag(r.value), w);
      ok := value == UnZigZag(r.value);
  }

  lemma NumberInverse(l: LType, n: int, tail: Data)
    requires (l.IntVarint? || l.UIntVarint? || l.ZigZagVarint?) && FitsNumber(l, n)
    ensures
      var v := if l.ZigZagVarint? then ZigZag(n) else n % TWO_64;
      && GetVarint64(WireNumber(l, n) + tail) == Some(Parsed(v, tail))
      && (l.IntVarint? ==> Signed(n, l.width) == n && (if l.width == 8 then Signed(v, 8) == n else Signed(v, 4) == n))
      && (l.UIntVarint? ==> v == n && n % Power256(l.width) == n)
      && (l.ZigZagVarint? ==> UnZigZag(v) == n && Signed(n, l.width) == n)
  {
    hide Varint, ParseVarint, Power256, Signed, UnZigZag, ZigZag;
    Widths();
    if !l.UIntVarint? {
      SignedInverse(n, l.width);
      WordInverse(n, l.width);
      ZigZagInverse(n, l.width);
    }
    Varint64Inverse(if l.ZigZagVarint? then ZigZag(n) else n % TWO_64, tail);
  }

  /** Little-endian. */
  method DecodeFixed(stream: IStream, width: nat, ghost n: int, ghost tail: Data) returns (ok: bool, value: int)
    requires stream.Valid() && width in {4, 8}
    modifies stream
    ensures stream.Valid() && stream.End() == old(stream.End()) && stream.bytesLeft <= old(stream.bytesLeft) && (ok ==> stream.bytesLeft < old(stream.bytesLeft))
    ensures 0 <= n < Power256(width) && old(stream.Rest()) == Fixed(n, width) + tail ==>
      ok && value == n && stream.Rest() == tail
  {
    hide Fixed, FixedValue, Power256;
    var buf;
    value := 0;
    if 0 <= n < Power256(width) {
      FixedInverse(n, width);
    }
    ok, buf := stream.Read(width);
    if ok {
      value := FixedValue(buf);
    }
  }

  /** Length-delimited bytes that must satisfy the limits of the field's type. */
  method DecodeBlob(stream: IStream, l: LType, dest: Data, ghost b: Data, ghost tail: Data) returns (ok: bool, r: Data)
    requires stream.Valid() && (l.ByteArray? || l.Text? || l.FixedLengthBytes?)
    modifies stream
    ensures stream.Valid() && stream.End() == old(stream.End()) && stream.bytesLeft <= old(stream.bytesLeft) && (ok ==> stream.bytesLeft < old(stream.bytesLeft))
    ensures Fits(l, Blob(b)) && old(stream.Rest()) == Delimited(b) + tail ==>
      (ok <==> Complete(l, Blob(b))) && (ok ==> r == b && stream.Rest() == tail)
  {
    hide Varint;
    ghost var good := Fits(l, Blob(b)) && stream.Rest() == Delimited(b) + tail;
    if good {
      assert Delimited(b) + tail == Varint(|b|) + (b + tail);
    }
    r := dest;
    var size, eof, buf;
    ok, size, eof := stream.DecodeVarint32(|b|, b + tail);
    if !ok {
      return;
    }
    if l.Text? {
      if size == TWO_32 - 1 {
        return false, r;          // the sum would wrap around
      }
      if size + 1 > l.max {
        return false, r;
      }
    } else {
      if size > SIZE_MAX {
        return false, r;
      }
      if l.ByteArray? && size > l.max {
        return false, r;
      }
      if l.FixedLengthBytes? {
        if size == 0 {
          r := seq(l.size, _ => 0);
          return;
        }
        if size != l.size {
          return false, r;
        }
      }
    }
    ok, buf := stream.Read(size);
    if ok {
      r := buf;
    }
  }
}
