/** Varints and length-prefixed slices. */
module Coding {
  import opened InternalKeys
  import opened Bytes

  const TWO_32: nat := 0x1_0000_0000
  const TWO_64: nat := 0x1_0000_0000_0000_0000

  /** Seven bits a byte, lowest first; the high bit says that more bytes follow. */
  function Varint(v: nat): (r: Data)
    ensures r != []
  {
    if v < 128 then [v as byte] else [(v % 128 + 128) as byte] + Varint(v / 128)
  }

  /** Unrolled: the code writes a byte per case. */
  method EncodeVarint32(v: nat) returns (r: Data)
    requires v < TWO_32
    ensures r == Varint(v)
  {
    if v < 0x80 {
      r := [v as byte];
    } else if v < 0x4000 {
      r := [(v % 128 + 128) as byte, (v / 0x80) as byte];
    } else if v < 0x200000 {
      r := [(v % 128 + 128) as byte, (v / 0x80 % 128 + 128) as byte, (v / 0x4000) as byte];
      ThreeDigits(v);
    } else if v < 0x10000000 {
      r := [(v % 128 + 128) as byte, (v / 0x80 % 128 + 128) as byte, (v / 0x4000 % 128 + 128) as byte,
            (v / 0x200000) as byte];
      FourDigits(v);
    } else {
      r := [(v % 128 + 128) as byte, (v / 0x80 % 128 + 128) as byte, (v / 0x4000 % 128 + 128) as byte,
            (v / 0x200000 % 128 + 128) as byte, (v / 0x10000000) as byte];
      FiveDigits(v);
    }
  }

  lemma ThreeDigits(v: nat)
    requires 0x4000 <= v < 0x200000
    ensures Varint(v) == [(v % 128 + 128) as byte, (v / 0x80 % 128 + 128) as byte, (v / 0x4000) as byte]
  {
    assert v / 0x80 / 0x80 == v / 0x4000;
    assert Varint(v / 0x80) == [(v / 0x80 % 128 + 128) as byte] + Varint(v / 0x80 / 128);
  }

  lemma FourDigits(v: nat)
    requires 0x200000 <= v < 0x10000000
    ensures Varint(v) == [(v % 128 + 128) as byte, (v / 0x80 % 128 + 128) as byte, (v / 0x4000 % 128 + 128) as byte,
                          (v / 0x200000) as byte]
  {
    ThreeDigits(v / 0x80);
    assert v / 0x80 / 0x80 == v / 0x4000 && v / 0x80 / 0x4000 == v / 0x200000;
  }

  lemma FiveDigits(v: nat)
    requires 0x10000000 <= v < TWO_32
    ensures Varint(v) == [(v % 128 + 128) as byte, (v / 0x80 % 128 + 128) as byte, (v / 0x4000 % 128 + 128) as byte,
                          (v / 0x200000 % 128 + 128) as byte, (v / 0x10000000) as byte]
  {
    FourDigits(v / 0x80);
    assert v / 0x80 / 0x80 == v / 0x4000 && v / 0x80 / 0x4000 == v / 0x200000 && v / 0x80 / 0x200000 == v / 0x10000000;
  }

  method EncodeVarint64(v: nat) returns (r: Data)
    ensures r == Varint(v)
  {
    r := [];
    var rest := v;
    while rest >= 128
      invariant Varint(v) == r + Varint(rest)
    {
      r := r + [(rest % 128 + 128) as byte];
      rest := rest / 128;
    }
    r := r + [rest as byte];
  }

  // ---------------------------------------------------------------- decoding

  /** 2 to the power of `7 * n`. */
  function Weight(n: nat): (w: nat)
    ensures w > 0
  {
    if n == 0 then 1 else 128 * Weight(n - 1)
  }

  /** A decoded value and what follows it. */
  datatype Parsed<+T> = Parsed(value: T, rest: Data)

  /** A byte's seven bits moved to their place in a register, as far as they fit. */
  function Contribution(digit: nat, i: nat, modulus: nat): (r: nat)
    requires modulus > 0
    ensures digit * Weight(i) < modulus ==> r == digit * Weight(i)
  {
    SmallMod(digit * Weight(i), modulus);
    (digit * Weight(i)) % modulus
  }

  lemma SmallMod(x: nat, m: nat)
    requires m > 0
    ensures x < m ==> x % m == x
  {
  }

  /** The value of at most `n` more bytes of weight `Weight(i)` on, if they end one. */
  function ParseVarint(input: Data, i: nat, n: nat, modulus: nat): (r: Option<Parsed<nat>>)
    requires modulus > 0
    ensures r.Some? ==> |r.value.rest| < |input|
    decreases n
  {
    if n == 0 || input == [] then None
    else if input[0] >= 128 then
      var tail := ParseVarint(input[1..], i + 1, n - 1, modulus);
      if tail.None? then None
      else Some(Parsed(Contribution(input[0] as nat - 128, i, modulus) + tail.value.value, tail.value.rest))
    else Some(Parsed(Contribution(input[0] as nat, i, modulus), input[1..]))
  }

  function GetVarint32(input: Data): Option<Parsed<nat>> {
    ParseVarint(input, 0, 5, TWO_32)
  }

  function GetVarint64(input: Data): Option<Parsed<nat>> {
    ParseVarint(input, 0, 10, TWO_64)
  }

  /** The decoding loop of the code: the register takes each byte's bits as they come. */
  method GetVarintPtr(input: Data, n: nat, modulus: nat) returns (r: Option<Parsed<nat>>)
    requires modulus > 0
    ensures r == ParseVarint(input, 0, n, modulus)
  {
    hide ParseVarint, Contribution;
    var result: nat := 0;
    var i := 0;
    assert input[0..] == input;
    while i < n && i < |input|
      invariant i <= n && i <= |input|
      invariant ParseVarint(input, 0, n, modulus) == Added(result, ParseVarint(input[i..], i, n - i, modulus))
    {
      var b := input[i] as nat;
      ParseStep(input, i, n - i, modulus);
      if b >= 128 {
        result := result + Contribution(b - 128, i, modulus);
      } else {
        return Some(Parsed(result + Contribution(b, i, modulus), input[i + 1..]));
      }
      i := i + 1;
    }
    ParseEnd(input[i..], i, n - i, modulus);
    r := None;
  }

  lemma ParseStep(input: Data, i: nat, n: nat, modulus: nat)
    requires modulus > 0 && n > 0 && i < |input|
    ensures
      var b := input[i] as nat;
      ParseVarint(input[i..], i, n, modulus)
      == if b >= 128 then Added(Contribution(b - 128, i, modulus), ParseVarint(input[i + 1..], i + 1, n - 1, modulus))
         else Some(Parsed(Contribution(b, i, modulus), input[i + 1..]))
  {
    hide Contribution;
    assert input[i..][1..] == input[i + 1..];
  }

  lemma ParseEnd(input: Data, i: nat, n: nat, modulus: nat)
    requires modulus > 0 && (n == 0 || input == [])
    ensures ParseVarint(input, i, n, modulus) == None
  {
  }

  /** A register that already holds `result`; the bits do not overlap. */
  function Added(result: nat, tail: Option<Parsed<nat>>): Option<Parsed<nat>> {
    if tail.None? then None else Some(Parsed(result + tail.value.value, tail.value.rest))
  }

  /** A varint that is short enough parses to its value, from any weight on. */
  lemma {:induction false} ParseInverse(v: nat, rest: Data, i: nat, n: nat, modulus: nat)
    requires modulus > 0 && v < Weight(n) && n > 0 && v * Weight(i) < modulus
    ensures ParseVarint(Varint(v) + rest, i, n, modulus) == Some(Parsed(v * Weight(i), rest))
    decreases n
  {
    var input := Varint(v) + rest;
    if v < 128 {
      assert input[1..] == rest;
    } else {
      assert input[1..] == Varint(v / 128) + rest;
      Digits(v, n, i);
      ParseInverse(v / 128, rest, i + 1, n - 1, modulus);
    }
  }

  lemma Digits(v: nat, n: nat, i: nat)
    requires 128 <= v < Weight(n) && n > 0
    ensures n > 1 && v / 128 < Weight(n - 1)
    ensures (v / 128) * Weight(i + 1) + (v % 128) * Weight(i) == v * Weight(i)
    ensures (v / 128) * Weight(i + 1) <= v * Weight(i) && (v % 128) * Weight(i) <= v * Weight(i)
  {
    assert Weight(1) == 128 * Weight(0);
    var w, q, r := Weight(i), v / 128, v % 128;
    assert v == 128 * q + r;
    calc {
      v * w;
      (128 * q + r) * w;
      { Distribute(128 * q, r, w); }
      128 * q * w + r * w;
      { Associate(q, w); }
      q * (128 * w) + r * w;
    }
  }

  lemma Distribute(a: nat, b: nat, c: nat)
    ensures (a + b) * c == a * c + b * c
  {
  }

  lemma Associate(q: nat, w: nat)
    ensures 128 * q * w == q * (128 * w)
  {
  }

  lemma Weights()
    ensures Weight(0) == 1 && Weight(5) == 0x8_0000_0000 && Weight(10) == 0x40_0000_0000_0000_0000
  {
    assert Weight(1) == 0x80;
    assert Weight(2) == 0x4000;
    assert Weight(3) == 0x20_0000;
    assert Weight(4) == 0x1000_0000;
    assert Weight(6) == 0x400_0000_0000;
    assert Weight(7) == 0x2_0000_0000_0000;
    assert Weight(8) == 0x100_0000_0000_0000;
    assert Weight(9) == 0x8000_0000_0000_0000;
  }

  lemma Varint32Inverse(v: nat, rest: Data)
    requires v < TWO_32
    ensures GetVarint32(Varint(v) + rest) == Some(Parsed(v, rest))
  {
    hide Weight, Varint, ParseVarint;
    Weights();
    ParseInverse(v, rest, 0, 5, TWO_32);
  }

  lemma Varint64Inverse(v: nat, rest: Data)
    requires v < TWO_64
    ensures GetVarint64(Varint(v) + rest) == Some(Parsed(v, rest))
  {
    hide Weight, Varint, ParseVarint;
    Weights();
    ParseInverse(v, rest, 0, 10, TWO_64);
  }

  // ---------------------------------------------------------------- length-prefixed slices

  function Prefixed(s: Data): Data {
    Varint(|s|) + s
  }

  function GetLengthPrefixedSlice(input: Data): (r: Option<Parsed<Data>>)
    ensures r.Some? ==> |r.value.rest| < |input|
  {
    var length := GetVarint32(input);
    if length.Some? && |length.value.rest| >= length.value.value then
      Some(Parsed(length.value.rest[..length.value.value], length.value.rest[length.value.value..]))
    else None
  }

  lemma PrefixedInverse(s: Data, rest: Data)
    requires |s| < TWO_32
    ensures GetLengthPrefixedSlice(Prefixed(s) + rest) == Some(Parsed(s, rest))
  {
    hide GetVarint32, Varint;
    assert Prefixed(s) + rest == Varint(|s|) + (s + rest);
    Varint32Inverse(|s|, s + rest);
  }

  // ---------------------------------------------------------------- fixed-width numbers

  /** The lowest `n` bytes of a number, lowest first. */
  function Fixed(v: nat, n: nat): (r: Data)
    ensures |r| == n
  {
    if n == 0 then [] else [(v % 256) as byte] + Fixed(v / 256, n - 1)
  }

  function FixedValue(b: Data): nat {
    if b == [] then 0 else b[0] as nat + 256 * FixedValue(b[1..])
  }

  function Power256(n: nat): (p: nat)
    ensures p > 0
  {
    if n == 0 then 1 else 256 * Power256(n - 1)
  }

  lemma {:induction false} FixedInverse(v: nat, n: nat)
    requires v < Power256(n)
    ensures FixedValue(Fixed(v, n)) == v
  {
    if n > 0 {
      assert Fixed(v, n)[1..] == Fixed(v / 256, n - 1);
      FixedInverse(v / 256, n - 1);
    }
  }

  lemma Powers()
    ensures Power256(4) == TWO_32 && Power256(8) == TWO_64
  {
    assert Power256(2) == 0x1_0000;
    assert Power256(3) == 0x100_0000;
    assert Power256(5) == 0x100_0000_0000;
    assert Power256(6) == 0x1_0000_0000_0000;
    assert Power256(7) == 0x100_0000_0000_0000;
  }

  /** Numbers of four bytes each. */
  function FixedList(values: seq<nat>): Data {
    if values == [] then [] else FixedList(values[..|values| - 1]) + Fixed(values[|values| - 1], 4)
  }

  lemma {:induction false} FixedListAt(values: seq<nat>, i: nat)
    requires i < |values|
    ensures |FixedList(values)| == 4 * |values|
    ensures FixedList(values)[4 * i..4 * i + 4] == Fixed(values[i], 4)
  {
    hide Fixed;
    var k := |values| - 1;
    if i < k {
      FixedListAt(values[..k], i);
      assert FixedList(values)[4 * i..4 * i + 4] == FixedList(values[..k])[4 * i..4 * i + 4];
    } else if k > 0 {
      FixedListAt(values[..k], k - 1);
    }
  }
}
