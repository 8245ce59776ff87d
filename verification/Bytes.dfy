/** Bytes as numbers, and the fixed-width numbers made of them. */
module Bytes {
  import opened Crc32c

  newtype byte = x: int | 0 <= x < 256

  type Data = seq<byte>

  /** The bits of the bytes, as the checksum takes them. */
  function Octets(data: Data): (r: seq<Octet>)
    ensures |r| == |data|
  {
    seq(|data|, i requires 0 <= i < |data| => data[i] as Octet)
  }

  lemma OctetsConcat(a: Data, b: Data)
    ensures Octets(a + b) == Octets(a) + Octets(b)
  {
  }

  function Zeros(n: nat): (r: Data)
    ensures |r| == n
  {
    seq(n, _ => 0 as byte)
  }

  /** Checksum of some bytes. */
  function Crc(data: Data): bv32 {
    Checksum(Octets(data))
  }

  function ByteAt(v: bv32, i: nat): byte
    requires i < 4
  {
    var octet := if i == 0 then v & 0xff else if i == 1 then (v >> 8) & 0xff else if i == 2 then (v >> 16) & 0xff else v >> 24;
    OctetFits(v);
    (octet as Octet) as byte
  }

  lemma OctetFits(v: bv32)
    ensures v & 0xff < 0x100 && (v >> 8) & 0xff < 0x100 && (v >> 16) & 0xff < 0x100 && v >> 24 < 0x100
  {
  }

  /** Little-endian. */
  function EncodeFixed32(v: bv32): (r: Data)
    ensures |r| == 4
  {
    [ByteAt(v, 0), ByteAt(v, 1), ByteAt(v, 2), ByteAt(v, 3)]
  }

  function DecodeFixed32(b: Data): bv32
    requires |b| >= 4
  {
    Load32(b[0] as Octet, b[1] as Octet, b[2] as Octet, b[3] as Octet)
  }

  lemma OctetInverse(o: Octet)
    ensures (o as byte) as Octet == o
  {
  }

  lemma LoadOctets(v: bv32)
    requires v & 0xff < 0x100 && (v >> 8) & 0xff < 0x100 && (v >> 16) & 0xff < 0x100 && v >> 24 < 0x100
    ensures Load32((v & 0xff) as Octet, ((v >> 8) & 0xff) as Octet, ((v >> 16) & 0xff) as Octet, (v >> 24) as Octet) == v
  {
    calc {
      Load32((v & 0xff) as Octet, ((v >> 8) & 0xff) as Octet, ((v >> 16) & 0xff) as Octet, (v >> 24) as Octet);
      (((v & 0xff) as Octet) as bv32) | ((((v >> 8) & 0xff) as Octet as bv32) << 8)
        | ((((v >> 16) & 0xff) as Octet as bv32) << 16) | (((v >> 24) as Octet as bv32) << 24);
      v;
    }
  }

  lemma Fixed32Inverse(v: bv32)
    ensures DecodeFixed32(EncodeFixed32(v)) == v
  {
    hide Load32;
    OctetFits(v);
    OctetInverse((v & 0xff) as Octet);
    OctetInverse(((v >> 8) & 0xff) as Octet);
    OctetInverse(((v >> 16) & 0xff) as Octet);
    OctetInverse((v >> 24) as Octet);
    LoadOctets(v);
  }

  lemma LoadedOctets(a: Octet, b: Octet, c: Octet, d: Octet)
    ensures
      var v := Load32(a, b, c, d);
      && v & 0xff < 0x100 && (v & 0xff) as Octet == a
      && (v >> 8) & 0xff < 0x100 && ((v >> 8) & 0xff) as Octet == b
      && (v >> 16) & 0xff < 0x100 && ((v >> 16) & 0xff) as Octet == c
      && v >> 24 < 0x100 && (v >> 24) as Octet == d
  {
  }

  lemma Bump(o: Octet)
    requires o != 0xff
    ensures (o + 1) as int == o as int + 1
  {
  }

  /** Every number below 256 is that of some eight bits. */
  lemma {:induction false} OctetOf(x: nat) returns (o: Octet)
    requires x < 0x100
    ensures o as int == x
  {
    if x == 0 {
      o := 0;
    } else {
      var p := OctetOf(x - 1);
      assert p != 0xff;
      Bump(p);
      o := p + 1;
    }
  }

  lemma BitsOfNumber(o: Octet)
    ensures (o as int) as Octet == o
  {
  }

  lemma ByteInverse(b: byte)
    ensures (b as Octet) as byte == b
  {
    var o := OctetOf(b as nat);
    BitsOfNumber(o);
  }

  /** No two runs of four bytes give the same number. */
  lemma Fixed32Bytes(b: Data)
    requires |b| == 4
    ensures EncodeFixed32(DecodeFixed32(b)) == b
  {
    hide Load32;
    LoadedOctets(b[0] as Octet, b[1] as Octet, b[2] as Octet, b[3] as Octet);
    ByteInverse(b[0]);
    ByteInverse(b[1]);
    ByteInverse(b[2]);
    ByteInverse(b[3]);
  }
}
