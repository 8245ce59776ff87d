/** CRC-32C: the bit-at-a-time definition (section 12.1 of RFC 3720), and the loops
    over single bytes, 4-byte and 16-byte groups that compute it from tables. */
module Crc32c {
  type Octet = bv8

  /** The polynomial 0x11EDC6F41 in reflected bit order. */
  const POLYNOMIAL: bv32 := 0x82f63b78
  const MASK_DELTA: bv32 := 0xa282ead8

  // Small names for the word operations: the proofs below use their laws, not their bits.

  function Xor(a: bv32, b: bv32): bv32 { a ^ b }

  function Half(x: bv32): bv32 { x >> 1 }

  function Feedback(x: bv32): bv32 { if x & 1 == 1 then POLYNOMIAL else 0 }

  function Low8(x: bv32): bv32 { x & 0xff }

  function High24(x: bv32): bv32 { x & 0xffffff00 }

  function Down8(x: bv32): bv32 { x >> 8 }

  function Up8(x: bv32): bv32 { x << 8 }

  function Widen(b: Octet): bv32 { b as bv32 }

  function Inverted(x: bv32): bv32 { x ^ 0xffffffff }

  /** One step of the shift register. */
  function Shift1(x: bv32): bv32 {
    Xor(Half(x), Feedback(x))
  }

  function Shift(x: bv32, n: nat): bv32 {
    if n == 0 then x else Shift1(Shift(x, n - 1))
  }

  /** Feeding one byte, lowest bit first. */
  function Feed(l: bv32, b: Octet): bv32 {
    Shift(Xor(l, Widen(b)), 8)
  }

  function Feeds(l: bv32, data: seq<Octet>): bv32 {
    if data == [] then l else Feed(Feeds(l, data[..|data| - 1]), data[|data| - 1])
  }

  /** The crc of `A + data`, given the crc of `A`. */
  function Extended(crc: bv32, data: seq<Octet>): bv32 {
    Inverted(Feeds(Inverted(crc), data))
  }

  function Checksum(data: seq<Octet>): bv32 {
    Extended(0, data)
  }

  /** Entry `i` of table `k`: the byte `i` fed `k + 1` bytes ago. */
  function Table(k: nat, i: bv32): bv32 {
    Shift(i, 8 * (k + 1))
  }

  // ---------------------------------------------------------------- laws of the word operations

  lemma XorComm(a: bv32, b: bv32)
    ensures Xor(a, b) == Xor(b, a)
  {
  }

  lemma XorAssoc(a: bv32, b: bv32, c: bv32)
    ensures Xor(Xor(a, b), c) == Xor(a, Xor(b, c))
  {
    calc {
      Xor(Xor(a, b), c);
      (a ^ b) ^ c;
      a ^ (b ^ c);
      Xor(a, b ^ c);
      Xor(a, Xor(b, c));
    }
  }

  lemma XorZero(a: bv32)
    ensures Xor(a, 0) == a
  {
  }

  lemma XorSelf(a: bv32)
    ensures Xor(a, a) == 0
  {
  }

  lemma XorSwap(a: bv32, b: bv32, c: bv32, d: bv32)
    ensures Xor(Xor(a, b), Xor(c, d)) == Xor(Xor(a, c), Xor(b, d))
  {
    hide Xor;
    calc {
      Xor(Xor(a, b), Xor(c, d));
      { XorAssoc(a, b, Xor(c, d)); XorAssoc(b, c, d); }
      Xor(a, Xor(Xor(b, c), d));
      { XorComm(b, c); XorAssoc(c, b, d); }
      Xor(a, Xor(c, Xor(b, d)));
      { XorAssoc(a, c, Xor(b, d)); }
      Xor(Xor(a, c), Xor(b, d));
    }
  }

  lemma XorCancel(x: bv32, y: bv32, b: bv32)
    requires Xor(x, b) == Xor(y, b)
    ensures x == y
  {
    hide Xor;
    XorAssoc(x, b, b);
    XorAssoc(y, b, b);
    XorSelf(b);
    XorZero(x);
    XorZero(y);
  }

  lemma HalfLinear(x: bv32, y: bv32)
    ensures Half(Xor(x, y)) == Xor(Half(x), Half(y))
  {
  }

  lemma FeedbackLinear(x: bv32, y: bv32)
    ensures Feedback(Xor(x, y)) == Xor(Feedback(x), Feedback(y))
  {
  }

  lemma SplitLow(x: bv32)
    ensures Xor(Low8(x), High24(x)) == x
    ensures Low8(High24(x)) == 0 && Down8(High24(x)) == Down8(x)
  {
  }

  lemma UpDown(x: bv32)
    requires x & 0xff000000 == 0
    ensures Low8(Up8(x)) == 0 && Down8(Up8(x)) == x
  {
  }

  lemma InvertTwice(x: bv32)
    ensures Inverted(Inverted(x)) == x
  {
  }

  // ---------------------------------------------------------------- algebra of the register

  lemma Shift1Linear(x: bv32, y: bv32)
    ensures Shift1(Xor(x, y)) == Xor(Shift1(x), Shift1(y))
  {
    hide Xor, Half, Feedback;
    HalfLinear(x, y);
    FeedbackLinear(x, y);
    XorSwap(Half(x), Half(y), Feedback(x), Feedback(y));
  }

  lemma {:induction false} ShiftLinear(x: bv32, y: bv32, n: nat)
    ensures Shift(Xor(x, y), n) == Xor(Shift(x, n), Shift(y, n))
  {
    hide Shift1, Xor;
    if n > 0 {
      ShiftLinear(x, y, n - 1);
      Shift1Linear(Shift(x, n - 1), Shift(y, n - 1));
    }
  }

  lemma {:induction false} ShiftAdd(x: bv32, m: nat, n: nat)
    ensures Shift(Shift(x, m), n) == Shift(x, m + n)
  {
    hide Shift1;
    if n > 0 {
      ShiftAdd(x, m, n - 1);
    }
  }

  /** A register with a clear lowest bit just moves down. */
  lemma Shift1Plain(x: bv32)
    requires x & 1 == 0
    ensures Shift1(x) == x >> 1
  {
    calc {
      Shift1(x);
      Xor(Half(x), Feedback(x));
      Xor(Half(x), 0);
      Half(x);
    }
  }

  lemma Plain1(x: bv32)
    requires x & 0xff == 0
    ensures Shift1(x) == x >> 1
  {
    Shift1Plain(x);
  }

  lemma Plain2(x: bv32)
    requires x & 0xff == 0
    ensures Shift1(x >> 1) == x >> 2
  {
    Shift1Plain(x >> 1);
  }

  lemma Plain3(x: bv32)
    requires x & 0xff == 0
    ensures Shift1(x >> 2) == x >> 3
  {
    Shift1Plain(x >> 2);
  }

  lemma Plain4(x: bv32)
    requires x & 0xff == 0
    ensures Shift1(x >> 3) == x >> 4
  {
    Shift1Plain(x >> 3);
  }

  lemma Plain5(x: bv32)
    requires x & 0xff == 0
    ensures Shift1(x >> 4) == x >> 5
  {
    Shift1Plain(x >> 4);
  }

  lemma Plain6(x: bv32)
    requires x & 0xff == 0
    ensures Shift1(x >> 5) == x >> 6
  {
    Shift1Plain(x >> 5);
  }

  lemma Plain7(x: bv32)
    requires x & 0xff == 0
    ensures Shift1(x >> 6) == x >> 7
  {
    Shift1Plain(x >> 6);
  }

  lemma Plain8(x: bv32)
    requires x & 0xff == 0
    ensures Shift1(x >> 7) == x >> 8
  {
    Shift1Plain(x >> 7);
  }

  /** Eight steps only move the bits above the lowest eight. */
  lemma ShiftPlain(x: bv32)
    requires Low8(x) == 0
    ensures Shift(x, 8) == Down8(x)
  {
    hide Shift1;
    Plain1(x);
    Plain2(x);
    Plain3(x);
    Plain4(x);
    Plain5(x);
    Plain6(x);
    Plain7(x);
    Plain8(x);
    calc {
      Shift(x, 8);
      Shift1(Shift1(Shift(x, 6)));
      Shift1(Shift1(Shift1(Shift1(Shift(x, 4)))));
      Shift1(Shift1(Shift1(Shift1(Shift1(Shift1(Shift(x, 2)))))));
      Shift1(Shift1(Shift1(Shift1(Shift1(Shift1(Shift1(Shift1(Shift(x, 0)))))))));
      x >> 8;
    }
  }

  /** Shifting a register out byte by byte: its low byte goes through a table. */
  lemma ShiftByTable(x: bv32, n: nat)
    ensures Shift(x, 8 * (n + 1)) == Xor(Table(n, Low8(x)), Shift(Down8(x), 8 * n))
  {
    hide Shift, Xor, Low8, High24, Down8;
    SplitLow(x);
    ShiftLinear(Low8(x), High24(x), 8 * (n + 1));
    ShiftPlain(High24(x));
    ShiftAdd(High24(x), 8, 8 * n);
  }

  lemma {:induction false} ShiftZero(n: nat)
    ensures Shift(0, n) == 0
  {
    hide Shift1;
    if n > 0 {
      ShiftZero(n - 1);
      Shift1Plain(0);
    }
  }

  /** The single-byte step of the code. */
  function Step1(l: bv32, b: Octet): bv32 {
    Xor(Table(0, Xor(Low8(l), Widen(b))), Down8(l))
  }

  lemma ByteIndex(l: bv32, b: Octet)
    ensures Low8(Xor(l, Widen(b))) == Xor(Low8(l), Widen(b))
    ensures Down8(Xor(l, Widen(b))) == Down8(l)
  {
  }

  lemma Step1IsFeed(l: bv32, b: Octet)
    ensures Step1(l, b) == Feed(l, b)
  {
    hide Xor, Low8, Down8, Widen, Table;
    ByteIndex(l, b);
    ShiftByTable(Xor(l, Widen(b)), 0);
    assert Shift(Down8(l), 0) == Down8(l);
  }

  /** A little-endian 32-bit word. */
  function Load32(b0: Octet, b1: Octet, b2: Octet, b3: Octet): bv32 {
    (b0 as bv32) | ((b1 as bv32) << 8) | ((b2 as bv32) << 16) | ((b3 as bv32) << 24)
  }

  /** The four-byte step of the code on the word `c`. */
  function Step4(c: bv32): bv32 {
    Xor(Xor(Xor(Table(3, c & 0xff), Table(2, (c >> 8) & 0xff)), Table(1, (c >> 16) & 0xff)), Table(0, c >> 24))
  }

  lemma WordBytes(c: bv32)
    ensures Low8(c) == c & 0xff
    ensures Low8(Down8(c)) == (c >> 8) & 0xff
    ensures Low8(Down8(Down8(c))) == (c >> 16) & 0xff
    ensures Low8(Down8(Down8(Down8(c)))) == c >> 24
    ensures Down8(Down8(Down8(Down8(c)))) == 0
  {
  }

  /** Four tables together do 32 steps. */
  lemma Step4IsShift(c: bv32)
    ensures Step4(c) == Shift(c, 32)
  {
    hide Xor, Low8, Down8, Table, Shift;
    WordBytes(c);
    var c1, c2, c3 := Down8(c), Down8(Down8(c)), Down8(Down8(Down8(c)));
    ShiftByTable(c, 3);
    ShiftByTable(c1, 2);
    ShiftByTable(c2, 1);
    ShiftByTable(c3, 0);
    ShiftZero(0);
    var t3, t2, t1, t0 := Table(3, Low8(c)), Table(2, Low8(c1)), Table(1, Low8(c2)), Table(0, Low8(c3));
    XorZero(t0);
    assert Shift(c, 32) == Xor(t3, Xor(t2, Xor(t1, t0)));
    XorAssoc(t3, t2, Xor(t1, t0));
    XorAssoc(Xor(t3, t2), t1, t0);
  }

  /** A later byte can be added before the earlier ones are shifted out. */
  lemma FeedEarly(x: bv32, y: bv32, n: nat)
    requires Low8(y) == 0
    ensures Shift(Xor(Shift(x, 8), Down8(y)), n) == Shift(Xor(x, y), 8 + n)
  {
    hide Shift, Xor, Low8, Down8;
    ShiftLinear(x, y, 8);
    ShiftPlain(y);
    ShiftAdd(Xor(x, y), 8, n);
  }

  lemma ByteFits(b3: Octet)
    ensures (b3 as bv32) & 0xff000000 == 0
  {
  }

  lemma TwoBytesFit(b2: Octet, b3: Octet)
    ensures ((b2 as bv32) ^ ((b3 as bv32) << 8)) & 0xff000000 == 0
  {
  }

  lemma ThreeBytesFit(b1: Octet, b2: Octet, b3: Octet)
    ensures ((b1 as bv32) ^ (((b2 as bv32) ^ ((b3 as bv32) << 8)) << 8)) & 0xff000000 == 0
  {
  }

  /** A word is its first byte and, above it, the others. */
  lemma LoadIsXor(b0: Octet, b1: Octet, b2: Octet, b3: Octet)
    ensures Load32(b0, b1, b2, b3) == Xor(Widen(b0), Up8(Xor(Widen(b1), Up8(Xor(Widen(b2), Up8(Widen(b3)))))))
  {
    calc {
      Load32(b0, b1, b2, b3);
      (b0 as bv32) | ((b1 as bv32) << 8) | ((b2 as bv32) << 16) | ((b3 as bv32) << 24);
      (b0 as bv32) ^ (((b1 as bv32) ^ (((b2 as bv32) ^ ((b3 as bv32) << 8)) << 8)) << 8);
      Xor(Widen(b0), Up8(Xor(b1 as bv32, Up8((b2 as bv32) ^ ((b3 as bv32) << 8)))));
      Xor(Widen(b0), Up8(Xor(Widen(b1), Up8(Xor(Widen(b2), Up8(Widen(b3)))))));
    }
  }

  lemma LoadParts(b1: Octet, b2: Octet, b3: Octet)
    ensures
      var y3 := Up8(Widen(b3));
      var y2 := Up8(Xor(Widen(b2), y3));
      var y1 := Up8(Xor(Widen(b1), y2));
      && Low8(y3) == 0 && Down8(y3) == Widen(b3)
      && Low8(y2) == 0 && Down8(y2) == Xor(Widen(b2), y3)
      && Low8(y1) == 0 && Down8(y1) == Xor(Widen(b1), y2)
  {
    hide Low8, Down8;
    var y3 := Up8(Widen(b3));
    var y2 := Up8(Xor(Widen(b2), y3));
    ByteFits(b3);
    TwoBytesFit(b2, b3);
    ThreeBytesFit(b1, b2, b3);
    UpDown(Widen(b3));
    UpDown(Xor(Widen(b2), y3));
    UpDown(Xor(Widen(b1), y2));
  }

  /** Four bytes at once are the four bytes one after the other. */
  lemma Step4IsFeeds(l: bv32, b0: Octet, b1: Octet, b2: Octet, b3: Octet)
    ensures Step4(Xor(l, Load32(b0, b1, b2, b3))) == Feed(Feed(Feed(Feed(l, b0), b1), b2), b3)
  {
    hide Shift, Step4, Load32, Xor, Low8, Down8, Up8, Widen;
    var y3 := Up8(Widen(b3));
    var y2 := Up8(Xor(Widen(b2), y3));
    var y1 := Up8(Xor(Widen(b1), y2));
    var f1, f2, f3 := Feed(l, b0), Feed(Feed(l, b0), b1), Feed(Feed(Feed(l, b0), b1), b2);
    LoadParts(b1, b2, b3);
    LoadIsXor(b0, b1, b2, b3);
    Step4IsShift(Xor(l, Load32(b0, b1, b2, b3)));
    XorAssoc(l, Widen(b0), y1);
    FeedEarly(Xor(l, Widen(b0)), y1, 24);
    XorAssoc(f1, Widen(b1), y2);
    FeedEarly(Xor(f1, Widen(b1)), y2, 16);
    XorAssoc(f2, Widen(b2), y3);
    FeedEarly(Xor(f2, Widen(b2)), y3, 8);
  }

  lemma Steps1()
    ensures Shift(1, 8) == 0xf26b8303
  {
    assert Shift(1, 1) == 0x82f63b78;
    assert Shift(1, 2) == 0x417b1dbc;
    assert Shift(1, 3) == 0x20bd8ede;
    assert Shift(1, 4) == 0x105ec76f;
    assert Shift(1, 5) == 0x8ad958cf;
    assert Shift(1, 6) == 0xc79a971f;
    assert Shift(1, 7) == 0xe13b70f7;
  }

  lemma Steps2()
    ensures Shift(1, 16) == 0x13a29877
  {
    Steps1();
    assert Shift(1, 9) == 0xfbc3faf9;
    assert Shift(1, 10) == 0xff17c604;
    assert Shift(1, 11) == 0x7f8be302;
    assert Shift(1, 12) == 0x3fc5f181;
    assert Shift(1, 13) == 0x9d14c3b8;
    assert Shift(1, 14) == 0x4e8a61dc;
    assert Shift(1, 15) == 0x274530ee;
  }

  lemma Steps3()
    ensures Shift(1, 24) == 0xa541927e
  {
    Steps2();
    assert Shift(1, 17) == 0x8b277743;
    assert Shift(1, 18) == 0xc76580d9;
    assert Shift(1, 19) == 0xe144fb14;
    assert Shift(1, 20) == 0x70a27d8a;
    assert Shift(1, 21) == 0x38513ec5;
    assert Shift(1, 22) == 0x9edea41a;
    assert Shift(1, 23) == 0x4f6f520d;
  }

  lemma Steps4()
    ensures Shift(1, 32) == 0xdd45aab8
  {
    Steps3();
    assert Shift(1, 25) == 0x52a0c93f;
    assert Shift(1, 26) == 0xaba65fe7;
    assert Shift(1, 27) == 0xd725148b;
    assert Shift(1, 28) == 0xe964b13d;
    assert Shift(1, 29) == 0xf64463e6;
    assert Shift(1, 30) == 0x7b2231f3;
    assert Shift(1, 31) == 0xbf672381;
  }

  /** Entry 1 of each of the four tables, as the code spells it. */
  lemma TableEntries()
    ensures Table(0, 1) == 0xf26b8303 && Table(1, 1) == 0x13a29877 && Table(2, 1) == 0xa541927e && Table(3, 1) == 0xdd45aab8
  {
    hide Shift;
    Steps1();
    Steps2();
    Steps3();
    Steps4();
  }

  // ---------------------------------------------------------------- the loops

  lemma FeedsSnoc(l: bv32, data: seq<Octet>, p: nat)
    requires p < |data|
    ensures Feeds(l, data[..p + 1]) == Feed(Feeds(l, data[..p]), data[p])
  {
    hide Feed;
    assert data[..p + 1][..p] == data[..p];
  }

  lemma FeedsFour(l: bv32, data: seq<Octet>, p: nat)
    requires p + 4 <= |data|
    ensures Feeds(l, data[..p + 4])
         == Step4(Xor(Feeds(l, data[..p]), Load32(data[p], data[p + 1], data[p + 2], data[p + 3])))
  {
    hide Feed, Feeds, Step4, Load32, Xor;
    FeedsSnoc(l, data, p);
    FeedsSnoc(l, data, p + 1);
    FeedsSnoc(l, data, p + 2);
    FeedsSnoc(l, data, p + 3);
    Step4IsFeeds(Feeds(l, data[..p]), data[p], data[p + 1], data[p + 2], data[p + 3]);
  }

  method StepFour(l: bv32, data: seq<Octet>, p: nat, ghost start: bv32) returns (r: bv32)
    requires p + 4 <= |data| && l == Feeds(start, data[..p])
    ensures r == Feeds(start, data[..p + 4])
  {
    hide Feeds, Step4, Load32, Xor;
    FeedsFour(start, data, p);
    r := Step4(Xor(l, Load32(data[p], data[p + 1], data[p + 2], data[p + 3])));
  }

  /** Extend on a buffer that lies at the given address: single bytes up to the first
      aligned one, then groups of 16 and of 4, then single bytes again. */
  method Extend(crc: bv32, data: seq<Octet>, address: nat) returns (r: bv32)
    ensures r == Extended(crc, data)
  {
    hide Feeds, Step1, Feed, Inverted;
    var size := |data|;
    ghost var start := Inverted(crc);
    var l := Inverted(crc);
    var p := 0;
    assert l == Feeds(start, data[..0]) by {
      NoFeeds(start, data);
    }
    var x := ((address + 3) / 4) * 4 - address;
    if x <= size {
      while p != x
        invariant 0 <= p <= x <= size && l == Feeds(start, data[..p])
        decreases x - p
      {
        Step1IsFeed(l, data[p]);
        FeedsSnoc(start, data, p);
        l := Step1(l, data[p]);
        p := p + 1;
      }
    }
    while size - p >= 16
      invariant 0 <= p <= size && l == Feeds(start, data[..p])
    {
      l := StepFour(l, data, p, start);
      l := StepFour(l, data, p + 4, start);
      l := StepFour(l, data, p + 8, start);
      l := StepFour(l, data, p + 12, start);
      p := p + 16;
    }
    while size - p >= 4
      invariant 0 <= p <= size && l == Feeds(start, data[..p])
    {
      l := StepFour(l, data, p, start);
      p := p + 4;
    }
    while p != size
      invariant 0 <= p <= size && l == Feeds(start, data[..p])
      decreases size - p
    {
      Step1IsFeed(l, data[p]);
      FeedsSnoc(start, data, p);
      l := Step1(l, data[p]);
      p := p + 1;
    }
    assert data[..size] == data;
    r := Inverted(l);
  }

  lemma NoFeeds(l: bv32, data: seq<Octet>)
    ensures Feeds(l, data[..0]) == l
  {
  }

  // ---------------------------------------------------------------- what a crc is good for

  lemma {:induction false} FeedsConcat(l: bv32, a: seq<Octet>, b: seq<Octet>)
    ensures Feeds(l, a + b) == Feeds(Feeds(l, a), b)
  {
    hide Feed;
    if b == [] {
      assert a + b == a;
    } else {
      var k := |b| - 1;
      FeedsConcat(l, a, b[..k]);
      assert (a + b)[..|a + b| - 1] == a + b[..k];
    }
  }

  /** The crc of a stream can be computed piece by piece. */
  lemma ExtendConcat(crc: bv32, a: seq<Octet>, b: seq<Octet>)
    ensures Extended(Extended(crc, a), b) == Extended(crc, a + b)
  {
    hide Feeds, Inverted;
    InvertTwice(Feeds(Inverted(crc), a));
    FeedsConcat(Inverted(crc), a, b);
  }

  function Unshift1(y: bv32): bv32 {
    if y >> 31 == 1 then ((y ^ POLYNOMIAL) << 1) | 1 else y << 1
  }

  lemma Shift1Inverse(x: bv32)
    ensures Unshift1(Shift1(x)) == x
  {
    if x & 1 == 1 {
      UnshiftOdd(x);
    } else {
      UnshiftEven(x);
    }
  }

  lemma UnshiftOdd(x: bv32)
    requires x & 1 == 1
    ensures Unshift1(Shift1(x)) == x
  {
    OddBits(x);
    calc {
      Unshift1(Shift1(x));
      Unshift1(Xor(Half(x), Feedback(x)));
      Unshift1((x >> 1) ^ POLYNOMIAL);
      x;
    }
  }

  lemma OddBits(x: bv32)
    requires x & 1 == 1
    ensures ((x >> 1) ^ POLYNOMIAL) >> 31 == 1
    ensures ((((x >> 1) ^ POLYNOMIAL) ^ POLYNOMIAL) << 1) | 1 == x
  {
  }

  lemma UnshiftEven(x: bv32)
    requires x & 1 == 0
    ensures Unshift1(Shift1(x)) == x
  {
    Shift1Plain(x);
    EvenBits(x);
  }

  lemma EvenBits(x: bv32)
    requires x & 1 == 0
    ensures (x >> 1) >> 31 == 0 && (x >> 1) << 1 == x
  {
  }

  lemma {:induction false} ShiftInjective(x: bv32, y: bv32, n: nat)
    requires Shift(x, n) == Shift(y, n)
    ensures x == y
  {
    hide Shift1, Unshift1;
    if n > 0 {
      Shift1Inverse(Shift(x, n - 1));
      Shift1Inverse(Shift(y, n - 1));
      ShiftInjective(x, y, n - 1);
    }
  }

  lemma {:induction false} FeedsInjective(l: bv32, m: bv32, data: seq<Octet>)
    requires Feeds(l, data) == Feeds(m, data)
    ensures l == m
  {
    hide Shift, Xor, Widen;
    if data != [] {
      var k := |data| - 1;
      var x, y, b := Feeds(l, data[..k]), Feeds(m, data[..k]), Widen(data[k]);
      ShiftInjective(Xor(x, b), Xor(y, b), 8);
      XorCancel(x, y, b);
      FeedsInjective(l, m, data[..k]);
    }
  }

  lemma WidenInjective(x: Octet, y: Octet)
    requires Widen(x) == Widen(y)
    ensures x == y
  {
  }

  lemma FeedInjective(l: bv32, x: Octet, y: Octet)
    requires Feed(l, x) == Feed(l, y)
    ensures x == y
  {
    hide Shift, Xor, Widen;
    ShiftInjective(Xor(l, Widen(x)), Xor(l, Widen(y)), 8);
    XorComm(l, Widen(x));
    XorComm(l, Widen(y));
    XorCancel(Widen(x), Widen(y), l);
    WidenInjective(x, y);
  }

  /** Changing a single byte always changes the crc. */
  lemma OneByteDetected(a: seq<Octet>, x: Octet, y: Octet, b: seq<Octet>)
    ensures Checksum(a + [x] + b) == Checksum(a + [y] + b) <==> x == y
  {
    hide Feed, Feeds, Inverted;
    if Checksum(a + [x] + b) == Checksum(a + [y] + b) {
      var l := Inverted(0);
      InvertTwice(Feeds(l, a + [x] + b));
      InvertTwice(Feeds(l, a + [y] + b));
      FeedsConcat(l, a + [x], b);
      FeedsConcat(l, a + [y], b);
      FeedsInjective(Feeds(l, a + [x]), Feeds(l, a + [y]), b);
      assert (a + [x])[..|a|] == a && (a + [y])[..|a|] == a;
      assert (a + [x])[..|a| + 1] == a + [x] && (a + [y])[..|a| + 1] == a + [y];
      FeedsSnoc(l, a + [x], |a|);
      FeedsSnoc(l, a + [y], |a|);
      FeedInjective(Feeds(l, a), x, y);
    }
  }

  // ---------------------------------------------------------------- the stored form

  function Mask(crc: bv32): bv32 {
    ((crc >> 15) | (crc << 17)) + MASK_DELTA
  }

  function Unmask(masked: bv32): bv32 {
    var rot := masked - MASK_DELTA;
    (rot >> 17) | (rot << 15)
  }

  /** Masking loses nothing, in either direction. */
  lemma MaskInverse(crc: bv32)
    ensures Unmask(Mask(crc)) == crc && Mask(Unmask(crc)) == crc
  {
    Rotate(crc);
    Rotate(crc - MASK_DELTA);
    assert ((crc >> 15) | (crc << 17)) + MASK_DELTA - MASK_DELTA == (crc >> 15) | (crc << 17);
    assert crc - MASK_DELTA + MASK_DELTA == crc;
  }

  lemma Rotate(x: bv32)
    ensures ((((x >> 15) | (x << 17)) >> 17) | (((x >> 15) | (x << 17)) << 15)) == x
    ensures ((((x >> 17) | (x << 15)) >> 15) | (((x >> 17) | (x << 15)) << 17)) == x
  {
  }
}
