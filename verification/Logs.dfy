/** The log format: records cut into fragments that never cross a block of 32 KB, the
    writer that appends them and the reader that puts them together again. */
module Logs {
  import opened InternalKeys
  import opened Crc32c
  import opened Bytes

  const BLOCK_SIZE := 32768
  const HEADER_SIZE := 7

  const ZERO_TYPE := 0
  const FULL_TYPE := 1
  const FIRST_TYPE := 2
  const MIDDLE_TYPE := 3
  const LAST_TYPE := 4
  const MAX_RECORD_TYPE := 4

  // ---------------------------------------------------------------- one physical record

  function Length(low: byte, high: byte): nat {
    low as nat + 256 * high as nat
  }

  /** A type and a payload as they are stored: masked checksum, length, type, payload. */
  function Fragment(t: nat, payload: Data): (r: Data)
    requires t < 256 && |payload| < 65536
    ensures |r| == HEADER_SIZE + |payload|
  {
    EncodeFixed32(Mask(Crc([t as byte] + payload)))
    + [(|payload| % 256) as byte, (|payload| / 256) as byte, t as byte] + payload
  }

  lemma FragmentParts(t: nat, payload: Data, b: Data)
    requires t < 256 && |payload| < 65536
    requires |b| >= HEADER_SIZE && b[..HEADER_SIZE] == Fragment(t, payload)[..HEADER_SIZE]
    ensures Length(b[4], b[5]) == |payload| && b[6] as nat == t
    ensures Unmask(DecodeFixed32(b)) == Crc([t as byte] + payload)
  {
    hide Mask, Unmask, Checksum, EncodeFixed32, Load32, Crc;
    var f := Fragment(t, payload);
    var crc := Crc([t as byte] + payload);
    var head := EncodeFixed32(Mask(crc));
    assert forall i :: 0 <= i < HEADER_SIZE ==> b[i] == b[..HEADER_SIZE][i] && b[i] == f[i];
    assert b[0] == head[0] && b[1] == head[1] && b[2] == head[2] && b[3] == head[3];
    Fixed32Inverse(Mask(crc));
    MaskInverse(crc);
  }

  // ---------------------------------------------------------------- the byte stream of some records

  /** Bytes left in the block of `pos`. */
  function Room(pos: nat): nat {
    BLOCK_SIZE - pos % BLOCK_SIZE
  }

  lemma NextBlock(pos: nat)
    ensures (pos + Room(pos)) % BLOCK_SIZE == 0
  {
  }

  /** Where the next fragment starts: a block's last six bytes hold none. */
  function Start(pos: nat): (p: nat)
    ensures pos <= p < pos + HEADER_SIZE && Room(p) >= HEADER_SIZE
    ensures p == pos || (p == pos + Room(pos) && p % BLOCK_SIZE == 0)
  {
    if Room(pos) < HEADER_SIZE then
      NextBlock(pos);
      pos + Room(pos)
    else pos
  }

  /** How much of the data goes into a fragment that starts at `p`. */
  function Take(p: nat, data: Data): (n: nat)
    requires Room(p) >= HEADER_SIZE
    ensures n <= |data| && HEADER_SIZE + n <= Room(p) && n < 65536
  {
    if |data| < Room(p) - HEADER_SIZE then |data| else Room(p) - HEADER_SIZE
  }

  function TypeOf(begin: bool, end: bool): (t: nat)
    ensures FULL_TYPE <= t <= LAST_TYPE
  {
    if begin && end then FULL_TYPE else if begin then FIRST_TYPE else if end then LAST_TYPE else MIDDLE_TYPE
  }

  /** What is left of the records when `n` more bytes of the first one are written. */
  function After(rs: seq<Data>, n: nat): seq<Data>
    requires rs != [] && n <= |rs[0]|
  {
    if n == |rs[0]| then rs[1..] else [rs[0][n..]] + rs[1..]
  }

  /** What the writer appends at `pos` for the records `rs`; `begin` says whether the
      first of them has no fragment in the log yet. */
  function Stream(pos: nat, rs: seq<Data>, begin: bool): Data
    decreases |rs|, if rs == [] then 0 else |rs[0]|, Room(Start(pos)) == HEADER_SIZE
  {
    if rs == [] then []
    else
      var p := Start(pos);
      var n := Take(p, rs[0]);
      FullBlockEnds(p);
      Zeros(p - pos) + Fragment(TypeOf(begin, n == |rs[0]|), rs[0][..n])
      + Stream(p + HEADER_SIZE + n, After(rs, n), n == |rs[0]|)
  }

  lemma FullBlockEnds(p: nat)
    ensures Room(p + Room(p)) == BLOCK_SIZE && Start(p + Room(p)) == p + Room(p)
  {
    NextBlock(p);
  }

  /** The first fragment, and what follows it. */
  lemma StreamUnfold(pos: nat, rs: seq<Data>, begin: bool)
    requires rs != []
    ensures
      var p := Start(pos);
      var n := Take(p, rs[0]);
      && Stream(pos, rs, begin) == Zeros(p - pos) + Fragment(TypeOf(begin, n == |rs[0]|), rs[0][..n])
                                   + Stream(p + HEADER_SIZE + n, After(rs, n), n == |rs[0]|)
      && |Stream(pos, rs, begin)| == p - pos + HEADER_SIZE + n
                                     + |Stream(p + HEADER_SIZE + n, After(rs, n), n == |rs[0]|)|
  {
    hide Fragment;
  }

  /** Records can be appended one after the other. */
  lemma {:induction false} StreamConcat(pos: nat, rs: seq<Data>, more: seq<Data>, begin: bool)
    requires rs == [] ==> begin
    ensures Stream(pos, rs + more, begin)
         == Stream(pos, rs, begin) + Stream(pos + |Stream(pos, rs, begin)|, more, true)
    decreases |Stream(pos, rs, begin)|, |rs|
  {
    hide Stream, Fragment, Start, Take, Zeros;
    if rs == [] {
      assert rs + more == more;
      StreamOfNothing(pos, begin);
    } else {
      var p := Start(pos);
      var n := Take(p, rs[0]);
      assert After(rs + more, n) == After(rs, n) + more;
      StreamUnfold(pos, rs, begin);
      StreamUnfold(pos, rs + more, begin);
      StreamConcat(p + HEADER_SIZE + n, After(rs, n), more, n == |rs[0]|);
    }
  }

  lemma StreamOfNothing(pos: nat, begin: bool)
    ensures Stream(pos, [], begin) == []
  {
  }

  lemma Regroup(a: Data, b: Data, c: Data)
    ensures a + b + c == a + (b + c) && [] + b == b
  {
  }

  lemma Regroup4(dest: Data, left: Data, begin: bool, n: nat)
    requires n == Take(Start(|dest|), left)
    ensures
      var p := Start(|dest|);
      dest + Stream(|dest|, [left], begin)
      == dest + Zeros(p - |dest|) + Fragment(TypeOf(begin, n == |left|), left[..n])
         + Stream(p + HEADER_SIZE + n, After([left], n), n == |left|)
  {
    hide Fragment, Take, Stream, Start, TypeOf, Zeros;
    StreamUnfold(|dest|, [left], begin);
  }

  // ---------------------------------------------------------------- the writer

  /** `dest` is the file so far; `blockOffset` where in its block it ends. */
  class Writer {
    var dest: Data
    var blockOffset: nat
    const typeCrc: seq<bv32>

    constructor (dest: Data)
      ensures Valid() && this.dest == dest
    {
      this.dest, blockOffset := dest, |dest| % BLOCK_SIZE;
      typeCrc := seq(MAX_RECORD_TYPE + 1, t requires 0 <= t <= MAX_RECORD_TYPE => Checksum([t as Octet]));
    }

    ghost predicate Valid()
      reads this
    {
      && blockOffset <= BLOCK_SIZE
      && (if blockOffset == BLOCK_SIZE then |dest| % BLOCK_SIZE == 0 else |dest| % BLOCK_SIZE == blockOffset)
      && |typeCrc| == MAX_RECORD_TYPE + 1
      && forall t :: 0 <= t <= MAX_RECORD_TYPE ==> typeCrc[t] == Checksum([t as Octet])
    }

    /** Appends the fragments of one record. */
    method AddRecord(record: Data)
      requires Valid()
      modifies this`dest, this`blockOffset
      ensures Valid()
      ensures dest == old(dest) + Stream(|old(dest)|, [record], true)
    {
      hide Stream, Valid;
      var left := record;
      var begin := true;
      var more := true;
      while more
        invariant Valid()
        invariant old(dest) + Stream(|old(dest)|, [record], true)
               == dest + if more then Stream(|dest|, [left], begin) else []
        decreases if more then |Stream(|dest|, [left], begin)| + 1 else 0
      {
        var n := AddPart(left, begin);
        StreamOfNothing(|dest|, true);
        left := left[n..];
        begin := false;
        more := |left| > 0;
      }
    }

    /** Appends the next fragment of a record, in a new block if need be. */
    method AddPart(left: Data, begin: bool) returns (n: nat)
      requires Valid()
      modifies this`dest, this`blockOffset
      ensures Valid() && n <= |left|
      ensures old(dest) + Stream(|old(dest)|, [left], begin)
           == dest + Stream(|dest|, if n == |left| then [] else [left[n..]], n == |left|)
      ensures |Stream(|dest|, if n == |left| then [] else [left[n..]], n == |left|)| < |Stream(|old(dest)|, [left], begin)|
    {
      hide Stream, Fragment, Start, Take, Zeros, Valid, TypeOf;
      ghost var before := dest;
      StreamUnfold(|dest|, [left], begin);
      SkipTrailer();
      n := AddFragment(left, begin);
      assert After([left], n) == if n == |left| then [] else [left[n..]];
      Regroup4(before, left, begin, n);
    }

    /** Fills up a block that has no room for a header. */
    method SkipTrailer()
      requires Valid()
      modifies this`dest, this`blockOffset
      ensures Valid() && dest == old(dest) + Zeros(Start(|old(dest)|) - |old(dest)|)
      ensures blockOffset + HEADER_SIZE <= BLOCK_SIZE && Room(|dest|) == BLOCK_SIZE - blockOffset
    {
      hide Checksum;
      var leftover := BLOCK_SIZE - blockOffset;
      NextBlock(|dest|);
      if leftover < HEADER_SIZE {
        if leftover > 0 {
          dest := dest + Zeros(leftover);
        }
        blockOffset := 0;
      }
    }

    /** The largest fragment that fits. */
    method AddFragment(left: Data, begin: bool) returns (n: nat)
      requires Valid() && blockOffset + HEADER_SIZE <= BLOCK_SIZE && Room(|dest|) == BLOCK_SIZE - blockOffset
      modifies this`dest, this`blockOffset
      ensures Valid() && n == Take(|old(dest)|, left)
      ensures dest == old(dest) + Fragment(TypeOf(begin, n == |left|), left[..n])
    {
      hide Checksum, Fragment, Valid;
      var avail := BLOCK_SIZE - blockOffset - HEADER_SIZE;
      n := if |left| < avail then |left| else avail;
      var end := |left| == n;
      var t := if begin && end then FULL_TYPE else if begin then FIRST_TYPE else if end then LAST_TYPE else MIDDLE_TYPE;
      EmitPhysicalRecord(t, left[..n]);
    }

    method EmitPhysicalRecord(t: nat, payload: Data)
      requires Valid()
      requires 1 <= t <= MAX_RECORD_TYPE && blockOffset + HEADER_SIZE + |payload| <= BLOCK_SIZE
      modifies this`dest, this`blockOffset
      ensures Valid()
      ensures dest == old(dest) + Fragment(t, payload)
    {
      hide Crc, Checksum, Mask;
      var crc := Mask(Extended(typeCrc[t], Octets(payload)));
      TypedCrc(t, payload);
      var n := |payload|;
      var header := EncodeFixed32(crc) + [(n % 256) as byte, (n / 256) as byte, t as byte];
      dest := dest + header;
      dest := dest + payload;
      blockOffset := blockOffset + HEADER_SIZE + n;
    }
  }

  /** The checksum of a type and a payload, begun with the type. */
  lemma TypedCrc(t: nat, payload: Data)
    requires t < 256
    ensures Extended(Checksum([t as Octet]), Octets(payload)) == Crc([t as byte] + payload)
  {
    hide Extended;
    ExtendConcat(0, [t as Octet], Octets(payload));
    OctetsConcat([t as byte], payload);
    assert Octets([t as byte]) == [t as Octet];
  }

  // ---------------------------------------------------------------- the reader

  const EOF := MAX_RECORD_TYPE + 1
  const BAD_RECORD := MAX_RECORD_TYPE + 2

  lemma StartTwice(pos: nat)
    ensures Start(Start(pos)) == Start(pos)
  {
  }

  lemma StreamSkip(pos: nat, rs: seq<Data>, begin: bool)
    requires rs != []
    ensures Stream(pos, rs, begin) == Zeros(Start(pos) - pos) + Stream(Start(pos), rs, begin)
  {
    hide Fragment, Take, Stream, Start, TypeOf, Zeros;
    StartTwice(pos);
    StreamUnfold(pos, rs, begin);
    StreamUnfold(Start(pos), rs, begin);
    var n := Take(Start(pos), rs[0]);
    var f := Fragment(TypeOf(begin, n == |rs[0]|), rs[0][..n]);
    var rest := Stream(Start(pos) + HEADER_SIZE + n, After(rs, n), n == |rs[0]|);
    Regroup(Zeros(Start(pos) - pos), f, rest);
    Regroup([], f, rest);
    assert Zeros(0) == [];
  }

  /** A fragment that starts where it may has no zeros before it. */
  lemma StreamHere(pos: nat, rs: seq<Data>, begin: bool)
    requires rs != [] && Start(pos) == pos
    ensures
      var n := Take(pos, rs[0]);
      && Stream(pos, rs, begin) == Fragment(TypeOf(begin, n == |rs[0]|), rs[0][..n])
                                   + Stream(pos + HEADER_SIZE + n, After(rs, n), n == |rs[0]|)
  {
    hide Fragment, Take, Stream, Start, TypeOf, Zeros;
    StreamUnfold(pos, rs, begin);
    assert Zeros(0) == [];
    var n := Take(pos, rs[0]);
    Regroup([], Fragment(TypeOf(begin, n == |rs[0]|), rs[0][..n]),
            Stream(pos + HEADER_SIZE + n, After(rs, n), n == |rs[0]|));
  }

  lemma CutSuffix(s: Data, a: Data, b: Data)
    requires s <= a + b && |a| <= |s|
    ensures s[|a|..] <= b && s[..|a|] == a
  {
    assert s == (a + b)[..|s|];
  }

  lemma CutPrefix(s: Data, a: Data, b: Data, n: nat)
    requires s <= a + b && n <= |a| && n <= |s|
    ensures s[..n] == a[..n]
  {
    assert s == (a + b)[..|s|];
  }

  /** `buffer` is what has been read and not parsed: the end of `file[..filePos]`. */
  class Reader {
    const file: Data
    var filePos: nat
    var buffer: Data
    var eof: bool
    var endOfBufferOffset: nat
    var lastRecordOffset: nat
    var reports: seq<nat>        // sizes of the reported corruptions

    constructor (file: Data)
      ensures Valid() && this.file == file && Pos() == 0 && reports == []
    {
      this.file := file;
      filePos, buffer, eof := 0, [], false;
      endOfBufferOffset, lastRecordOffset, reports := 0, 0, [];
    }

    ghost predicate Valid()
      reads this`filePos, this`buffer, this`eof, this`endOfBufferOffset
    {
      && |buffer| <= filePos <= |file|
      && buffer == file[filePos - |buffer|..filePos]
      && endOfBufferOffset == filePos
      && (!eof ==> filePos % BLOCK_SIZE == 0 && |buffer| <= BLOCK_SIZE)
      && (eof ==> filePos == |file| && |buffer| <= filePos % BLOCK_SIZE)
    }

    /** Where the next physical record is looked for. */
    function Pos(): nat
      requires |buffer| <= filePos
      reads this`filePos, this`buffer
    {
      filePos - |buffer|
    }

    /** The rest of the file is a cut of what a writer appends here for `rs`. */
    ghost predicate At(rs: seq<Data>, begin: bool)
      requires Valid()
      reads this`filePos, this`buffer, this`eof, this`endOfBufferOffset
    {
      file[Pos()..] <= Stream(Pos(), rs, begin)
    }

    method ReportCorruption(bytes: nat)
      modifies this`reports
      ensures reports == old(reports) + [bytes]
    {
      reports := reports + [bytes];
    }

    method Clear()
      requires Valid()
      modifies this`buffer
      ensures Valid() && buffer == [] && Pos() == filePos
    {
      buffer := [];
    }

    /** Reads the next block; a short read is the end of the file. */
    method ReadBlock()
      requires Valid() && !eof
      modifies this`filePos, this`buffer, this`eof, this`endOfBufferOffset
      ensures Valid() && Pos() == old(filePos)
      ensures filePos == old(filePos) ==> eof
      ensures old(filePos) <= filePos
    {
      buffer := [];
      var n := if |file| - filePos < BLOCK_SIZE then |file| - filePos else BLOCK_SIZE;
      buffer := file[filePos..filePos + n];
      BlockStep(filePos, n);
      filePos := filePos + n;
      endOfBufferOffset := endOfBufferOffset + |buffer|;
      if |buffer| < BLOCK_SIZE {
        eof := true;
      }
    }

    /** The next fragment is whole in the file. */
    ghost predicate FragmentFits(pos: nat, rs: seq<Data>) {
      rs != [] && Start(pos) + HEADER_SIZE + Take(Start(pos), rs[0]) <= |file|
    }

    /** Less than a header is left in the block. */
    lemma ShortBuffer(rs: seq<Data>, begin: bool)
      requires Valid() && At(rs, begin) && |buffer| < HEADER_SIZE
      ensures !eof && rs != [] ==> Start(Pos()) == Start(filePos) == filePos && file[filePos..] <= Stream(filePos, rs, begin)
      ensures !eof && rs == [] ==> Pos() == filePos
      ensures eof ==> !FragmentFits(Pos(), rs)
    {
      hide Stream, Take, Zeros;
      if !eof {
        if rs != [] {
          RoomToBoundary(Pos(), filePos);
          StreamSkip(Pos(), rs, begin);
          CutSuffix(file[Pos()..], Zeros(Start(Pos()) - Pos()), Stream(Start(Pos()), rs, begin));
        } else {
          StreamOfNothing(Pos(), begin);
        }
      }
    }

    /** What the header at the start of the buffer says. */
    lemma HeaderHere(rs: seq<Data>, begin: bool)
      requires Valid() && At(rs, begin) && |buffer| >= HEADER_SIZE
      ensures rs != [] && Start(Pos()) == Pos()
      ensures
        var n := Take(Pos(), rs[0]);
        var t := TypeOf(begin, n == |rs[0]|);
        && Length(buffer[4], buffer[5]) == n && buffer[6] as nat == t
        && Unmask(DecodeFixed32(buffer)) == Crc([t as byte] + rs[0][..n])
        && (HEADER_SIZE + n <= |buffer| <==> FragmentFits(Pos(), rs))
        && (HEADER_SIZE + n > |buffer| ==> eof)
    {
      hide Stream, Fragment, Take, Zeros, Crc, Unmask, Load32;
      var pos := Pos();
      RoomInBuffer();
      if rs == [] {
        StreamOfNothing(pos, begin);
        assert false;
      }
      StreamHere(pos, rs, begin);
      var n := Take(pos, rs[0]);
      var t := TypeOf(begin, n == |rs[0]|);
      var f := Fragment(t, rs[0][..n]);
      var rest := Stream(pos + HEADER_SIZE + n, After(rs, n), n == |rs[0]|);
      CutPrefix(file[pos..], f, rest, HEADER_SIZE);
      assert buffer[..HEADER_SIZE] == file[pos..][..HEADER_SIZE];
      FragmentParts(t, rs[0][..n], buffer);
    }

    /** The fragment is the expected one, and what follows is a cut of the rest. */
    lemma FragmentHere(rs: seq<Data>, begin: bool)
      requires Valid() && At(rs, begin) && |buffer| >= HEADER_SIZE
      requires rs != [] && FragmentFits(Pos(), rs) && Start(Pos()) == Pos()
      ensures
        var n := Take(Pos(), rs[0]);
        && HEADER_SIZE + n <= |buffer| && buffer[HEADER_SIZE..HEADER_SIZE + n] == rs[0][..n]
        && file[Pos() + HEADER_SIZE + n..] <= Stream(Pos() + HEADER_SIZE + n, After(rs, n), n == |rs[0]|)
    {
      hide Stream, Fragment, Take, Zeros, TypeOf, Start;
      HeaderHere(rs, begin);
      var pos := Pos();
      StreamHere(pos, rs, begin);
      var n := Take(pos, rs[0]);
      var t := TypeOf(begin, n == |rs[0]|);
      var f := Fragment(t, rs[0][..n]);
      var rest := Stream(pos + HEADER_SIZE + n, After(rs, n), n == |rs[0]|);
      CutSuffix(file[pos..], f, rest);
      assert file[pos..][HEADER_SIZE + n..] == file[pos + HEADER_SIZE + n..];
      FragmentPayload(t, rs[0][..n]);
      SliceOfBuffer(n);
    }

    lemma SliceOfBuffer(n: nat)
      requires Valid() && HEADER_SIZE + n <= |buffer|
      ensures buffer[HEADER_SIZE..HEADER_SIZE + n] == file[Pos()..][..HEADER_SIZE + n][HEADER_SIZE..]
    {
      assert forall i :: 0 <= i < |buffer| ==> buffer[i] == file[Pos() + i];
    }

    lemma RoomInBuffer()
      requires Valid() && |buffer| >= HEADER_SIZE
      ensures Room(Pos()) >= |buffer| && Start(Pos()) == Pos()
      ensures !eof ==> Room(Pos()) == |buffer|
      ensures eof ==> filePos == |file|
    {
      if eof {
        BackInBlock(filePos, |buffer|);
      } else {
        RoomToBoundary(Pos(), filePos);
      }
    }

    /** Reads on until the buffer holds a header, or the file ends. */
    method FillBuffer(ghost rs: seq<Data>, ghost begin: bool)
      requires Valid()
      modifies this`filePos, this`buffer, this`eof, this`endOfBufferOffset
      ensures Valid() && Pos() >= old(Pos())
      ensures |buffer| < HEADER_SIZE ==> eof
      ensures old(At(rs, begin)) ==> At(rs, begin) && (rs != [] ==> Start(Pos()) == Start(old(Pos())))
    {
      hide Stream, Start;
      ghost var good := At(rs, begin);
      while |buffer| < HEADER_SIZE && !eof
        invariant Valid() && Pos() >= old(Pos())
        invariant good ==> At(rs, begin) && (rs != [] ==> Start(Pos()) == Start(old(Pos())))
        decreases |file| - filePos, !eof
      {
        if good {
          ShortBuffer(rs, begin);
        }
        ReadBlock();
      }
    }

    /** One physical record. On a cut of a writer's stream it is the next fragment, if
        that is whole, and nothing is reported. */
    method ReadPhysicalRecord(ghost rs: seq<Data>, ghost begin: bool) returns (t: nat, fragment: Data)
      requires Valid()
      modifies this`filePos, this`buffer, this`eof, this`endOfBufferOffset, this`reports
      ensures Valid()
      ensures if t == EOF then Pos() >= old(Pos()) else Pos() > old(Pos())
      ensures t != EOF && t != BAD_RECORD ==> Pos() >= HEADER_SIZE + |fragment|
      ensures old(At(rs, begin)) ==> reports == old(reports) && (t == EOF <==> !FragmentFits(old(Pos()), rs))
      ensures old(At(rs, begin)) && t != EOF ==>
        var p := Start(old(Pos()));
        var n := Take(p, rs[0]);
        && t == TypeOf(begin, n == |rs[0]|) && fragment == rs[0][..n]
        && Pos() == p + HEADER_SIZE + n && At(After(rs, n), n == |rs[0]|)
    {
      hide Stream, Take, Crc, Unmask, DecodeFixed32, TypeOf, Start;
      ghost var good := At(rs, begin);
      FillBuffer(rs, begin);
      if |buffer| < HEADER_SIZE {
        if good {
          ShortBuffer(rs, begin);
        }
        Clear();
        return EOF, [];
      }
      t, fragment := ParseRecord(rs, begin);
    }

    /** The physical record at the start of the buffer. */
    method ParseRecord(ghost rs: seq<Data>, ghost begin: bool) returns (t: nat, fragment: Data)
      requires Valid() && |buffer| >= HEADER_SIZE
      modifies this`buffer, this`reports
      ensures Valid()
      ensures if t == EOF then Pos() >= old(Pos()) else Pos() > old(Pos())
      ensures t != EOF && t != BAD_RECORD ==> Pos() >= HEADER_SIZE + |fragment|
      ensures old(At(rs, begin)) ==>
        && reports == old(reports)
        && rs != [] && Start(old(Pos())) == old(Pos())
        && (t == EOF <==> !FragmentFits(old(Pos()), rs))
      ensures old(At(rs, begin)) && t != EOF ==>
        var n := Take(old(Pos()), rs[0]);
        && t == TypeOf(begin, n == |rs[0]|) && fragment == rs[0][..n]
        && Pos() == old(Pos()) + HEADER_SIZE + n && At(After(rs, n), n == |rs[0]|)
    {
      hide Stream, Take, Crc, Unmask, DecodeFixed32, TypeOf, Start, At, FragmentFits, Length;
      ghost var good := At(rs, begin);
      fragment := [];
      var length := Length(buffer[4], buffer[5]);
      t := buffer[6] as nat;
      if good {
        HeaderHere(rs, begin);
      }
      if HEADER_SIZE + length > |buffer| {
        var dropSize := |buffer|;
        Clear();
        if !eof {
          ReportCorruption(dropSize);
          return BAD_RECORD, fragment;
        }
        return EOF, fragment;
      }
      if t == ZERO_TYPE && length == 0 {
        Clear();
        return BAD_RECORD, fragment;
      }
      if good {
        FragmentHere(rs, begin);
        TypeAndPayload(buffer, length);
      }
      if Crc(buffer[6..7 + length]) != Unmask(DecodeFixed32(buffer)) {
        var dropSize := |buffer|;
        Clear();
        ReportCorruption(dropSize);
        return BAD_RECORD, fragment;
      }
      fragment := buffer[HEADER_SIZE..HEADER_SIZE + length];
      Consume(HEADER_SIZE + length);
      if good {
        NowAt(After(rs, length), length == |rs[0]|);
      }
    }

    lemma Bounds()
      requires Valid()
      ensures |buffer| <= filePos <= |file| && endOfBufferOffset == filePos
    {
    }

    lemma FitsBy(pos: nat, rs: seq<Data>)
      ensures FragmentFits(pos, rs) ==> rs != []
      ensures rs != [] ==> (FragmentFits(pos, rs) <==> Start(pos) + HEADER_SIZE + Take(Start(pos), rs[0]) <= |file|)
    {
    }

    lemma NowAt(rs: seq<Data>, begin: bool)
      requires Valid() && file[Pos()..] <= Stream(Pos(), rs, begin)
      ensures At(rs, begin)
    {
    }

    method Consume(n: nat)
      requires Valid() && n <= |buffer|
      modifies this`buffer
      ensures Valid() && Pos() == old(Pos()) + n
    {
      buffer := buffer[n..];
    }

    /** One logical record, or none at the end of the file. */
    method ReadRecord(ghost rs: seq<Data>) returns (r: Option<Data>)
      requires Valid()
      modifies this`filePos, this`buffer, this`eof, this`endOfBufferOffset, this`reports, this`lastRecordOffset
      ensures Valid()
      ensures r.Some? ==> Pos() > old(Pos())
      ensures old(At(rs, true)) ==>
        && reports == old(reports)
        && (r.None? <==> rs == [] || |file| < EndOf(old(Pos()), [rs[0]], true))
      ensures old(At(rs, true)) && r.Some? ==>
        && r.value == rs[0] && At(rs[1..], true) && Pos() == EndOf(old(Pos()), [rs[0]], true)
        && lastRecordOffset == Start(old(Pos()))
    {
      hide Stream, Start, EndOf, At, Scanning, FragmentFits, Valid;
      Bounds();
      ghost var good := At(rs, true);
      ghost var pos0 := Pos();
      var scratch: Data := [];
      var inFragmented := false;
      var prospectiveOffset: nat := 0;
      ghost var cur := rs;
      ScanBegins(pos0, rs);
      r := None;
      var done := false;
      while !done
        invariant Valid() && |buffer| <= filePos && pos0 <= Pos() <= |file|
        invariant good ==> reports == old(reports)
        invariant !done ==> r.None?
        invariant !done && good ==> ScansAt(pos0, rs, cur, inFragmented, scratch, prospectiveOffset)
        invariant done && r.Some? ==> Pos() > pos0
        invariant done && good ==> (r.None? <==> rs == [] || |file| < EndOf(pos0, [rs[0]], true))
        invariant done && good && r.Some? ==>
          r.value == rs[0] && At(rs[1..], true) && Pos() == EndOf(pos0, [rs[0]], true) && lastRecordOffset == Start(pos0)
        decreases !done, |file| - Pos()
      {
        r, done, scratch, inFragmented, prospectiveOffset, cur :=
          NextFragment(pos0, rs, cur, scratch, inFragmented, prospectiveOffset);
        Bounds();
      }
    }

    /** One turn of ReadRecord's loop. */
    method NextFragment(ghost pos0: nat, ghost rs: seq<Data>, ghost cur: seq<Data>,
                        scratch: Data, inFragmented: bool, prospectiveOffset: nat)
      returns (r: Option<Data>, done: bool, scratch': Data, inFragmented': bool, prospectiveOffset': nat,
               ghost cur': seq<Data>)
      requires Valid()
      modifies this`filePos, this`buffer, this`eof, this`endOfBufferOffset, this`reports, this`lastRecordOffset
      ensures Valid() && Pos() >= old(Pos()) && (r.Some? ==> done) && (!done || r.Some? ==> Pos() > old(Pos()))
      ensures old(ScansAt(pos0, rs, cur, inFragmented, scratch, prospectiveOffset)) ==>
        && reports == old(reports)
        && (!done ==> ScansAt(pos0, rs, cur', inFragmented', scratch', prospectiveOffset'))
        && (done ==> (r.None? <==> rs == [] || |file| < EndOf(pos0, [rs[0]], true)))
        && (r.Some? ==>
              r.value == rs[0] && At(rs[1..], true) && Pos() == EndOf(pos0, [rs[0]], true) && lastRecordOffset == Start(pos0))
    {
      hide Stream, Take, Start, EndOf, At, Scanning, After, FragmentFits, Valid;
      Bounds();
      ghost var good := ScansAt(pos0, rs, cur, inFragmented, scratch, prospectiveOffset);
      ghost var pos := Pos();
      cur' := cur;
      if good {
        ScanStep(pos0, rs, pos, cur, inFragmented, scratch);
        FitsBy(pos, cur);
      }
      var t, fragment := ReadPhysicalRecord(cur, !inFragmented);
      Bounds();
      var physicalOffset := endOfBufferOffset - |buffer| - HEADER_SIZE - |fragment|;
      if good && t != EOF {
        cur' := After(cur, Take(Start(pos), cur[0]));
      }
      r, scratch', inFragmented', prospectiveOffset' :=
        UseFragment(t, fragment, physicalOffset, scratch, inFragmented, prospectiveOffset);
      done := r.Some? || t == EOF;
    }

    /** What ReadRecord's loop keeps. */
    ghost predicate ScansAt(pos0: nat, rs: seq<Data>, cur: seq<Data>, inFragmented: bool, scratch: Data, prospectiveOffset: nat)
      requires Valid()
      reads this`filePos, this`buffer, this`eof, this`endOfBufferOffset
    {
      && At(cur, !inFragmented) && Scanning(pos0, rs, Pos(), cur, inFragmented, scratch)
      && if inFragmented then prospectiveOffset == Start(pos0) else Pos() == pos0
    }

    /** What ReadRecord does with a physical record. */
    method UseFragment(t: nat, fragment: Data, physicalOffset: int, scratch: Data, inFragmented: bool, prospectiveOffset: nat)
      returns (r: Option<Data>, scratch': Data, inFragmented': bool, prospectiveOffset': nat)
      requires t != EOF && t != BAD_RECORD ==> physicalOffset >= 0
      modifies this`reports, this`lastRecordOffset
      ensures t == FULL_TYPE ==> r == Some(fragment) && lastRecordOffset == physicalOffset
      ensures t == FIRST_TYPE ==> r.None? && scratch' == fragment && inFragmented' && prospectiveOffset' == physicalOffset
      ensures t == MIDDLE_TYPE && inFragmented ==>
        r.None? && scratch' == scratch + fragment && inFragmented' && prospectiveOffset' == prospectiveOffset
      ensures t == LAST_TYPE && inFragmented ==> r == Some(scratch + fragment) && lastRecordOffset == prospectiveOffset
      ensures t == EOF || t == BAD_RECORD ==> r.None?
      ensures t == EOF ==> reports == old(reports)
      ensures (t == FULL_TYPE || t == FIRST_TYPE) && !inFragmented ==> reports == old(reports)
      ensures (t == MIDDLE_TYPE || t == LAST_TYPE) && inFragmented ==> reports == old(reports)
    {
      r, scratch', inFragmented', prospectiveOffset' := None, scratch, inFragmented, prospectiveOffset;
      if t == FULL_TYPE {
        if inFragmented {
          if scratch == [] {
            inFragmented' := false;
          } else {
            ReportCorruption(|scratch|);
          }
        }
        lastRecordOffset := physicalOffset;
        r := Some(fragment);
      } else if t == FIRST_TYPE {
        if inFragmented {
          if scratch == [] {
            inFragmented' := false;
          } else {
            ReportCorruption(|scratch|);
          }
        }
        prospectiveOffset' := physicalOffset;
        scratch' := fragment;
        inFragmented' := true;
      } else if t == MIDDLE_TYPE {
        if !inFragmented {
          ReportCorruption(|fragment|);
        } else {
          scratch' := scratch + fragment;
        }
      } else if t == LAST_TYPE {
        if !inFragmented {
          ReportCorruption(|fragment|);
        } else {
          lastRecordOffset := prospectiveOffset;
          r := Some(scratch + fragment);
        }
      } else if t == EOF {
        scratch' := [];
      } else if t == BAD_RECORD {
        if inFragmented {
          ReportCorruption(|scratch|);
          inFragmented' := false;
          scratch' := [];
        }
      } else {
        ReportCorruption(|fragment| + if inFragmented then |scratch| else 0);
        inFragmented' := false;
        scratch' := [];
      }
    }

    /** Reads records until there are no more. On a cut of a writer's stream these are
        exactly the records that are whole in the file. */
    method ReadAll(ghost rs: seq<Data>) returns (records: seq<Data>)
      requires Valid()
      modifies this`filePos, this`buffer, this`eof, this`endOfBufferOffset, this`reports, this`lastRecordOffset
      ensures old(At(rs, true)) ==>
        && reports == old(reports)
        && records <= rs
        && EndOf(old(Pos()), records, true) <= |file|
        && (|records| < |rs| ==> |file| < EndOf(old(Pos()), rs[..|records| + 1], true))
    {
      hide Stream, At, EndOf;
      ghost var good := At(rs, true);
      ghost var pos0 := Pos();
      records := [];
      EndOfNothing(pos0);
      while true
        invariant Valid() && Pos() >= pos0
        invariant good ==> |records| <= |rs| && records == rs[..|records|]
        invariant good ==> At(rs[|records|..], true) && reports == old(reports)
        invariant good ==> EndOf(pos0, records, true) == Pos()
        decreases |file| - Pos()
      {
        ghost var n := |records|;
        ghost var pos := Pos();
        var r := ReadRecord(if good then rs[n..] else []);
        if good && n < |rs| {
          EndOfNext(pos0, rs, n);
        }
        if r.None? {
          return;
        }
        records := records + [r.value];
      }
    }
  }

  lemma EndOfNothing(pos: nat)
    ensures EndOf(pos, [], true) == pos
  {
  }

  lemma EndOfNext(pos: nat, rs: seq<Data>, n: nat)
    requires n < |rs|
    ensures EndOf(pos, rs[..n + 1], true) == EndOf(EndOf(pos, rs[..n], true), [rs[n..][0]], true)
    ensures rs[n..][1..] == rs[n + 1..] && rs[..n + 1] == rs[..n] + [rs[n]]
  {
    hide Stream;
    assert rs[..n + 1] == rs[..n] + [rs[n]];
    StreamConcat(pos, rs[..n], [rs[n]], true);
  }

  /** More records end no earlier. */
  lemma EndsGrow(pos: nat, rs: seq<Data>, n: nat, m: nat)
    requires n <= m <= |rs|
    ensures EndOf(pos, rs[..n], true) <= EndOf(pos, rs[..m], true)
  {
    hide Stream;
    assert rs[..m] == rs[..n] + rs[n..m];
    StreamConcat(pos, rs[..n], rs[n..m], true);
  }

  /** Where the scan of a record that starts at `pos0` stands: `cur` is what is left
      of it and of the records behind it, `scratch` what was read of it. */
  ghost predicate Scanning(pos0: nat, rs: seq<Data>, pos: nat, cur: seq<Data>, inFragmented: bool, scratch: Data) {
    && (if inFragmented then rs != [] && cur != [] && scratch + cur[0] == rs[0] && cur[1..] == rs[1..] else cur == rs)
    && (rs != [] ==> EndOf(pos0, [rs[0]], true) == EndOf(pos, [cur[0]], !inFragmented))
  }

  lemma ScanBegins(pos0: nat, rs: seq<Data>)
    ensures Scanning(pos0, rs, pos0, rs, false, [])
  {
  }

  /** The next fragment of the stream ends the record or carries the scan on. */
  lemma ScanStep(pos0: nat, rs: seq<Data>, pos: nat, cur: seq<Data>, inFragmented: bool, scratch: Data)
    requires Scanning(pos0, rs, pos, cur, inFragmented, scratch)
    ensures cur == [] <==> rs == []
    ensures cur != [] ==>
      var p := Start(pos);
      var n := Take(p, cur[0]);
      var read := if inFragmented then scratch + cur[0][..n] else cur[0][..n];
      && EndOf(pos0, [rs[0]], true) >= p + HEADER_SIZE + n
      && (if n == |cur[0]| then
            read == rs[0] && After(cur, n) == rs[1..] && EndOf(pos0, [rs[0]], true) == p + HEADER_SIZE + n
          else Scanning(pos0, rs, p + HEADER_SIZE + n, After(cur, n), true, read))
  {
    hide Take, Start, EndOf;
    FragmentEnds(pos, cur, !inFragmented);
    if cur != [] {
      var n := Take(Start(pos), cur[0]);
      Joined(if inFragmented then scratch else [], cur[0], n);
      assert [] + cur[0] == cur[0] && [] + cur[0][..n] == cur[0][..n];
    }
  }

  lemma Joined(scratch: Data, data: Data, n: nat)
    requires n <= |data|
    ensures (scratch + data[..n]) + data[n..] == scratch + data
    ensures n == |data| ==> scratch + data[..n] == scratch + data
  {
  }

  /** Where the stream of some records ends. */
  function EndOf(pos: nat, rs: seq<Data>, begin: bool): nat {
    pos + |Stream(pos, rs, begin)|
  }

  /** The end of a record, seen from one fragment to the next. */
  lemma FragmentEnds(pos: nat, rs: seq<Data>, begin: bool)
    ensures rs != [] ==>
      var p := Start(pos);
      var n := Take(p, rs[0]);
      && EndOf(pos, [rs[0]], begin) >= p + HEADER_SIZE + n
      && (if n == |rs[0]| then EndOf(pos, [rs[0]], begin) == p + HEADER_SIZE + n
          else EndOf(pos, [rs[0]], begin) == EndOf(p + HEADER_SIZE + n, [rs[0][n..]], false))
  {
    hide Stream, Take, Start, TypeOf;
    if rs != [] {
      var p := Start(pos);
      var n := Take(p, rs[0]);
      StreamUnfold(pos, [rs[0]], begin);
      StreamOfNothing(p + HEADER_SIZE + n, true);
      assert After([rs[0]], n) == if n == |rs[0]| then [] else [rs[0][n..]];
    }
  }

  lemma BlockStep(pos: nat, n: nat)
    requires pos % BLOCK_SIZE == 0 && n <= BLOCK_SIZE
    ensures (pos + n) % BLOCK_SIZE == if n == BLOCK_SIZE then 0 else n
  {
  }

  lemma RoomToBoundary(pos: nat, end: nat)
    requires pos <= end && end % BLOCK_SIZE == 0 && end - pos <= BLOCK_SIZE
    ensures pos < end ==> Room(pos) == end - pos
    ensures pos == end ==> Room(pos) == BLOCK_SIZE
  {
  }

  lemma BackInBlock(end: nat, n: nat)
    requires n <= end % BLOCK_SIZE
    ensures Room(end - n) >= n
  {
  }

  lemma TypeAndPayload(b: Data, n: nat)
    requires HEADER_SIZE + n <= |b|
    ensures b[6..7 + n] == [(b[6] as nat) as byte] + b[HEADER_SIZE..HEADER_SIZE + n]
  {
  }

  lemma FragmentPayload(t: nat, payload: Data)
    requires t < 256 && |payload| < 65536
    ensures Fragment(t, payload)[HEADER_SIZE..] == payload
  {
    hide EncodeFixed32, Mask, Crc;
  }

  // ---------------------------------------------------------------- a crash

  /** Appends some records. */
  method AddRecords(dest: Data, rs: seq<Data>) returns (file: Data)
    ensures file == dest + Stream(|dest|, rs, true)
  {
    hide Stream;
    var writer := new Writer(dest);
    StreamOfNothing(|dest|, true);
    for i := 0 to |rs|
      invariant writer.Valid() && writer.dest == dest + Stream(|dest|, rs[..i], true)
    {
      StreamConcat(|dest|, rs[..i], [rs[i]], true);
      assert rs[..i + 1] == rs[..i] + [rs[i]];
      writer.AddRecord(rs[i]);
    }
    assert rs[..|rs|] == rs;
    file := writer.dest;
  }

  /** Records are written, by a writer that is reopened on the way; the file is cut at
      any byte, and read. Exactly the records that were whole come back, in order, and
      no corruption is reported. */
  method WriteCutRead(rs: seq<Data>, reopenAt: nat, cut: nat) returns (back: seq<Data>, reports: seq<nat>)
    requires reopenAt <= |rs|
    ensures reports == [] && back <= rs
    ensures EndOf(0, back, true) <= cut
    ensures |back| < |rs| ==> cut < EndOf(0, rs[..|back| + 1], true)
  {
    hide Stream, EndOf, Reader.At;
    var file := AddRecords([], rs[..reopenAt]);
    file := AddRecords(file, rs[reopenAt..]);
    WholeFile(rs, reopenAt, file);
    var kept := if cut < |file| then file[..cut] else file;
    var reader := new Reader(kept);
    ReaderAtStart(reader, rs, file);
    back := reader.ReadAll(rs);
    reports := reader.reports;
    if |back| < |rs| {
      CutIsShort(rs, |back| + 1, |kept|, cut);
    }
  }

  lemma WholeFile(rs: seq<Data>, reopenAt: nat, file: Data)
    requires reopenAt <= |rs|
    requires
      var first := [] + Stream(0, rs[..reopenAt], true);
      file == first + Stream(|first|, rs[reopenAt..], true)
    ensures file == Stream(0, rs, true)
  {
    hide Stream;
    StreamConcat(0, rs[..reopenAt], rs[reopenAt..], true);
    assert rs[..reopenAt] + rs[reopenAt..] == rs;
    assert [] + Stream(0, rs[..reopenAt], true) == Stream(0, rs[..reopenAt], true);
  }

  /** A cut of the stream is being read from its start. */
  lemma ReaderAtStart(reader: Reader, rs: seq<Data>, file: Data)
    requires reader.Valid() && reader.Pos() == 0 && file == Stream(0, rs, true) && reader.file <= file
    ensures reader.At(rs, true)
  {
    hide Stream;
    assert reader.file[0..] == reader.file;
  }

  lemma CutIsShort(rs: seq<Data>, n: nat, kept: nat, cut: nat)
    requires n <= |rs| && kept == (if cut < |Stream(0, rs, true)| then cut else |Stream(0, rs, true)|)
    requires kept < EndOf(0, rs[..n], true)
    ensures cut < EndOf(0, rs[..n], true)
  {
    hide Stream;
    StreamConcat(0, rs[..n], rs[n..], true);
    assert rs[..n] + rs[n..] == rs;
  }
}
