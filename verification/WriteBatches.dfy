/** Write batches: a sequence number, a count, and the updates one after the other. */
module WriteBatches {
  import opened InternalKeys
  import opened Bytes
  import opened Coding

  const HEADER := 12
  const TYPE_DELETION := 0
  const TYPE_VALUE := 1

  datatype Update = Put(key: Data, value: Data) | Delete(key: Data)

  predicate Fits(u: Update) {
    |u.key| < TWO_32 && (u.Put? ==> |u.value| < TWO_32)
  }

  ghost predicate AllFit(updates: seq<Update>) {
    forall i :: 0 <= i < |updates| ==> Fits(updates[i])
  }

  function Encode(u: Update): (r: Data)
    ensures r != []
  {
    match u
    case Put(key, value) => [TYPE_VALUE as byte] + (Prefixed(key) + Prefixed(value))
    case Delete(key) => [TYPE_DELETION as byte] + Prefixed(key)
  }

  function EncodeAll(updates: seq<Update>): Data {
    if updates == [] then [] else Encode(updates[0]) + EncodeAll(updates[1..])
  }

  lemma {:induction false} EncodeConcat(a: seq<Update>, b: seq<Update>)
    ensures EncodeAll(a + b) == EncodeAll(a) + EncodeAll(b)
  {
    hide Encode;
    if a == [] {
      assert a + b == b;
    } else {
      assert (a + b)[1..] == a[1..] + b;
      EncodeConcat(a[1..], b);
    }
  }

  lemma EncodeSnoc(a: seq<Update>, u: Update)
    ensures EncodeAll(a + [u]) == EncodeAll(a) + Encode(u)
  {
    hide Encode;
    EncodeConcat(a, [u]);
    assert [u][1..] == [];
  }

  // ---------------------------------------------------------------- going through the bytes

  datatype Outcome = Good(update: Update, rest: Data) | Bad(msg: string)

  /** The update at the front of the input. */
  function ParseUpdate(input: Data): (r: Outcome)
    requires input != []
    ensures r.Good? ==> |r.rest| < |input|
  {
    var tag, body := input[0] as nat, input[1..];
    if tag == TYPE_VALUE then
      var key := GetLengthPrefixedSlice(body);
      if key.None? then Bad("bad WriteBatch Put")
      else
        var value := GetLengthPrefixedSlice(key.value.rest);
        if value.None? then Bad("bad WriteBatch Put")
        else Good(Put(key.value.value, value.value.value), value.value.rest)
    else if tag == TYPE_DELETION then
      var key := GetLengthPrefixedSlice(body);
      if key.None? then Bad("bad WriteBatch Delete") else Good(Delete(key.value.value), key.value.rest)
    else Bad("unknown WriteBatch tag")
  }

  lemma ParseInverse(u: Update, rest: Data)
    requires Fits(u)
    ensures ParseUpdate(Encode(u) + rest) == Good(u, rest)
  {
    hide GetLengthPrefixedSlice, Prefixed;
    match u
    case Put(key, value) =>
      assert (Encode(u) + rest)[1..] == Prefixed(key) + (Prefixed(value) + rest);
      PrefixedInverse(key, Prefixed(value) + rest);
      PrefixedInverse(value, rest);
    case Delete(key) =>
      assert (Encode(u) + rest)[1..] == Prefixed(key) + rest;
      PrefixedInverse(key, rest);
  }

  /** All updates of the input, and what stopped the scan. */
  function ParseAll(input: Data): (seq<Update>, Option<string>)
    decreases |input|
  {
    if input == [] then ([], None)
    else
      match ParseUpdate(input)
      case Bad(msg) => ([], Some(msg))
      case Good(u, rest) =>
        var tail := ParseAll(rest);
        ([u] + tail.0, tail.1)
  }

  lemma {:induction false} ParseAllInverse(updates: seq<Update>)
    requires AllFit(updates)
    ensures ParseAll(EncodeAll(updates)) == (updates, None)
  {
    hide ParseUpdate, Encode;
    if updates != [] {
      NotEmpty(updates[0]);
      ParseInverse(updates[0], EncodeAll(updates[1..]));
      ParseAllInverse(updates[1..]);
      assert updates == [updates[0]] + updates[1..];
    }
  }

  lemma NotEmpty(u: Update)
    ensures |Encode(u)| > 0
  {
  }

  // ---------------------------------------------------------------- the object

  class WriteBatch {
    var rep: Data
    ghost var updates: seq<Update>
    ghost var sequence: nat

    constructor ()
      ensures Valid() && updates == [] && sequence == 0
    {
      rep := Zeros(HEADER);
      updates, sequence := [], 0;
      new;
      EmptyRep();
    }

    ghost predicate Valid()
      reads this
    {
      && AllFit(updates) && |updates| < TWO_32 && sequence < TWO_64
      && rep == Fixed(sequence, 8) + Fixed(|updates|, 4) + EncodeAll(updates)
    }

    function Count(): nat
      requires |rep| >= HEADER
      reads this
    {
      FixedValue(rep[8..HEADER])
    }

    function Sequence(): nat
      requires |rep| >= HEADER
      reads this
    {
      FixedValue(rep[..8])
    }

    lemma Header()
      requires Valid()
      ensures |rep| == HEADER + |EncodeAll(updates)|
      ensures rep[..8] == Fixed(sequence, 8) && rep[8..HEADER] == Fixed(|updates|, 4)
      ensures rep[HEADER..] == EncodeAll(updates)
      ensures Count() == |updates| && Sequence() == sequence
    {
      hide Fixed, FixedValue, EncodeAll, Power256;
      var a, b := Fixed(sequence, 8), Fixed(|updates|, 4);
      assert rep[..8] == a && rep[8..HEADER] == b;
      Powers();
      FixedInverse(sequence, 8);
      FixedInverse(|updates|, 4);
    }

    method Clear()
      modifies this
      ensures Valid() && updates == [] && sequence == 0
    {
      rep := Zeros(HEADER);
      updates, sequence := [], 0;
      EmptyRep();
    }

    method SetCount(n: nat)
      requires |rep| >= HEADER
      modifies this`rep
      ensures rep == old(rep)[..8] + Fixed(n, 4) + old(rep)[HEADER..]
    {
      rep := rep[..8] + Fixed(n, 4) + rep[HEADER..];
    }

    method SetSequence(s: nat)
      requires Valid() && s < TWO_64
      modifies this
      ensures Valid() && updates == old(updates) && sequence == s
    {
      hide Fixed, FixedValue, EncodeAll, AllFit;
      Header();
      rep := Fixed(s, 8) + rep[8..];
      sequence := s;
    }

    method AddPut(key: Data, value: Data)
      requires Valid() && |updates| + 1 < TWO_32 && Fits(Put(key, value))
      modifies this
      ensures Valid() && updates == old(updates) + [Put(key, value)] && sequence == old(sequence)
    {
      hide Fixed, FixedValue, EncodeAll, Prefixed;
      Header();
      SetCount(Count() + 1);
      rep := rep + [TYPE_VALUE as byte];
      rep := rep + Prefixed(key);
      rep := rep + Prefixed(value);
      EncodeSnoc(updates, Put(key, value));
      updates := updates + [Put(key, value)];
    }

    method AddDelete(key: Data)
      requires Valid() && |updates| + 1 < TWO_32 && Fits(Delete(key))
      modifies this
      ensures Valid() && updates == old(updates) + [Delete(key)] && sequence == old(sequence)
    {
      hide Fixed, FixedValue, EncodeAll, Prefixed;
      Header();
      SetCount(Count() + 1);
      rep := rep + [TYPE_DELETION as byte];
      rep := rep + Prefixed(key);
      EncodeSnoc(updates, Delete(key));
      updates := updates + [Delete(key)];
    }

    /** Adds the updates of `src` behind these. */
    method Append(src: WriteBatch)
      requires Valid() && src.Valid() && src != this && |updates| + |src.updates| < TWO_32
      modifies this
      ensures Valid() && updates == old(updates) + src.updates && sequence == old(sequence)
    {
      hide Fixed, FixedValue, EncodeAll;
      Header();
      src.Header();
      SetCount(Count() + src.Count());
      rep := rep + src.rep[HEADER..];
      EncodeConcat(updates, src.updates);
      updates := updates + src.updates;
    }

    /** Hands each update to the handler, in order. */
    method Iterate() returns (visited: seq<Update>, error: Option<string>)
      ensures Valid() ==> visited == updates && error.None?
      ensures |rep| >= HEADER ==>
        var (parsed, stopped) := ParseAll(rep[HEADER..]);
        visited == parsed && (error.None? <==> stopped.None? && |parsed| == Count())
      ensures |rep| < HEADER ==> error.Some?
    {
      hide Valid, ParseUpdate, FixedValue;
      if |rep| < HEADER {
        visited, error := [], Some("malformed WriteBatch (too small)");
        ValidIsLong();
        return;
      }
      var input := rep[HEADER..];
      var found := 0;
      visited, error := [], None;
      ghost var whole := ParseAll(input);
      while input != []
        invariant found == |visited|
        invariant whole.0 == visited + ParseAll(input).0 && whole.1 == ParseAll(input).1
        decreases |input|
      {
        found := found + 1;
        ParseShrinks(input);
        match ParseUpdate(input)
        case Bad(msg) =>
          error := Some(msg);
          ValidParses();
          return;
        case Good(u, rest) =>
          visited := visited + [u];
          input := rest;
      }
      if found != Count() {
        error := Some("WriteBatch has wrong count");
      }
      ValidParses();
    }

    lemma ValidIsLong()
      ensures Valid() ==> |rep| >= HEADER
    {
    }

    lemma ValidParses()
      requires |rep| >= HEADER
      ensures Valid() ==> ParseAll(rep[HEADER..]) == (updates, None) && Count() == |updates|
    {
      hide FixedValue, ParseAll;
      if Valid() {
        Header();
        ParseAllInverse(updates);
      }
    }

    /** The updates with the numbers they get in the memtable. */
    method InsertInto() returns (inserted: seq<(nat, Update)>)
      requires Valid()
      ensures |inserted| == |updates|
      ensures forall i :: 0 <= i < |updates| ==> inserted[i] == (sequence + i, updates[i])
    {
      hide Valid, ParseAll, FixedValue;
      ValidIsLong();
      HeaderNumbers();
      var visited, error := Iterate();
      var s := Sequence();
      inserted := [];
      for i := 0 to |visited|
        invariant |inserted| == i && s == sequence + i
        invariant forall j :: 0 <= j < i ==> inserted[j] == (sequence + j, visited[j])
      {
        inserted := inserted + [(s, visited[i])];
        s := s + 1;
      }
    }

    lemma HeaderNumbers()
      requires Valid() && |rep| >= HEADER
      ensures Count() == |updates| && Sequence() == sequence
    {
      Header();
    }
  }

  lemma {:induction false} FixedZero(n: nat)
    ensures Fixed(0, n) == Zeros(n)
  {
    if n > 0 {
      FixedZero(n - 1);
    }
  }

  lemma EmptyRep()
    ensures Zeros(HEADER) == Fixed(0, 8) + Fixed(0, 4) + EncodeAll([])
  {
    FixedZero(8);
    FixedZero(4);
    ZerosConcat(8, 4);
  }

  lemma {:induction false} ZerosConcat(m: nat, n: nat)
    ensures Zeros(m + n) == Zeros(m) + Zeros(n)
  {
    if m > 0 {
      ZerosConcat(m - 1, n);
    }
  }

  lemma ParseShrinks(input: Data)
    requires input != []
    ensures ParseUpdate(input).Good? ==> |ParseUpdate(input).rest| < |input|
  {
  }
}
