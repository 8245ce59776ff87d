/** The user-facing iterator: one entry per visible user key, in both directions. */
module DbIterator {
  import opened InternalKeys

  /** An internal iterator over sorted entries; its position is their number when it
      is not valid. */
  class SortedIterator {
    const entries: seq<Entry>
    var pos: nat

    constructor (entries: seq<Entry>)
      ensures this.entries == entries && pos == |entries|
    {
      this.entries := entries;
      pos := |entries|;
    }

    predicate Valid()
      reads this
    {
      pos < |entries|
    }

    function Current(): Entry
      requires Valid()
      reads this
    {
      entries[pos]
    }

    method SeekToFirst()
      modifies this
      ensures pos == 0
    {
      pos := 0;
    }

    method SeekToLast()
      modifies this
      ensures pos == if entries == [] then 0 else |entries| - 1
    {
      pos := if entries == [] then 0 else |entries| - 1;
    }

    method Seek(target: InternalKey)
      modifies this
      ensures pos == SeekIndex(entries, target)
    {
      pos := SeekIndex(entries, target);
    }

    method Next()
      requires Valid()
      modifies this
      ensures pos == old(pos) + 1
    {
      pos := pos + 1;
    }

    method Prev()
      requires Valid()
      modifies this
      ensures pos == if old(pos) == 0 then |entries| else old(pos) - 1
    {
      pos := if pos == 0 then |entries| else pos - 1;
    }
  }

  // ---------------------------------------------------------------- the user-visible entries

  predicate Hides(entries: seq<Entry>, s: nat, j: nat, i: nat)
    requires i < |entries| && j < |entries|
  {
    j < i && entries[j].key.user == entries[i].key.user && entries[j].key.sequence <= s
  }

  /** Entry `i` is the newest of its user key at `s`, and a value. */
  ghost predicate IsYield(entries: seq<Entry>, s: nat, i: nat) {
    && i < |entries|
    && entries[i].key.sequence <= s
    && entries[i].key.kind.Value?
    && forall j :: 0 <= j < i ==> !Hides(entries, s, j, i)
  }

  /** The first visible entry from `i` on; the length if there is none. */
  ghost function NextYield(entries: seq<Entry>, s: nat, i: nat): (r: nat)
    requires i <= |entries|
    ensures i <= r <= |entries|
    ensures r < |entries| ==> IsYield(entries, s, r)
    ensures forall j :: i <= j < r ==> !IsYield(entries, s, j)
    decreases |entries| - i
  {
    if i == |entries| || IsYield(entries, s, i) then i else NextYield(entries, s, i + 1)
  }

  /** The last visible entry before `i`; the length if there is none. */
  ghost function PrevYield(entries: seq<Entry>, s: nat, i: nat): (r: nat)
    requires i <= |entries|
    ensures r < i || r == |entries|
    ensures r < |entries| ==> IsYield(entries, s, r)
    ensures forall j :: (if r < |entries| then r else -1) < j < i ==> !IsYield(entries, s, j)
  {
    if i == 0 then |entries| else if IsYield(entries, s, i - 1) then i - 1 else PrevYield(entries, s, i - 1)
  }

  lemma NextYieldIs(entries: seq<Entry>, s: nat, i: nat, r: nat)
    requires i <= r <= |entries| && (r < |entries| ==> IsYield(entries, s, r))
    requires forall j :: i <= j < r ==> !IsYield(entries, s, j)
    ensures NextYield(entries, s, i) == r
  {
    var z := NextYield(entries, s, i);
    assert z >= r;
  }

  lemma PrevYieldIs(entries: seq<Entry>, s: nat, i: nat, r: nat)
    requires i <= |entries| && (r < i || r == |entries|) && (r < |entries| ==> IsYield(entries, s, r))
    requires forall j :: (if r < |entries| then r + 1 else 0) <= j < i ==> !IsYield(entries, s, j)
    ensures PrevYield(entries, s, i) == r
  {
    var z := PrevYield(entries, s, i);
    assert z == |entries| || IsYield(entries, s, z);
  }

  /** The visible entries are the view: each visible key once, with its value. */
  lemma YieldsAreVisible(entries: seq<Entry>, s: nat, u: UserKey, v: string)
    requires Sorted(entries) && Distinct(Elements(entries))
    ensures Visible(Elements(entries), u, s) == Some(v) <==>
      exists i: nat :: IsYield(entries, s, i) && entries[i].key.user == u && entries[i].value == v
  {
    var S := Elements(entries);
    FindIsNewest(entries, u, s);
    if Find(entries, u, s).Some? {
      var e := Find(entries, u, s).value;
      VisibleIsNewest(S, u, s, e);
      var k := SeekIndex(entries, LookupKey(u, s));
      assert entries[k] == e;
      forall j | 0 <= j < |entries| && entries[j].key.user == u && entries[j].key.sequence <= s
        ensures k <= j
      {
        assert !Less(entries[j].key, LookupKey(u, s));
      }
      assert e.key.kind.Value? ==> IsYield(entries, s, k);
      forall i: nat | IsYield(entries, s, i) && entries[i].key.user == u
        ensures i == k
      {
        assert k < i ==> Hides(entries, s, k, i);
      }
    } else {
      VisibleWithoutCandidate(S, u, s);
      forall i: nat | IsYield(entries, s, i) && entries[i].key.user == u
        ensures false
      {
        assert entries[i] in S && Candidate(entries[i], u, s);
      }
    }
  }

  /** Visible keys are strictly increasing. */
  lemma YieldsIncrease(entries: seq<Entry>, s: nat, i: nat, j: nat)
    requires Sorted(entries) && IsYield(entries, s, i) && IsYield(entries, s, j) && i < j
    ensures entries[i].key.user < entries[j].key.user
  {
    assert Less(entries[i].key, entries[j].key) && !Hides(entries, s, i, j);
  }

  // ---------------------------------------------------------------- scanning backwards

  /** How many entries a backward scan at `p` has left. */
  function Left(entries: seq<Entry>, p: nat): nat {
    if p < |entries| then p + 1 else 0
  }

  function BackTo(entries: seq<Entry>, p: nat): nat {
    if p == 0 then |entries| else p - 1
  }

  /** The scan down from `start`, now at `p`, has `q` as its last readable entry
      (none, if `q` is the length), of type `valueType`, and saw no visible one
      above it. */
  ghost predicate Scanned(entries: seq<Entry>, s: nat, p: nat, start: nat, q: nat, valueType: ValueType,
                          key: UserKey, value: string)
  {
    && start <= |entries| && p <= |entries| && q <= |entries|
    && (p < |entries| ==> p < start)
    && (q == |entries| ==>
          && valueType.Deletion?
          && forall j :: Left(entries, p) <= j < start ==> entries[j].key.sequence > s)
    && (q < |entries| ==>
          && Left(entries, p) <= q < start
          && entries[q].key.sequence <= s && valueType == entries[q].key.kind
          && (valueType.Value? ==> key == entries[q].key.user && value == entries[q].value)
          && (forall j :: Left(entries, p) <= j < q ==> entries[j].key.sequence > s)
          && (forall j :: q < j < start ==> !IsYield(entries, s, j)))
  }

  lemma ScanBegins(entries: seq<Entry>, s: nat, start: nat, key: UserKey, value: string)
    requires start <= |entries|
    ensures Scanned(entries, s, if start == 0 then |entries| else start - 1, start, |entries|, Deletion, key, value)
  {
  }

  lemma ScanStep(entries: seq<Entry>, s: nat, p: nat, start: nat, q: nat, valueType: ValueType,
                 key: UserKey, value: string)
    requires Sorted(entries) && p < |entries| && Scanned(entries, s, p, start, q, valueType, key, value)
    ensures var e := entries[p];
      if e.key.sequence > s then Scanned(entries, s, BackTo(entries, p), start, q, valueType, key, value)
      else (valueType.Value? && e.key.user < key) ||
           Scanned(entries, s, BackTo(entries, p), start, p, e.key.kind,
                   if e.key.kind.Deletion? then 0 else e.key.user, if e.key.kind.Deletion? then "" else e.value)
  {
    if entries[p].key.sequence <= s && q < |entries| {
      assert Less(entries[p].key, entries[q].key);
      if valueType.Value? && entries[p].key.user >= key {
        assert Hides(entries, s, p, q);
      }
    }
  }

  lemma NothingScanned(entries: seq<Entry>, s: nat, p: nat, start: nat, q: nat, key: UserKey, value: string)
    requires Scanned(entries, s, p, start, q, Deletion, key, value) && p >= |entries|
    ensures PrevYield(entries, s, start) == |entries|
  {
    PrevYieldIs(entries, s, start, |entries|);
  }

  // ---------------------------------------------------------------- the iterator

  datatype Direction = Forward | Reverse

  class DBIter {
    const iter: SortedIterator
    const sequence: nat
    var direction: Direction
    var valid: bool
    var savedKey: UserKey
    var savedValue: string

    constructor (iter: SortedIterator, sequence: nat)
      requires Sorted(iter.entries)
      ensures this.iter == iter && this.sequence == sequence
      ensures Ok() && Stands(|iter.entries|)
    {
      this.iter, this.sequence := iter, sequence;
      direction, valid, savedKey, savedValue := Forward, false, 0, "";
    }

    ghost predicate Ok() {
      Sorted(iter.entries)
    }

    /** Standing in reverse on `y`: the internal iterator is at an older user key, or
        not valid, and nothing readable lies between. */
    ghost predicate BehindOf(y: nat)
      requires y < |iter.entries|
      reads this, iter
    {
      && savedKey == iter.entries[y].key.user && savedValue == iter.entries[y].value
      && iter.pos <= |iter.entries|
      && (iter.pos < |iter.entries| ==>
            iter.pos < y && iter.entries[iter.pos].key.user < iter.entries[y].key.user)
      && forall j :: (if iter.pos < |iter.entries| then iter.pos else -1) < j < y ==>
           iter.entries[j].key.sequence > sequence
    }

    /** The iterator stands on visible entry `y`, or on none if `y` is the length. */
    ghost predicate Stands(y: nat)
      reads this, iter
    {
      && y <= |iter.entries|
      && (valid <==> y < |iter.entries|)
      && (y < |iter.entries| ==>
            && IsYield(iter.entries, sequence, y)
            && if direction.Forward? then iter.pos == y else BehindOf(y))
    }

    method CurrentKey(ghost y: nat) returns (k: UserKey)
      requires Stands(y) && valid
      ensures k == iter.entries[y].key.user
    {
      k := if direction.Forward? then iter.Current().key.user else savedKey;
    }

    method CurrentValue(ghost y: nat) returns (v: string)
      requires Stands(y) && valid
      ensures v == iter.entries[y].value
    {
      v := if direction.Forward? then iter.Current().value else savedValue;
    }

    /** What `skip` must account for when the scan is at `p` and looks for visible
        entries from `from` on. */
    ghost predicate SkipOk(p: nat, from: nat, skipping: bool, skip: UserKey)
      requires p <= |iter.entries|
    {
      && (p < |iter.entries| ==> forall j :: 0 <= j < p && Hides(iter.entries, sequence, j, p) ==>
            skipping && iter.entries[p].key.user <= skip)
      && (skipping ==> forall j :: p <= j < |iter.entries| && from <= j && iter.entries[j].key.user <= skip ==> !IsYield(iter.entries, sequence, j))
      && (p < from ==>
            && from <= |iter.entries|
            && skipping && skip == iter.entries[from - 1].key.user && iter.entries[from - 1].key.kind.Value?
            && forall j :: p <= j < from - 1 ==> iter.entries[j].key.sequence > sequence)
    }

    method FindNextUserEntry(skipping0: bool, skip0: UserKey, ghost from: nat)
      requires Ok() && iter.Valid() && direction.Forward?
      requires iter.pos <= from <= |iter.entries| && SkipOk(iter.pos, from, skipping0, skip0)
      modifies this, iter
      ensures direction.Forward?
      ensures Stands(NextYield(iter.entries, sequence, from))
    {
      var skipping, skip := skipping0, skip0;
      while iter.Valid()
        invariant direction.Forward? && iter.pos <= |iter.entries|
        invariant forall j :: from <= j < iter.pos ==> !IsYield(iter.entries, sequence, j)
        invariant SkipOk(iter.pos, from, skipping, skip)
        decreases |iter.entries| - iter.pos
      {
        var e := iter.Current();
        ghost var p := iter.pos;
        if e.key.sequence <= sequence {
          match e.key.kind
          case Deletion =>
            skip, skipping := e.key.user, true;
            DeletionHides(p, from);
          case Value =>
            if skipping && e.key.user <= skip {
              SkipStep(p, from, skipping, skip);
            } else {
              valid := true;
              NextYieldIs(iter.entries, sequence, from, p);
              return;
            }
        } else {
          SkipStep(p, from, skipping, skip);
        }
        iter.Next();
      }
      valid := false;
      NextYieldIs(iter.entries, sequence, from, |iter.entries|);
    }

    lemma SkipStep(p: nat, from: nat, skipping: bool, skip: UserKey)
      requires Ok() && p < |iter.entries| && SkipOk(p, from, skipping, skip)
      requires iter.entries[p].key.sequence <= sequence ==> skipping && iter.entries[p].key.user <= skip
      ensures SkipOk(p + 1, from, skipping, skip)
    {
      var n := p + 1;
      if n < |iter.entries| {
        forall j | 0 <= j < n && Hides(iter.entries, sequence, j, n)
          ensures skipping && iter.entries[n].key.user <= skip
        {
          assert j < p ==> Less(iter.entries[j].key, iter.entries[p].key);
          assert Less(iter.entries[p].key, iter.entries[n].key);
          assert j < p ==> Hides(iter.entries, sequence, j, p);
        }
      }
    }

    /** Behind a readable deletion marker nothing of its key is visible. */
    lemma DeletionHides(p: nat, from: nat)
      requires Ok() && from <= p < |iter.entries| && iter.entries[p].key.sequence <= sequence
      ensures SkipOk(p + 1, from, true, iter.entries[p].key.user)
    {
      forall j | p < j < |iter.entries| && iter.entries[j].key.user <= iter.entries[p].key.user
        ensures Hides(iter.entries, sequence, p, j)
      {
        assert Less(iter.entries[p].key, iter.entries[j].key);
      }
      var n := p + 1;
      if n < |iter.entries| {
        forall j | 0 <= j < n && Hides(iter.entries, sequence, j, n)
          ensures iter.entries[n].key.user <= iter.entries[p].key.user
        {
          assert j < p ==> Less(iter.entries[j].key, iter.entries[p].key);
        }
      }
    }

    /** Finds the last visible entry up to where the internal iterator is. */
    method FindPrevUserEntry(ghost start: nat)
      requires Ok() && direction.Reverse?
      requires start <= |iter.entries|
      requires iter.pos == if start == 0 then |iter.entries| else start - 1
      modifies this, iter
      ensures Stands(PrevYield(iter.entries, sequence, start))
    {
      hide Scanned, Sorted, Less, IsYield;
      var valueType := Deletion;
      ghost var q: nat := |iter.entries|;
      ScanBegins(iter.entries, sequence, start, savedKey, savedValue);
      while iter.Valid()
        invariant direction.Reverse?
        invariant Scanned(iter.entries, sequence, iter.pos, start, q, valueType, savedKey, savedValue)
        decreases Left(iter.entries, iter.pos)
      {
        var e := iter.Current();
        ScanStep(iter.entries, sequence, iter.pos, start, q, valueType, savedKey, savedValue);
        if e.key.sequence <= sequence {
          if valueType != Deletion && e.key.user < savedKey {
            break;
          }
          q := iter.pos;
          valueType := e.key.kind;
          if valueType.Deletion? {
            savedKey, savedValue := 0, "";
          } else {
            savedKey, savedValue := e.key.user, e.value;
          }
        }
        iter.Prev();
      }
      if valueType.Deletion? {
        valid := false;
        direction := Forward;
        NothingScanned(iter.entries, sequence, iter.pos, start, q, savedKey, savedValue);
      } else {
        valid := true;
        LastScannedYields(start, q);
      }
    }

    lemma LastScannedYields(start: nat, q: nat)
      requires Ok() && Scanned(iter.entries, sequence, iter.pos, start, q, Value, savedKey, savedValue)
      requires iter.Valid() ==> iter.entries[iter.pos].key.user < savedKey
      ensures q < |iter.entries| && IsYield(iter.entries, sequence, q)
      ensures PrevYield(iter.entries, sequence, start) == q && BehindOf(q)
    {
      forall j | 0 <= j < q
        ensures !Hides(iter.entries, sequence, j, q)
      {
        assert iter.Valid() && j < iter.pos ==> Less(iter.entries[j].key, iter.entries[iter.pos].key);
      }
      PrevYieldIs(iter.entries, sequence, start, q);
    }

    /** Moves to the next visible entry. */
    method Next(ghost y: nat)
      requires Ok() && Stands(y) && valid
      modifies this, iter
      ensures Stands(NextYield(iter.entries, sequence, y + 1))
      ensures valid ==> PrevYield(iter.entries, sequence, NextYield(iter.entries, sequence, y + 1)) == y
    {
      if direction.Reverse? {
        direction := Forward;
        if !iter.Valid() {
          iter.SeekToFirst();
        } else {
          iter.Next();
        }
        if !iter.Valid() {
          assert false;  // the current key is still ahead
        }
      } else {
        savedKey := iter.Current().key.user;
      }
      YieldHidesItsKey(y);
      FindNextUserEntry(true, savedKey, y + 1);
    }

    /** Moves to the previous visible entry. */
    method Prev(ghost y: nat)
      requires Ok() && Stands(y) && valid
      modifies this, iter
      ensures Stands(PrevYield(iter.entries, sequence, y))
      ensures valid ==> NextYield(iter.entries, sequence, PrevYield(iter.entries, sequence, y) + 1) == y
    {
      ghost var start := y;
      if direction.Forward? {
        savedKey := iter.Current().key.user;
        while true
          invariant direction.Forward? && iter.pos == start <= y && savedKey == iter.entries[y].key.user
          invariant forall j :: start <= j < y ==> iter.entries[j].key.user == savedKey
          decreases start
        {
          iter.Prev();
          if !iter.Valid() {
            valid := false;
            savedKey, savedValue := 0, "";
            NoYieldOfSameKey(0, y);
            return;
          }
          if iter.Current().key.user < savedKey {
            break;
          }
          assert Less(iter.entries[iter.pos].key, iter.entries[y].key);
          start := iter.pos;
        }
        direction := Reverse;
      } else {
        start := if iter.Valid() then iter.pos + 1 else 0;
      }
      NoYieldOfSameKey(start, y);
      PrevYieldFrom(start, y);
      FindPrevUserEntry(start);
    }

    /** Entries of the same key before a visible one are too new, so not visible. */
    lemma NoYieldOfSameKey(start: nat, y: nat)
      requires start <= y && IsYield(iter.entries, sequence, y)
      requires forall j :: start <= j < y ==>
        iter.entries[j].key.user == iter.entries[y].key.user || iter.entries[j].key.sequence > sequence
      ensures forall j :: start <= j < y ==> !IsYield(iter.entries, sequence, j)
    {
      forall j | start <= j < y
        ensures iter.entries[j].key.sequence > sequence
      {
        assert !Hides(iter.entries, sequence, j, y);
      }
    }

    lemma PrevYieldFrom(start: nat, y: nat)
      requires start <= y <= |iter.entries| && forall j :: start <= j < y ==> !IsYield(iter.entries, sequence, j)
      ensures PrevYield(iter.entries, sequence, start) == PrevYield(iter.entries, sequence, y)
    {
    }

    lemma YieldHidesItsKey(y: nat)
      requires Ok() && IsYield(iter.entries, sequence, y)
      ensures forall j :: y < j < |iter.entries| && iter.entries[j].key.user <= iter.entries[y].key.user ==> !IsYield(iter.entries, sequence, j)
    {
      forall j | y < j < |iter.entries| && iter.entries[j].key.user <= iter.entries[y].key.user
        ensures !IsYield(iter.entries, sequence, j)
      {
        assert Less(iter.entries[y].key, iter.entries[j].key);
        assert Hides(iter.entries, sequence, y, j);
      }
    }

    /** Lands on the first visible entry whose key is at or after `target`. */
    method Seek(target: UserKey) returns (ghost z: nat)
      requires Ok()
      modifies this, iter
      ensures Stands(z)
      ensures forall j :: 0 <= j < |iter.entries| && IsYield(iter.entries, sequence, j) ==> (iter.entries[j].key.user >= target <==> z <= j)
    {
      direction := Forward;
      iter.Seek(LookupKey(target, sequence));
      ghost var p := iter.pos;
      z := NextYield(iter.entries, sequence, p);
      forall j | 0 <= j < |iter.entries| && iter.entries[j].key.sequence <= sequence
        ensures iter.entries[j].key.user >= target <==> p <= j
      {
        assert p < j ==> Less(iter.entries[p].key, iter.entries[j].key);
      }
      if iter.Valid() {
        assert SkipOk(p, p, false, savedKey);
        FindNextUserEntry(false, savedKey, p);
      } else {
        valid := false;
      }
    }

    method SeekToFirst()
      requires Ok()
      modifies this, iter
      ensures Stands(NextYield(iter.entries, sequence, 0))
    {
      direction := Forward;
      iter.SeekToFirst();
      if iter.Valid() {
        FindNextUserEntry(false, savedKey, 0);
      } else {
        valid := false;
      }
    }

    method SeekToLast()
      requires Ok()
      modifies this, iter
      ensures Stands(PrevYield(iter.entries, sequence, |iter.entries|))
    {
      direction := Reverse;
      iter.SeekToLast();
      FindPrevUserEntry(|iter.entries|);
    }
  }

  // ---------------------------------------------------------------- reading everything

  datatype Row = Row(key: UserKey, value: string)

  /** Keys and values of the visible ones among the first `n` entries. */
  ghost function Rows(entries: seq<Entry>, s: nat, n: nat): seq<Row>
    requires n <= |entries|
  {
    if n == 0 then []
    else Rows(entries, s, n - 1)
         + if IsYield(entries, s, n - 1) then [Row(entries[n - 1].key.user, entries[n - 1].value)] else []
  }

  lemma {:induction false} RowsElements(entries: seq<Entry>, s: nat, n: nat, row: Row)
    requires n <= |entries|
    ensures row in Rows(entries, s, n) <==>
      exists i: nat :: i < n && IsYield(entries, s, i) && row == Row(entries[i].key.user, entries[i].value)
  {
    if n > 0 {
      RowsElements(entries, s, n - 1, row);
    }
  }

  lemma {:induction false} RowsIncrease(entries: seq<Entry>, s: nat, n: nat)
    requires n <= |entries| && Sorted(entries)
    ensures forall i, j :: 0 <= i < j < |Rows(entries, s, n)| ==> Rows(entries, s, n)[i].key < Rows(entries, s, n)[j].key
  {
    if n > 0 {
      RowsIncrease(entries, s, n - 1);
      var init := Rows(entries, s, n - 1);
      if IsYield(entries, s, n - 1) {
        forall i | 0 <= i < |init|
          ensures init[i].key < entries[n - 1].key.user
        {
          RowsElements(entries, s, n - 1, init[i]);
          var j: nat :| j < n - 1 && IsYield(entries, s, j) && init[i] == Row(entries[j].key.user, entries[j].value);
          YieldsIncrease(entries, s, j, n - 1);
        }
      }
    }
  }

  lemma {:induction false} RowsSkip(entries: seq<Entry>, s: nat, i: nat, r: nat)
    requires i <= r <= |entries| && forall j :: i <= j < r ==> !IsYield(entries, s, j)
    ensures Rows(entries, s, i) == Rows(entries, s, r)
  {
    if i < r {
      RowsSkip(entries, s, i, r - 1);
    }
  }

  /** The view at `s`: every visible key once, in order, with its value. */
  ghost predicate IsView(rows: seq<Row>, entries: seq<Entry>, s: nat) {
    && (forall i, j :: 0 <= i < j < |rows| ==> rows[i].key < rows[j].key)
    && forall u, v :: Row(u, v) in rows <==> Visible(Elements(entries), u, s) == Some(v)
  }

  lemma RowsAreView(entries: seq<Entry>, s: nat)
    requires Sorted(entries) && Distinct(Elements(entries))
    ensures IsView(Rows(entries, s, |entries|), entries, s)
  {
    RowsIncrease(entries, s, |entries|);
    forall u: UserKey, v: string
      ensures Row(u, v) in Rows(entries, s, |entries|) <==> Visible(Elements(entries), u, s) == Some(v)
    {
      YieldsAreVisible(entries, s, u, v);
      RowsElements(entries, s, |entries|, Row(u, v));
    }
  }

  lemma RowsStep(entries: seq<Entry>, s: nat, y: nat)
    requires IsYield(entries, s, y)
    ensures Rows(entries, s, y + 1) == Rows(entries, s, y) + [Row(entries[y].key.user, entries[y].value)]
  {
  }

  lemma NoRows(entries: seq<Entry>, s: nat)
    ensures Rows(entries, s, 0) == []
  {
  }

  /** A scan from the first entry on reads the view at the iterator's number. */
  method ReadForward(it: DBIter) returns (rows: seq<Row>)
    requires it.Ok() && Distinct(Elements(it.iter.entries))
    modifies it, it.iter
    ensures IsView(rows, it.iter.entries, it.sequence)
  {
    hide Rows, IsYield, IsView, Distinct;
    ghost var entries, s := it.iter.entries, it.sequence;
    rows := [];
    it.SeekToFirst();
    ghost var y := NextYield(entries, s, 0);
    NoRows(entries, s);
    RowsSkip(entries, s, 0, y);
    while it.valid
      invariant it.Stands(y) && rows == Rows(entries, s, y)
      decreases |entries| - y
    {
      var key := it.CurrentKey(y);
      var value := it.CurrentValue(y);
      RowsStep(entries, s, y);
      rows := rows + [Row(key, value)];
      it.Next(y);
      ghost var next := NextYield(entries, s, y + 1);
      RowsSkip(entries, s, y + 1, next);
      y := next;
    }
    RowsAreView(entries, s);
  }

  /** A scan from the last entry back reads the same. */
  method ReadBackward(it: DBIter) returns (rows: seq<Row>)
    requires it.Ok() && Distinct(Elements(it.iter.entries))
    modifies it, it.iter
    ensures IsView(rows, it.iter.entries, it.sequence)
  {
    hide Rows, IsYield, IsView, Distinct;
    ghost var entries, s := it.iter.entries, it.sequence;
    rows := [];
    it.SeekToLast();
    ghost var y := PrevYield(entries, s, |entries|);
    RowsSkip(entries, s, Left(entries, y), |entries|);
    while it.valid
      invariant it.Stands(y) && Rows(entries, s, Left(entries, y)) + rows == Rows(entries, s, |entries|)
      decreases Left(entries, y)
    {
      var key := it.CurrentKey(y);
      var value := it.CurrentValue(y);
      RowsStep(entries, s, y);
      assert Rows(entries, s, y) + ([Row(key, value)] + rows) == Rows(entries, s, y) + [Row(key, value)] + rows;
      rows := [Row(key, value)] + rows;
      it.Prev(y);
      ghost var back := PrevYield(entries, s, y);
      RowsSkip(entries, s, Left(entries, back), y);
      y := back;
    }
    NoRows(entries, s);
    assert [] + rows == rows;
    RowsAreView(entries, s);
  }
}
