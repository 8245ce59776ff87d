/** Internal keys, entries and the reader's view of a pile of entries.

    A user key is modelled by its rank in the user comparator's order: any run
    touches finitely many user keys, and the engine only ever compares them. */
module InternalKeys {
  datatype Option<+T> = None | Some(value: T)

  type UserKey = int

  /** Declared in the order of their on-disk codes 0 and 1. */
  datatype ValueType = Deletion | Value

  datatype InternalKey = InternalKey(user: UserKey, sequence: nat, kind: ValueType)

  datatype Entry = Entry(key: InternalKey, value: string)

  const MAX_SEQUENCE_NUMBER: nat := 0x100_0000_0000_0000 - 1
  const VALUE_TYPE_FOR_SEEK := Value

  /** The eight-byte tag `(seq << 8) | type` at the end of an internal key. */
  function Tag(k: InternalKey): nat {
    256 * k.sequence + (if k.kind.Value? then 1 else 0)
  }

  /** Increasing user key, then decreasing tag. */
  predicate Less(a: InternalKey, b: InternalKey) {
    a.user < b.user || (a.user == b.user && Tag(a) > Tag(b))
  }

  function LookupKey(u: UserKey, s: nat): InternalKey {
    InternalKey(u, s, VALUE_TYPE_FOR_SEEK)
  }

  ghost predicate Sorted(entries: seq<Entry>) {
    forall i, j :: 0 <= i < j < |entries| ==> Less(entries[i].key, entries[j].key)
  }

  ghost function Elements<T>(s: seq<T>): set<T> {
    set x | x in s
  }

  /** No two entries of one user key share a sequence number. */
  ghost predicate Distinct(S: set<Entry>) {
    forall a, b :: a in S && b in S && a.key.user == b.key.user && a.key.sequence == b.key.sequence ==> a == b
  }

  /** Every entry of `A` is newer than the entries of `B` for the same user key. */
  ghost predicate NewerThan(A: set<Entry>, B: set<Entry>) {
    forall a, b :: a in A && b in B && a.key.user == b.key.user ==> a.key.sequence > b.key.sequence
  }

  // ---------------------------------------------------------------- the reader's view

  predicate Candidate(e: Entry, u: UserKey, s: nat) {
    e.key.user == u && e.key.sequence <= s
  }

  ghost predicate HasCandidate(S: set<Entry>, u: UserKey, s: nat) {
    exists e :: e in S && Candidate(e, u, s)
  }

  /** `e` is the entry for `u` with the largest sequence number not above `s`. */
  ghost predicate Newest(S: set<Entry>, u: UserKey, s: nat, e: Entry) {
    && e in S
    && Candidate(e, u, s)
    && forall x :: x in S && Candidate(x, u, s) ==> x.key.sequence <= e.key.sequence
  }

  /** What an entry tells the reader: its value, or that the key is absent. */
  function Meaning(e: Entry): Option<string> {
    if e.key.kind.Value? then Some(e.value) else None
  }

  ghost function PickNewest(S: set<Entry>, u: UserKey, s: nat): (e: Entry)
    requires exists e :: Newest(S, u, s, e)
    ensures Newest(S, u, s, e)
  {
    var e :| Newest(S, u, s, e); e
  }

  /** What a reader at snapshot `s` must be told about `u`. */
  ghost function Visible(S: set<Entry>, u: UserKey, s: nat): Option<string> {
    if exists e :: Newest(S, u, s, e) then Meaning(PickNewest(S, u, s)) else None
  }

  /** Readers at `floor` and above cannot tell the two piles apart. */
  ghost predicate SameViews(A: set<Entry>, B: set<Entry>, floor: nat) {
    forall u, t: nat :: t >= floor ==> Visible(A, u, t) == Visible(B, u, t)
  }

  lemma VisibleIsNewest(S: set<Entry>, u: UserKey, s: nat, e: Entry)
    requires Distinct(S) && Newest(S, u, s, e)
    ensures Visible(S, u, s) == Meaning(e)
  {
    assert PickNewest(S, u, s).key.sequence == e.key.sequence;
  }

  lemma VisibleWithoutCandidate(S: set<Entry>, u: UserKey, s: nat)
    requires !HasCandidate(S, u, s)
    ensures Visible(S, u, s) == None
  {
    assert forall e :: Newest(S, u, s, e) ==> Candidate(e, u, s);
  }

  /** A finite pile with a candidate has a newest one. */
  lemma {:induction false} NewestExists(S: set<Entry>, u: UserKey, s: nat) returns (e: Entry)
    requires HasCandidate(S, u, s)
    ensures Newest(S, u, s, e)
    decreases S
  {
    e :| e in S && Candidate(e, u, s);
    var rest := S - {e};
    if HasCandidate(rest, u, s) {
      var e' := NewestExists(rest, u, s);
      forall x | x in S && Candidate(x, u, s)
        ensures x.key.sequence <= if e'.key.sequence > e.key.sequence then e'.key.sequence else e.key.sequence
      {
        assert x == e || x in rest;
      }
      if e'.key.sequence > e.key.sequence {
        e := e';
      }
    } else {
      forall x | x in S && Candidate(x, u, s)
        ensures x == e
      {
        assert x !in rest;
      }
    }
  }

  /** Two piles with the same candidates for a key give the same view. */
  lemma SameCandidates(S: set<Entry>, s: nat, T: set<Entry>, t: nat, u: UserKey)
    requires Distinct(S) && Distinct(T)
    requires forall e :: e in S && Candidate(e, u, s) <==> e in T && Candidate(e, u, t)
    ensures Visible(S, u, s) == Visible(T, u, t)
  {
    hide Visible, Distinct;
    if HasCandidate(S, u, s) {
      var e := NewestExists(S, u, s);
      assert Newest(T, u, t, e);
      VisibleIsNewest(S, u, s, e);
      VisibleIsNewest(T, u, t, e);
    } else {
      VisibleWithoutCandidate(S, u, s);
      VisibleWithoutCandidate(T, u, t);
    }
  }

  /** The view of a key only depends on that key's entries. */
  lemma VisibleDependsOnKey(S: set<Entry>, T: set<Entry>, u: UserKey, s: nat)
    requires Distinct(S) && Distinct(T)
    requires forall e: Entry :: e.key.user == u && e.key.sequence <= s ==> (e in S <==> e in T)
    ensures Visible(S, u, s) == Visible(T, u, s)
  {
    hide Visible, Distinct;
    SameCandidates(S, s, T, s, u);
  }

  // ---------------------------------------------------------------- lookup in one sorted run

  /** Position of the first entry at or after `k`. */
  function SeekIndex(entries: seq<Entry>, k: InternalKey): (i: nat)
    ensures i <= |entries|
    ensures forall j :: 0 <= j < i ==> Less(entries[j].key, k)
    ensures i < |entries| ==> !Less(entries[i].key, k)
  {
    if entries == [] || !Less(entries[0].key, k) then 0
    else 1 + SeekIndex(entries[1..], k)
  }

  /** What both a memtable and a table return for a lookup: the entry the seek
      lands on, if it belongs to the user key that was asked for. */
  function Find(entries: seq<Entry>, u: UserKey, s: nat): (r: Option<Entry>) {
    var i := SeekIndex(entries, LookupKey(u, s));
    if i < |entries| && entries[i].key.user == u then Some(entries[i]) else None
  }

  lemma FindIsNewest(entries: seq<Entry>, u: UserKey, s: nat)
    requires Sorted(entries)
    ensures Find(entries, u, s).Some? ==> Newest(Elements(entries), u, s, Find(entries, u, s).value)
    ensures Find(entries, u, s).None? ==> !HasCandidate(Elements(entries), u, s)
  {
    var k := LookupKey(u, s);
    var i := SeekIndex(entries, k);
    forall x | x in entries && Candidate(x, u, s)
      ensures i < |entries| && entries[i].key.user == u && x.key.sequence <= entries[i].key.sequence
    {
      var j :| 0 <= j < |entries| && entries[j] == x;
      assert !Less(x.key, k);
      assert i <= j;
    }
  }
}
