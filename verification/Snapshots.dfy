/** The live snapshots: a circular doubly-linked list in the order they were taken, from
    which a compaction takes the oldest number that anybody can still read at. */
module Snapshots {
  import opened Rings
  import E = Engine

  class SnapshotImpl {
    const number: nat
    var prev: SnapshotImpl?
    var next: SnapshotImpl?

    constructor (number: nat)
      ensures this.number == number
    {
      this.number := number;
      prev, next := null, null;
    }
  }

  /** Taken later, so not of a smaller number. */
  ghost predicate Ascending(s: seq<SnapshotImpl>) {
    forall i, j :: 0 <= i <= j < |s| ==> s[i].number <= s[j].number
  }

  ghost predicate Ring(head: SnapshotImpl, s: seq<SnapshotImpl>)
    reads head`next, head`prev, s`next, s`prev
  {
    && head !in s && NoneTwice(s)
    && (forall i :: -1 <= i < |s| ==> Node(head, s, i).next == Node(head, s, i + 1))
    && (forall i :: 0 <= i <= |s| ==> Node(head, s, i).prev == Node(head, s, i - 1))
  }

  ghost function Without<T>(s: seq<T>, i: nat): seq<T>
    requires i < |s|
  {
    s[..i] + s[i + 1..]
  }

  lemma OneLess(s: seq<SnapshotImpl>, i: nat)
    requires NoneTwice(s) && Ascending(s) && i < |s|
    ensures Ascending(Without(s, i)) && s[i] !in Without(s, i)
    ensures forall t :: t in Without(s, i) <==> t in s && t != s[i]
  {
    assert s == s[..i] + [s[i]] + s[i + 1..];
  }

  lemma RingParts(head: SnapshotImpl, s: seq<SnapshotImpl>)
    requires Ring(head, s)
    ensures head !in s && NoneTwice(s)
    ensures forall i {:trigger Node<SnapshotImpl>(head, s, i)} :: -1 <= i <= |s| ==> Node(head, s, i) == head || Node(head, s, i) in s
  {
  }

  method Unlink(s: SnapshotImpl, ghost head: SnapshotImpl, ghost live: seq<SnapshotImpl>, ghost i: nat)
    requires Ring(head, live) && i < |live| && live[i] == s
    modifies Node<SnapshotImpl>(head, live, i + 1)`prev, Node<SnapshotImpl>(head, live, i - 1)`next
    ensures Ring(head, Without(live, i))
  {
    assert Node(head, live, i).next == Node(head, live, i + 1) && Node(head, live, i).prev == Node(head, live, i - 1);
    Unlinked(head, live, i);
    s.prev.next := s.next;
    s.next.prev := s.prev;
  }

  class SnapshotList {
    const list: SnapshotImpl
    ghost var live: seq<SnapshotImpl>

    constructor ()
      ensures Valid() && live == [] && fresh(list)
    {
      var head := new SnapshotImpl(0);
      list := head;
      live := [];
      new;
      list.prev, list.next := list, list;
    }

    ghost predicate Valid()
      reads this, list, live
    {
      Ring(list, live) && Ascending(live)
    }

    predicate Empty()
      requires Valid()
      reads this, list, live
      ensures Empty() <==> live == []
    {
      assert Node(list, live, -1).next == Node(list, live, 0);
      list.next == list
    }

    /** The least number of all. */
    function Oldest(): (s: SnapshotImpl)
      requires Valid() && live != []
      reads this, list, live
      ensures s in live && s == live[0] && forall t :: t in live ==> s.number <= t.number
    {
      assert Node(list, live, -1).next == Node(list, live, 0);
      list.next
    }

    /** The greatest number of all. */
    function Newest(): (s: SnapshotImpl)
      requires Valid() && live != []
      reads this, list, live
      ensures s in live && forall t :: t in live ==> t.number <= s.number
    {
      assert Node(list, live, |live|).prev == Node(list, live, |live| - 1);
      list.prev
    }

    /** The last sequence number never decreases, so it goes to the end. */
    method New(seqno: nat) returns (s: SnapshotImpl)
      requires Valid() && forall t :: t in live ==> t.number <= seqno
      modifies this`live, list, live
      ensures Valid() && fresh(s) && s.number == seqno && live == old(live) + [s]
    {
      s := new SnapshotImpl(seqno);
      ghost var t := live + [s];
      assert Node(list, live, |live|).prev == Node(list, live, |live| - 1);
      s.next := list;
      s.prev := list.prev;
      s.prev.next := s;
      s.next.prev := s;
      assert forall k :: -1 <= k < |live| ==> Node(list, t, k) == Node(list, live, k);
      live := t;
    }

    method Delete(s: SnapshotImpl)
      requires Valid() && s in live
      modifies this`live, list, live
      ensures Valid() && s !in live && |live| + 1 == |old(live)|
      ensures forall t :: t in live <==> t in old(live) && t != s
      ensures exists i :: 0 <= i < |old(live)| && old(live)[i] == s && live == Without(old(live), i)
    {
      hide Ring;
      ghost var i :| 0 <= i < |live| && live[i] == s;
      RingParts(list, live);
      OneLess(live, i);
      Unlink(s, list, live, i);
      live := Without(live, i);
    }

    /** What a compaction may drop entries below: no live snapshot is older, and none
        taken from now on will be. */
    method SmallestSnapshot(lastSequence: nat) returns (smallest: nat)
      requires Valid() && forall t :: t in live ==> t.number <= lastSequence
      ensures smallest <= lastSequence && forall t :: t in live ==> smallest <= t.number
      ensures smallest == if live == [] then lastSequence else live[0].number
    {
      if Empty() {
        smallest := lastSequence;
      } else {
        smallest := Oldest().number;
      }
    }
  }

  // ---------------------------------------------------------------- the engine's snapshots

  ghost function Numbers(live: seq<SnapshotImpl>): (r: seq<nat>)
    ensures |r| == |live|
  {
    seq(|live|, i requires 0 <= i < |live| => live[i].number)
  }

  /** The list holds what the engine counts as live. */
  ghost predicate HoldsFor(list: SnapshotList, s: E.State)
    reads list, list.list, list.live
  {
    list.Valid() && E.SnapshotsOk(s) && Numbers(list.live) == s.snapshots
  }

  lemma NumbersBelow(list: SnapshotList, s: E.State)
    requires HoldsFor(list, s)
    ensures forall t :: t in list.live ==> t.number <= s.lastSequence
  {
    forall t | t in list.live
      ensures t.number <= s.lastSequence
    {
      var i :| 0 <= i < |list.live| && list.live[i] == t;
      assert Numbers(list.live)[i] == s.snapshots[i];
    }
  }

  /** Taking a snapshot is the engine's step. */
  method GetSnapshot(list: SnapshotList, lastSequence: nat, ghost s: E.State) returns (snapshot: SnapshotImpl, ghost t: E.State)
    requires HoldsFor(list, s) && lastSequence == s.lastSequence
    modifies list`live, list.list, list.live
    ensures E.Next(s, t, E.NewSnapshot) && HoldsFor(list, t) && snapshot.number == lastSequence
  {
    NumbersBelow(list, s);
    snapshot := list.New(lastSequence);
    t := s.(snapshots := s.snapshots + [s.lastSequence]);
  }

  /** So is releasing one. */
  method ReleaseSnapshot(list: SnapshotList, snapshot: SnapshotImpl, ghost s: E.State) returns (ghost i: nat, ghost t: E.State)
    requires HoldsFor(list, s) && snapshot in list.live
    modifies list`live, list.list, list.live
    ensures E.Next(s, t, E.ReleaseSnapshot(i)) && HoldsFor(list, t)
  {
    hide Ring, Ascending;
    ghost var before := list.live;
    list.Delete(snapshot);
    i :| 0 <= i < |before| && before[i] == snapshot && list.live == Without(before, i);
    t := s.(snapshots := Without(s.snapshots, i));
    FewerNumbers(before, i);
    StillOk(s, t, i);
  }

  lemma FewerNumbers(live: seq<SnapshotImpl>, i: nat)
    requires i < |live|
    ensures Numbers(Without(live, i)) == Without(Numbers(live), i)
  {
  }

  lemma StillOk(s: E.State, t: E.State, i: nat)
    requires E.SnapshotsOk(s) && i < |s.snapshots| && t == s.(snapshots := Without(s.snapshots, i))
    ensures E.SnapshotsOk(t)
  {
  }

  /** What a compaction reads off the list is the engine's smallest snapshot. */
  method SmallestSnapshot(list: SnapshotList, lastSequence: nat, ghost s: E.State) returns (smallest: nat)
    requires HoldsFor(list, s) && lastSequence == s.lastSequence
    ensures smallest == E.SmallestSnapshot(s)
  {
    NumbersBelow(list, s);
    smallest := list.SmallestSnapshot(lastSequence);
  }
}
