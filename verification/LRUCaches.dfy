/** The LRU cache: which handles are cached, in use or deleted, over every sequence of
    calls by clients that release what they hold, once. */
module LRUCaches {
  import opened Bytes
  import opened Rings
  import opened HandleTables

  ghost function Elems(s: seq<LRUHandle>): set<LRUHandle> {
    set h | h in s
  }

  ghost function IndexOf(s: seq<LRUHandle>, e: LRUHandle): (i: nat)
    requires e in s
    ensures i < |s| && s[i] == e
  {
    if s[0] == e then 0 else 1 + IndexOf(s[1..], e)
  }

  ghost function Without(s: seq<LRUHandle>, e: LRUHandle): seq<LRUHandle> {
    if e in s then s[..IndexOf(s, e)] + s[IndexOf(s, e) + 1..] else s
  }

  ghost function Charges(s: seq<LRUHandle>): nat {
    if s == [] then 0 else s[0].charge + Charges(s[1..])
  }

  lemma WithoutAt(s: seq<LRUHandle>, i: nat)
    requires NoneTwice(s) && i < |s|
    ensures Without(s, s[i]) == s[..i] + s[i + 1..]
  {
    assert IndexOf(s, s[i]) == i;
  }

  lemma {:induction false} ChargesConcat(a: seq<LRUHandle>, b: seq<LRUHandle>)
    ensures Charges(a + b) == Charges(a) + Charges(b)
  {
    if a == [] {
      assert a + b == b;
    } else {
      assert (a + b)[1..] == a[1..] + b;
      ChargesConcat(a[1..], b);
    }
  }

  lemma ChargesOf(e: LRUHandle)
    ensures Charges([e]) == e.charge
  {
    assert Charges([e][1..]) == 0;
  }

  lemma ChargesSnoc(s: seq<LRUHandle>, e: LRUHandle)
    ensures Charges(s + [e]) == Charges(s) + e.charge
  {
    ChargesConcat(s, [e]);
    ChargesOf(e);
  }

  lemma WithoutCharges(s: seq<LRUHandle>, e: LRUHandle)
    ensures Charges(Without(s, e)) == Charges(s) - if e in s then e.charge else 0
  {
    hide Charges, IndexOf;
    if e in s {
      var i := IndexOf(s, e);
      ChargesConcat(s[..i], s[i + 1..]);
      ChargesConcat(s[..i], [e]);
      ChargesConcat(s[..i] + [e], s[i + 1..]);
      ChargesOf(e);
      assert s == s[..i] + [e] + s[i + 1..];
    }
  }

  lemma Cut(s: seq<LRUHandle>, i: nat)
    requires NoneTwice(s) && i < |s|
    ensures NoneTwice(s[..i] + s[i + 1..]) && Elems(s[..i] + s[i + 1..]) == Elems(s) - {s[i]}
  {
    var t := s[..i] + s[i + 1..];
    assert forall k :: 0 <= k < i ==> t[k] == s[k];
    assert forall k :: i <= k < |t| ==> t[k] == s[k + 1];
    forall h | h in s && h != s[i]
      ensures h in t
    {
      var k :| 0 <= k < |s| && s[k] == h;
      if k > i {
        assert t[k - 1] == h;
      } else {
        assert t[k] == h;
      }
    }
  }

  lemma WithoutFacts(s: seq<LRUHandle>, e: LRUHandle)
    requires NoneTwice(s)
    ensures NoneTwice(Without(s, e)) && Elems(Without(s, e)) == Elems(s) - {e}
    ensures Charges(Without(s, e)) == Charges(s) - if e in s then e.charge else 0
    ensures forall h :: h in Without(s, e) <==> h in s && h != e
    ensures e !in s ==> Without(s, e) == s
  {
    hide NoneTwice, Charges, IndexOf;
    WithoutCharges(s, e);
    if e in s {
      Cut(s, IndexOf(s, e));
    }
    assert forall h :: h in Without(s, e) <==> h in Elems(Without(s, e));
  }

  // ---------------------------------------------------------------- moving between lists

  /** Takes a handle off the list it is on. */
  method Unlink(e: LRUHandle, ghost head: LRUHandle, ghost s: seq<LRUHandle>, ghost other: LRUHandle, ghost t: seq<LRUHandle>)
    requires Ring(head, s) && e in s && Ring(other, t) && other != head && other !in s && head !in t && Elems(s) !! Elems(t)
    modifies ({head} + Elems(s))`next, ({head} + Elems(s))`prev
    ensures Ring(head, Without(s, e)) && Ring(other, t)
  {
    hide Ring, Node;
    RingDistinct(head, s);
    ghost var i: nat :| 0 <= i < |s| && s[i] == e;
    Neighbours(head, s, i);
    LRURemove(e, head, s, i);
    WithoutAt(s, i);
  }

  lemma RingDistinct(head: LRUHandle, s: seq<LRUHandle>)
    requires Ring(head, s)
    ensures NoneTwice(s) && head !in s
  {
  }

  lemma Neighbours(head: LRUHandle, s: seq<LRUHandle>, i: nat)
    requires i < |s|
    ensures Node(head, s, i + 1) in {head} + Elems(s) && Node(head, s, i - 1) in {head} + Elems(s)
  {
  }

  lemma LastNode(head: LRUHandle, s: seq<LRUHandle>)
    ensures Node(head, s, |s| - 1) in {head} + Elems(s)
  {
  }

  /** Puts a handle at the end of a list. */
  method Link(e: LRUHandle, head: LRUHandle, ghost s: seq<LRUHandle>, ghost other: LRUHandle, ghost t: seq<LRUHandle>)
    requires Ring(head, s) && e !in s && e != head
    requires Ring(other, t) && other != head && other !in s && head !in t && Elems(s) !! Elems(t) && e !in t && e != other
    modifies e`next, e`prev, ({head} + Elems(s))`next, ({head} + Elems(s))`prev
    ensures Ring(head, s + [e]) && Ring(other, t)
  {
    hide Ring, Node;
    LastNode(head, s);
    LRUAppend(head, e, s);
  }

  // ---------------------------------------------------------------- the books

  /** All handles ever made, and where they are: cached and unused, cached and in use,
      held by clients only, or deleted. `owned` counts the references of clients. */
  datatype Books = Books(all: set<LRUHandle>, lru: seq<LRUHandle>, inUse: seq<LRUHandle>,
                         owned: multiset<LRUHandle>, deleted: seq<LRUHandle>)

  ghost predicate Balanced(b: Books) {
    && NoneTwice(b.lru) && NoneTwice(b.inUse) && NoneTwice(b.deleted)
    && (forall h :: h in b.lru ==> h in b.all && b.owned[h] == 0)
    && (forall h :: h in b.inUse ==> h in b.all && b.owned[h] > 0)
    && (forall h :: h in b.deleted ==> h in b.all)
    && (forall h :: h in b.owned ==> h in b.all)
    && forall h :: h in b.all ==> (h in b.deleted <==> b.owned[h] == 0 && h !in b.lru)
  }

  ghost predicate Cached(b: Books, h: LRUHandle) {
    h in b.lru || h in b.inUse
  }

  ghost function Usage(b: Books): nat {
    Charges(b.lru) + Charges(b.inUse)
  }

  ghost function CachedSet(b: Books): set<LRUHandle> {
    Elems(b.lru) + Elems(b.inUse)
  }

  /** The reference count of each handle that is alive or has been. */
  ghost predicate Counted(b: Books)
    reads b.all`refs, b.all`inCache
  {
    forall h :: h in b.all ==> h.refs == b.owned[h] + (if Cached(b, h) then 1 else 0) && h.inCache == Cached(b, h)
  }

  /** A client takes a reference. */
  ghost function Took(b: Books, e: LRUHandle): Books {
    var owned := b.owned + multiset{e};
    if e in b.lru then b.(lru := Without(b.lru, e), inUse := b.inUse + [e], owned := owned) else b.(owned := owned)
  }

  /** A reference goes. */
  ghost function Gave(b: Books, e: LRUHandle): Books {
    var owned := b.owned - multiset{e};
    if owned[e] > 0 then b.(owned := owned)
    else if e in b.inUse then b.(lru := b.lru + [e], inUse := Without(b.inUse, e), owned := owned)
    else b.(deleted := b.deleted + [e], owned := owned)
  }

  /** The cache drops a handle; its reference is somebody's to give up. */
  ghost function Evicted(b: Books, e: LRUHandle): Books {
    b.(lru := Without(b.lru, e), inUse := Without(b.inUse, e), owned := b.owned + multiset{e})
  }

  /** The cache drops a handle, and with it the last reference if no client has one. */
  ghost function Erased(b: Books, e: LRUHandle): Books {
    Gave(Evicted(b, e), e)
  }

  lemma SnocNoneTwice(s: seq<LRUHandle>, e: LRUHandle)
    requires NoneTwice(s) && e !in s
    ensures NoneTwice(s + [e])
  {
  }

  lemma TookBalanced(b: Books, e: LRUHandle)
    requires Balanced(b) && Cached(b, e)
    ensures Balanced(Took(b, e)) && CachedSet(Took(b, e)) == CachedSet(b) && Usage(Took(b, e)) == Usage(b)
  {
    hide Charges, NoneTwice, IndexOf;
    WithoutFacts(b.lru, e);
    ChargesSnoc(b.inUse, e);
    if e in b.lru {
      SnocNoneTwice(b.inUse, e);
    }
  }

  lemma GaveBalanced(b: Books, e: LRUHandle)
    requires Balanced(b) && b.owned[e] > 0
    ensures Balanced(Gave(b, e)) && CachedSet(Gave(b, e)) == CachedSet(b) && Usage(Gave(b, e)) == Usage(b)
  {
    hide Charges, NoneTwice, IndexOf;
    WithoutFacts(b.inUse, e);
    ChargesSnoc(b.lru, e);
    if b.owned[e] == 1 {
      if e in b.inUse {
        SnocNoneTwice(b.lru, e);
      } else {
        SnocNoneTwice(b.deleted, e);
      }
    }
  }

  lemma EvictedBalanced(b: Books, e: LRUHandle)
    requires Balanced(b) && Cached(b, e)
    ensures Balanced(Evicted(b, e)) && CachedSet(Evicted(b, e)) == CachedSet(b) - {e}
    ensures Usage(Evicted(b, e)) == Usage(b) - e.charge
  {
    hide Charges, NoneTwice, IndexOf;
    WithoutFacts(b.lru, e);
    WithoutFacts(b.inUse, e);
  }

  /** A new handle, with a reference for the client. */
  ghost function Made(b: Books, e: LRUHandle, cached: bool): Books {
    b.(all := b.all + {e}, inUse := if cached then b.inUse + [e] else b.inUse, owned := b.owned + multiset{e})
  }

  lemma MadeBalanced(b: Books, e: LRUHandle, cached: bool)
    requires Balanced(b) && e !in b.all
    ensures Balanced(Made(b, e, cached))
    ensures CachedSet(Made(b, e, cached)) == CachedSet(b) + if cached then {e} else {}
    ensures Usage(Made(b, e, cached)) == Usage(b) + if cached then e.charge else 0
  {
    hide Charges;
    ChargesSnoc(b.inUse, e);
  }

  /** The oldest `n` unused handles go, oldest first. */
  ghost function DropOldest(b: Books, n: nat): Books
    requires n <= |b.lru|
  {
    b.(lru := b.lru[n..], deleted := b.deleted + b.lru[..n])
  }

  lemma ErasedOldest(b: Books, n: nat)
    requires n < |b.lru| && Balanced(b)
    ensures Balanced(DropOldest(b, n)) ==> Erased(DropOldest(b, n), b.lru[n]) == DropOldest(b, n + 1)
  {
    hide NoneTwice;
    var d := DropOldest(b, n);
    var e := b.lru[n];
    if Balanced(d) {
      assert d.lru[0] == e && IndexOf(d.lru, e) == 0;
      assert d.lru[..0] + d.lru[1..] == b.lru[n + 1..];
      assert d.deleted + [e] == b.deleted + b.lru[..n + 1];
      assert e in d.lru && d.owned[e] == 0 && e !in d.inUse;
      assert d.owned + multiset{e} - multiset{e} == d.owned;
    }
  }

  /** Every handle is cached, or held by a client, or was deleted, and deleted once. */
  lemma DeletedOnce(b: Books, h: LRUHandle)
    requires Balanced(b) && h in b.all
    ensures multiset(b.deleted)[h] == if b.owned[h] == 0 && !Cached(b, h) then 1 else 0
    ensures h in b.lru ==> h !in b.inUse && multiset(b.lru)[h] == 1
    ensures h in b.inUse ==> multiset(b.inUse)[h] == 1
  {
    hide NoneTwice;
    Multiplicity(b.deleted, h);
    Multiplicity(b.lru, h);
    Multiplicity(b.inUse, h);
  }

  lemma {:induction false} Multiplicity(s: seq<LRUHandle>, h: LRUHandle)
    requires NoneTwice(s)
    ensures multiset(s)[h] == if h in s then 1 else 0
  {
    if s != [] {
      var k := |s| - 1;
      Multiplicity(s[..k], h);
      assert s == s[..k] + [s[k]];
    }
  }

  // ---------------------------------------------------------------- the cache

  lemma EmptyRing(head: LRUHandle)
    requires head.next == head && head.prev == head
    ensures Ring(head, [])
  {
  }

  lemma NoBooks()
    ensures
      var b := Books({}, [], [], multiset{}, []);
      Balanced(b) && Counted(b) && Usage(b) == 0 && CachedSet(b) == {}
  {
  }

  class LRUCache {
    var capacity: nat
    var usage: nat
    const lru: LRUHandle            // dummy heads of the two lists
    const inUse: LRUHandle
    const table: HandleTable
    var deleted: seq<LRUHandle>     // handles passed to their deleters
    ghost var books: Books

    constructor (capacity: nat)
      ensures Valid() && this.capacity == capacity && books == Books({}, [], [], multiset{}, [])
      ensures fresh(lru) && fresh(inUse) && fresh(table) && fresh(table.list)
    {
      hide Ring, Balanced, Counted, HandleTable.Valid, Usage, CachedSet, State, Kept;
      this.capacity, usage, deleted := capacity, 0, [];
      lru := new LRUHandle([], 0, 0, 0);
      inUse := new LRUHandle([], 0, 0, 0);
      table := new HandleTable();
      books := Books({}, [], [], multiset{}, []);
      new;
      lru.next, lru.prev := lru, lru;
      inUse.next, inUse.prev := inUse, inUse;
      EmptyRing(lru);
      EmptyRing(inUse);
      Opened();
    }

    lemma Opened()
      requires books == Books({}, [], [], multiset{}, []) && deleted == [] && usage == 0 && lru != inUse
      requires Ring(lru, []) && Ring(inUse, []) && table.Valid() && table.nodes == {}
      ensures Valid()
    {
      hide Ring, Balanced, Counted, HandleTable.Valid, Usage, CachedSet;
      NoBooks();
    }

    /** The counts and the lists are what the books say. */
    ghost predicate Kept(b: Books)
      reads this`deleted, this`usage, ({lru, inUse} + b.all)`next, ({lru, inUse} + b.all)`prev, b.all`refs, b.all`inCache
    {
      && Balanced(b) && Counted(b) && deleted == b.deleted && usage == Usage(b)
      && lru != inUse && lru !in b.all && inUse !in b.all
      && (Apart(b); Ring(lru, b.lru) && Ring(inUse, b.inUse))
    }

    /** And the table holds what is cached, except for what is `gone` already. */
    ghost predicate State(b: Books, gone: set<LRUHandle>)
      reads this, lru, inUse, table, table.list, b.all
    {
      && Kept(b)
      && CachedSet(b) == table.nodes + gone && gone !! table.nodes && table.Valid()
    }

    ghost predicate Valid()
      reads this, lru, inUse, table, table.list, books.all
    {
      State(books, {})
    }

    lemma Apart(b: Books)
      requires Balanced(b) && lru !in b.all && inUse !in b.all
      ensures Elems(b.lru) <= b.all && Elems(b.inUse) <= b.all && Elems(b.lru) !! Elems(b.inUse)
      ensures lru !in b.inUse && inUse !in b.lru
    {
      hide NoneTwice;
    }

    lemma RefMeans(b: Books, e: LRUHandle)
      requires Balanced(b) && Counted(b) && e in b.all
      ensures Cached(b, e) <==> e.inCache
      ensures e in b.lru <==> e.refs == 1 && e.inCache
      ensures e in b.inUse <==> e.refs > 1 && e.inCache
    {
      hide NoneTwice;
    }

    /** From the list of unused handles to those in use. */
    method Unpark(e: LRUHandle, ghost b: Books)
      requires Balanced(b) && e in b.lru && lru != inUse && lru !in b.all && inUse !in b.all
      requires Ring(lru, b.lru) && Ring(inUse, b.inUse)
      modifies ({lru, inUse} + b.all)`next, ({lru, inUse} + b.all)`prev
      ensures Ring(lru, Without(b.lru, e)) && Ring(inUse, b.inUse + [e])
    {
      hide Ring, Balanced, Without, NoneTwice, IndexOf;
      Apart(b);
      UnusedFacts(b, e);
      Unlink(e, lru, b.lru, inUse, b.inUse);
      Link(e, inUse, b.inUse, lru, Without(b.lru, e));
    }

    /** One more reference; an unused handle moves to the list of those in use. */
    method Ref(e: LRUHandle, ghost b: Books)
      requires State(b, {}) && Cached(b, e) && e in b.all
      modifies e`refs, ({lru, inUse} + b.all)`next, ({lru, inUse} + b.all)`prev
      ensures State(Took(b, e), {})
    {
      hide Ring, Balanced, HandleTable.Valid, Without, Usage, CachedSet, NoneTwice, IndexOf, Charges, Took;
      TookBalanced(b, e);
      RefMeans(b, e);
      TookMembers(b, e);
      if e.refs == 1 && e.inCache {
        Unpark(e, b);
      }
      e.refs := e.refs + 1;
    }

    /** From the list of handles in use to the newest end of the unused ones. */
    method Park(e: LRUHandle, ghost b: Books)
      requires Balanced(b) && e in b.inUse && lru != inUse && lru !in b.all && inUse !in b.all
      requires Ring(lru, b.lru) && Ring(inUse, b.inUse)
      modifies ({lru, inUse} + b.all)`next, ({lru, inUse} + b.all)`prev
      ensures Ring(lru, b.lru + [e]) && Ring(inUse, Without(b.inUse, e))
    {
      hide Ring, Balanced, Without, NoneTwice, IndexOf;
      Apart(b);
      InUseFacts(b, e);
      Unlink(e, inUse, b.inUse, lru, b.lru);
      Link(e, lru, b.lru, inUse, Without(b.inUse, e));
    }

    /** One reference less: the handle may become unused, or be deleted. */
    method Unref(e: LRUHandle, ghost b: Books)
      requires State(b, {}) && b.owned[e] > 0 && e in b.all
      modifies e`refs, this`deleted, ({lru, inUse} + b.all)`next, ({lru, inUse} + b.all)`prev
      ensures State(Gave(b, e), {})
    {
      hide Ring, Balanced, HandleTable.Valid, Without, Usage, CachedSet, NoneTwice, IndexOf, Charges, Gave;
      GaveBalanced(b, e);
      RefMeans(b, e);
      GaveMembers(b, e);
      e.refs := e.refs - 1;
      if e.refs == 0 {
        deleted := deleted + [e];
      } else if e.inCache && e.refs == 1 {
        Park(e, b);
      }
    }

    /** Takes a handle off the cache's list, whichever it is on. */
    method Detach(e: LRUHandle, ghost b: Books)
      requires Balanced(b) && Cached(b, e) && lru != inUse && lru !in b.all && inUse !in b.all
      requires Ring(lru, b.lru) && Ring(inUse, b.inUse)
      modifies ({lru, inUse} + b.all)`next, ({lru, inUse} + b.all)`prev
      ensures Ring(lru, Without(b.lru, e)) && Ring(inUse, Without(b.inUse, e))
    {
      hide Ring, Balanced, Without;
      Apart(b);
      WithoutOther(b, e);
      ghost var unused := e in b.lru;
      Unlink(e, if unused then lru else inUse, if unused then b.lru else b.inUse,
             if unused then inUse else lru, if unused then b.inUse else b.lru);
    }

    /** Finishes what taking a handle out of the hash table began. */
    method FinishErase(e: LRUHandle?, ghost b: Books) returns (erased: bool)
      requires if e == null then State(b, {}) else State(b, {e}) && Cached(b, e) && e in b.all
      modifies this`usage, this`deleted, (if e == null then {} else {e})`refs, (if e == null then {} else {e})`inCache,
               ({lru, inUse} + b.all)`next, ({lru, inUse} + b.all)`prev
      ensures erased == (e != null) && State(if e == null then b else Erased(b, e), {})
    {
      hide Ring, Balanced, HandleTable.Valid, Without, Usage, CachedSet, NoneTwice, IndexOf, Charges;
      if e != null {
        EvictedBalanced(b, e);
        EvictedMembers(b, e);
        Detach(e, b);
        e.inCache := false;
        usage := usage - e.charge;
        Unref(e, Evicted(b, e));
      }
      erased := e != null;
    }

    // ---------------------------------------------------------------- what clients call

    /** The handle for a key, with one more reference. */
    method Lookup(key: Data, hash: nat) returns (e: LRUHandle?)
      requires Valid()
      modifies this`books, books.all`refs, ({lru, inUse} + books.all)`next, ({lru, inUse} + books.all)`prev
      ensures Valid() && Finds(e, table.nodes, key, hash) && table.nodes == old(table.nodes)
      ensures books == if e == null then old(books) else Took(old(books), e)
    {
      hide Ring, Balanced, HandleTable.Valid, Without, Usage, CachedSet, NoneTwice, IndexOf, Charges, Finds, Counted;
      e := table.Lookup(key, hash);
      if e != null {
        CachedIs(books, e, key, hash, table.nodes);
        Ref(e, books);
        books := Took(books, e);
      }
    }

    /** A client gives its reference back. */
    method Release(e: LRUHandle)
      requires Valid() && books.owned[e] > 0 && e in books.all
      modifies this`books, e`refs, this`deleted, ({lru, inUse} + books.all)`next, ({lru, inUse} + books.all)`prev
      ensures Valid() && books == Gave(old(books), e) && table.nodes == old(table.nodes)
    {
      hide Ring, Balanced, HandleTable.Valid, Without, Usage, CachedSet, NoneTwice, IndexOf, Charges, Counted, Gave;
      GaveKeeps(books, e);
      Unref(e, books);
      books := Gave(books, e);
    }

    /** Drops the handle for a key. */
    method Erase(key: Data, hash: nat) returns (ghost found: LRUHandle?)
      requires Valid()
      modifies this, table, table.list, table.nodes`nextHash, books.all, lru, inUse
      ensures Valid() && capacity == old(capacity) && table.list == old(table.list)
      ensures Finds(found, old(table.nodes), key, hash) && table.nodes == old(table.nodes) - One(found)
      ensures books == if found == null then old(books) else Erased(old(books), found)
    {
      hide Ring, Balanced, HandleTable.Valid, Without, Usage, NoneTwice, IndexOf, Charges, Finds, Counted, Erased;
      ghost var nodes := table.nodes;
      NodesLive(books, nodes);
      var e := table.Remove(key, hash);
      if e != null {
        CachedIs(books, e, key, hash, nodes);
        ErasedKeeps(books, e);
      }
      RemovedGone(books, nodes, e);
      var erased := FinishErase(e, books);
      books := if e == null then books else Erased(books, e);
      found := e;
    }

    /** A new handle joins those in use. */
    method Enter(e: LRUHandle, ghost b: Books)
      requires Kept(b) && e !in b.all && e != lru && e != inUse && e.refs == 2 && e.inCache
      modifies this`usage, ({lru, inUse, e} + b.all)`next, ({lru, inUse, e} + b.all)`prev
      ensures Kept(Made(b, e, true))
    {
      hide Ring, Balanced, Without, Usage, CachedSet, NoneTwice, IndexOf, Charges;
      Apart(b);
      MadeBalanced(b, e, true);
      MadeMembers(b, e);
      Link(e, inUse, b.inUse, lru, b.lru);
      usage := usage + e.charge;
    }

    /** Puts a new handle into the cache; the one with its key has to go. */
    method AddToCache(e: LRUHandle, ghost b: Books) returns (ghost previous: LRUHandle?)
      requires State(b, {}) && e !in b.all && e != lru && e != inUse && e.refs == 2 && e.inCache
      modifies this`usage, this`deleted, table, table.list, ({e} + b.all)`nextHash, ({e} + b.all)`refs, b.all`inCache,
               ({lru, inUse, e} + b.all)`next, ({lru, inUse, e} + b.all)`prev
      ensures table.list == old(table.list) || fresh(table.list)
      ensures Finds(previous, old(table.nodes), e.key, e.hash) && table.nodes == old(table.nodes) - One(previous) + {e}
      ensures
        var made := Made(b, e, true);
        State(if previous == null then made else Erased(made, previous), {})
    {
      hide Ring, Balanced, HandleTable.Valid, Without, Usage, CachedSet, NoneTwice, IndexOf, Charges, Finds, Erased, Kept;
      ghost var nodes := table.nodes;
      ghost var made := Made(b, e, true);
      KeptBalanced(b);
      NodesLive(b, nodes);
      MadeBalanced(b, e, true);
      Enter(e, b);
      var other := table.Insert(e);
      previous := other;
      if other != null {
        CachedIs(b, other, e.key, e.hash, nodes);
      }
      InsertedGone(nodes, e, other);
      var erased := FinishErase(other, made);
    }

    lemma KeptBalanced(b: Books)
      requires Kept(b)
      ensures Balanced(b)
    {
    }

    /** What becomes of a new handle: into the cache, if there is any room to have. */
    method Admit(e: LRUHandle, ghost b: Books) returns (ghost previous: LRUHandle?, ghost entered: Books)
      requires State(b, {}) && e !in b.all && e != lru && e != inUse && e.refs == 1 && !e.inCache
      modifies this`usage, this`deleted, table, table.list, ({e} + b.all)`nextHash, ({e} + b.all)`refs, ({e} + b.all)`inCache,
               ({lru, inUse, e} + b.all)`next, ({lru, inUse, e} + b.all)`prev
      ensures table.list == old(table.list) || fresh(table.list)
      ensures if capacity == 0 then previous == null else Finds(previous, old(table.nodes), e.key, e.hash)
      ensures State(entered, {}) && entered.all == b.all + {e}
      ensures
        var made := Made(b, e, capacity > 0);
        entered == if previous == null then made else Erased(made, previous)
    {
      hide Ring, Balanced, HandleTable.Valid, Without, Usage, CachedSet, NoneTwice, IndexOf, Charges, Finds, Erased, Counted;
      previous := null;
      if capacity > 0 {
        e.refs := e.refs + 1;
        e.inCache := true;
        previous := AddToCache(e, b);
      } else {
        KeepAside(e, b);
      }
      ghost var made := Made(b, e, capacity > 0);
      entered := if previous == null then made else Erased(made, previous);
      if previous != null {
        ErasedKeeps(made, previous);
      }
    }

    lemma OldestFirst(b: Books)
      requires Ring(lru, b.lru)
      ensures lru.next == (if b.lru == [] then lru else b.lru[0]) && (b.lru != [] ==> b.lru[0] != lru)
    {
      assert Node(lru, b.lru, -1).next == Node(lru, b.lru, 0);
    }

    lemma KeysDistinct()
      requires table.Valid()
      ensures Keyed(table.nodes)
    {
    }

    /** Evicts the oldest unused handle. */
    method EvictOldest(ghost b: Books)
      requires State(b, {}) && b.lru != []
      modifies this`usage, this`deleted, table, table.list, b.all`nextHash, b.all`refs, b.all`inCache,
               ({lru, inUse} + b.all)`next, ({lru, inUse} + b.all)`prev
      ensures State(DropOldest(b, 1), {}) && table.list == old(table.list)
    {
      hide Ring, Balanced, HandleTable.Valid, Without, Usage, CachedSet, NoneTwice, IndexOf, Charges, Erased, Keyed, Finds;
      ghost var nodes := table.nodes;
      OldestFirst(b);
      NodesLive(b, nodes);
      OldestIs(b, nodes);
      KeysDistinct();
      var oldest := lru.next;
      var e := table.Remove(oldest.key, oldest.hash);
      OnlyOne(nodes, b.lru[0], e);
      RemovedGone(b, nodes, e);
      ErasedKeeps(b, oldest);
      NoneDropped(b);
      ErasedOldest(b, 0);
      var erased := FinishErase(e, b);
    }

    /** Evicts until the cache is small enough, or nothing is unused. */
    method Shrink(ghost b: Books) returns (ghost n: nat)
      requires State(b, {})
      modifies this`usage, this`deleted, table, table.list, b.all`nextHash, b.all`refs, b.all`inCache,
               ({lru, inUse} + b.all)`next, ({lru, inUse} + b.all)`prev
      ensures n <= |b.lru| && State(DropOldest(b, n), {}) && table.list == old(table.list)
      ensures Usage(DropOldest(b, n)) <= capacity || n == |b.lru|
      ensures n > 0 ==> Usage(DropOldest(b, n - 1)) > capacity
    {
      hide Ring, Balanced, HandleTable.Valid, Without, Usage, CachedSet, NoneTwice, IndexOf, Charges, Counted, Keyed, Finds;
      n := 0;
      NoneDropped(b);
      OldestFirst(b);
      while usage > capacity && lru.next != lru
        invariant n <= |b.lru| && State(DropOldest(b, n), {}) && table.list == old(table.list)
        invariant lru.next == lru <==> n == |b.lru|
        invariant n > 0 ==> Usage(DropOldest(b, n - 1)) > capacity
        decreases |b.lru| - n
      {
        DropMore(b, n);
        EvictOldest(DropOldest(b, n));
        n := n + 1;
        OldestFirst(DropOldest(b, n));
      }
    }

    /** Evicts everything that is not in use. */
    method Prune()
      requires Valid()
      modifies this, table, table.list, books.all`nextHash, books.all`refs, books.all`inCache,
               ({lru, inUse} + books.all)`next, ({lru, inUse} + books.all)`prev
      ensures Valid() && books == DropOldest(old(books), |old(books).lru|)
      ensures capacity == old(capacity) && table.list == old(table.list)
    {
      hide Ring, Balanced, HandleTable.Valid, Without, Usage, CachedSet, NoneTwice, IndexOf, Charges, Counted, Keyed, Finds;
      ghost var b := books;
      ghost var n := 0;
      NoneDropped(b);
      OldestFirst(b);
      while lru.next != lru
        invariant n <= |b.lru| && State(DropOldest(b, n), {}) && table.list == old(table.list) && capacity == old(capacity)
        invariant lru.next == lru <==> n == |b.lru|
        decreases |b.lru| - n
      {
        DropMore(b, n);
        EvictOldest(DropOldest(b, n));
        n := n + 1;
        OldestFirst(DropOldest(b, n));
      }
      books := DropOldest(b, n);
    }

    /** The destructor: no handle may be in use; the unused ones are deleted, oldest
        first. */
    method Dispose()
      requires Valid() && books.inUse == []
      modifies this`deleted, books.all`refs, books.all`inCache
      ensures deleted == DropOldest(old(books), |old(books).lru|).deleted
      ensures forall h :: h in books.all && books.owned[h] == 0 ==> h.refs == 0 && multiset(deleted)[h] == 1
    {
      hide Ring, Balanced, HandleTable.Valid, Without, Usage, CachedSet, NoneTwice, IndexOf, Charges, Counted;
      DisposeFacts(books);
      DeleteUnused(books);
      AllDisposed(books);
    }

    method DeleteUnused(ghost b: Books)
      requires Ring(lru, b.lru) && deleted == b.deleted && forall k :: 0 <= k < |b.lru| ==> b.lru[k].refs == 1
      modifies this`deleted, b.lru`refs, b.lru`inCache
      ensures deleted == b.deleted + b.lru && forall k :: 0 <= k < |b.lru| ==> b.lru[k].refs == 0
    {
      hide Ring, Node;
      ghost var i := 0;
      OldestFirst(b);
      var e := lru.next;
      while e != lru
        invariant i <= |b.lru| && (e == if i < |b.lru| then b.lru[i] else lru) && Ring(lru, b.lru)
        invariant deleted == b.deleted + b.lru[..i]
        invariant forall k :: i <= k < |b.lru| ==> b.lru[k].refs == 1
        invariant forall k :: 0 <= k < i ==> b.lru[k].refs == 0
        decreases |b.lru| - i
      {
        NextOf(b, i);
        var next := e.next;
        e.inCache := false;
        e.refs := e.refs - 1;
        if e.refs == 0 {
          deleted := deleted + [e];
        }
        assert b.lru[..i + 1] == b.lru[..i] + [b.lru[i]];
        e := next;
        i := i + 1;
      }
      NextOf(b, i);
      assert b.lru[..|b.lru|] == b.lru;
    }

    lemma NextOf(b: Books, i: nat)
      requires Ring(lru, b.lru) && i <= |b.lru|
      ensures i < |b.lru| ==> b.lru[i] != lru
      ensures i < |b.lru| ==> b.lru[i].next == if i + 1 < |b.lru| then b.lru[i + 1] else lru
      ensures i < |b.lru| ==> forall k :: 0 <= k < |b.lru| && k != i ==> b.lru[k] != b.lru[i]
    {
      assert i < |b.lru| ==> Node(lru, b.lru, i).next == Node(lru, b.lru, i + 1);
    }

    lemma KeepAside(e: LRUHandle, b: Books)
      requires State(b, {}) && e !in b.all && e != lru && e != inUse && e.refs == 1 && !e.inCache
      ensures State(Made(b, e, false), {})
    {
      hide Ring, Balanced, HandleTable.Valid, Without, Usage, CachedSet, NoneTwice, IndexOf, Charges;
      MadeBalanced(b, e, false);
      MadeMembers(b, e);
    }

    /** Caches a value under its key, in place of the one there, and evicts what no longer
        fits; without capacity, the handle is the client's alone. */
    method Insert(key: Data, hash: nat, value: int, charge: nat) returns (e: LRUHandle, ghost previous: LRUHandle?, ghost n: nat)
      requires Valid()
      modifies this, table, table.list, books.all`nextHash, books.all`refs, books.all`inCache,
               ({lru, inUse} + books.all)`next, ({lru, inUse} + books.all)`prev
      ensures Valid() && fresh(e) && e.key == key && e.hash == hash && e.value == value && e.charge == charge
      ensures capacity == old(capacity) && (table.list == old(table.list) || fresh(table.list))
      ensures if capacity == 0 then previous == null else Finds(previous, old(table.nodes), key, hash)
      ensures
        var made := Made(old(books), e, capacity > 0);
        var entered := if previous == null then made else Erased(made, previous);
        && n <= |entered.lru| && books == DropOldest(entered, n)
        && (n > 0 ==> Usage(DropOldest(entered, n - 1)) > capacity)
      ensures usage <= capacity || books.lru == []
    {
      hide Ring, Balanced, HandleTable.Valid, Without, CachedSet, NoneTwice, IndexOf, Charges, Counted, Keyed, Finds, Erased, Made;
      e := new LRUHandle(key, hash, value, charge);
      ghost var entered;
      previous, entered := Admit(e, books);
      n := Shrink(entered);
      books := DropOldest(entered, n);
    }
  }

  lemma CachedIs(b: Books, e: LRUHandle, key: Data, hash: nat, nodes: set<LRUHandle>)
    requires Finds(e, nodes, key, hash) && CachedSet(b) == nodes + {} && Balanced(b)
    ensures Cached(b, e) && e in b.all && e in nodes
  {
    hide NoneTwice;
    assert e in CachedSet(b);
  }

  lemma NodesLive(b: Books, nodes: set<LRUHandle>)
    requires CachedSet(b) == nodes + {} && Balanced(b)
    ensures nodes <= b.all
  {
    hide NoneTwice;
    forall e | e in nodes
      ensures e in b.all
    {
      assert e in CachedSet(b);
    }
  }

  lemma GaveKeeps(b: Books, e: LRUHandle)
    ensures Gave(b, e).all == b.all
  {
  }

  lemma ErasedKeeps(b: Books, e: LRUHandle)
    ensures Erased(b, e).all == b.all
  {
  }

  /** What the table no longer holds is what the cache still has to finish. */
  lemma RemovedGone(b: Books, nodes: set<LRUHandle>, e: LRUHandle?)
    requires CachedSet(b) == nodes + {} && (e != null ==> e in nodes)
    ensures CachedSet(b) == (nodes - One(e)) + One(e) && One(e) !! (nodes - One(e))
  {
  }

  lemma InsertedGone(nodes: set<LRUHandle>, e: LRUHandle, previous: LRUHandle?)
    requires e !in nodes && (previous != null ==> previous in nodes)
    ensures nodes + {} + {e} == (nodes - One(previous) + {e}) + One(previous)
    ensures One(previous) !! (nodes - One(previous) + {e})
  {
  }

  lemma MadeMembers(b: Books, e: LRUHandle)
    requires Balanced(b) && e !in b.all
    ensures e !in b.lru && e !in b.inUse && b.owned[e] == 0
    ensures forall h :: h in b.all ==>
      Cached(Made(b, e, true), h) == Cached(b, h) && Made(b, e, true).owned[h] == b.owned[h]
    ensures Cached(Made(b, e, true), e) && Made(b, e, true).owned[e] == 1
    ensures forall h :: h in b.all ==> Made(b, e, false).owned[h] == b.owned[h]
    ensures Made(b, e, false).owned[e] == 1
  {
    hide NoneTwice;
  }

  lemma DisposeFacts(b: Books)
    requires Balanced(b) && Counted(b)
    ensures forall k :: 0 <= k < |b.lru| ==> b.lru[k] in b.all && b.lru[k].refs == 1 && b.lru[k] !in b.deleted
    ensures b.inUse == [] ==> forall h :: h in b.deleted ==> h in b.all && h !in b.lru && h.refs == 0
  {
    hide NoneTwice;
    forall k | 0 <= k < |b.lru|
      ensures b.lru[k] in b.all && b.lru[k].refs == 1 && b.lru[k] !in b.deleted
    {
      assert b.lru[k] in b.lru;
    }
  }

  lemma AllDisposed(b: Books)
    requires Balanced(b) && b.inUse == []
    ensures forall h :: h in b.all && b.owned[h] == 0 ==> (h in b.deleted || h in b.lru) && multiset(b.deleted + b.lru)[h] == 1
    ensures DropOldest(b, |b.lru|).deleted == b.deleted + b.lru
  {
    hide NoneTwice;
    assert b.lru[..|b.lru|] == b.lru;
    forall h | h in b.all && b.owned[h] == 0
      ensures multiset(b.deleted + b.lru)[h] == 1
    {
      Multiplicity(b.deleted, h);
      Multiplicity(b.lru, h);
      assert multiset(b.deleted + b.lru)[h] == multiset(b.deleted)[h] + multiset(b.lru)[h];
    }
  }

  lemma OldestIs(b: Books, nodes: set<LRUHandle>)
    requires Balanced(b) && b.lru != [] && CachedSet(b) == nodes + {}
    ensures b.lru[0] in nodes && b.lru[0] in b.all && Cached(b, b.lru[0])
  {
    hide NoneTwice;
    assert b.lru[0] in CachedSet(b);
  }

  lemma OnlyOne(nodes: set<LRUHandle>, h: LRUHandle, e: LRUHandle?)
    requires Keyed(nodes) && h in nodes && Finds(e, nodes, h.key, h.hash)
    ensures e == h
  {
  }

  lemma NoneDropped(b: Books)
    ensures DropOldest(b, 0) == b
  {
    assert b.lru[0..] == b.lru && b.deleted + b.lru[..0] == b.deleted;
  }

  lemma DropMore(b: Books, n: nat)
    requires n < |b.lru|
    ensures DropOldest(b, n).lru != [] && DropOldest(DropOldest(b, n), 1) == DropOldest(b, n + 1)
  {
    var d := DropOldest(b, n);
    assert d.lru[1..] == b.lru[n + 1..] && d.deleted + d.lru[..1] == b.deleted + b.lru[..n + 1];
  }

  lemma WithoutOther(b: Books, e: LRUHandle)
    requires Balanced(b) && Cached(b, e)
    ensures e in b.lru ==> Without(b.inUse, e) == b.inUse
    ensures e in b.inUse ==> Without(b.lru, e) == b.lru && e !in b.lru
  {
  }

  lemma InUseFacts(b: Books, e: LRUHandle)
    requires Balanced(b) && e in b.inUse
    ensures e in b.all && e !in b.lru
    ensures Elems(Without(b.inUse, e)) <= Elems(b.inUse) && e !in Without(b.inUse, e)
    ensures forall h :: h in Without(b.inUse, e) ==> h in b.inUse
  {
    hide Charges, NoneTwice, IndexOf;
    WithoutFacts(b.inUse, e);
  }

  lemma GaveMembers(b: Books, e: LRUHandle)
    requires Balanced(b) && b.owned[e] > 0
    ensures Gave(b, e).all == b.all && e in b.all
    ensures Gave(b, e).deleted == if b.owned[e] == 1 && e !in b.inUse then b.deleted + [e] else b.deleted
    ensures forall h :: h in b.all ==>
      && Cached(Gave(b, e), h) == Cached(b, h)
      && Gave(b, e).owned[h] == b.owned[h] - if h == e then 1 else 0
    ensures Gave(b, e).lru == (if b.owned[e] == 1 && e in b.inUse then b.lru + [e] else b.lru)
    ensures Gave(b, e).inUse == (if b.owned[e] == 1 && e in b.inUse then Without(b.inUse, e) else b.inUse)
  {
    hide Charges, NoneTwice, IndexOf;
    WithoutFacts(b.inUse, e);
  }

  lemma EvictedMembers(b: Books, e: LRUHandle)
    requires Balanced(b) && Cached(b, e)
    ensures Evicted(b, e).owned[e] > 0
    ensures forall h :: h in b.all ==>
      && Cached(Evicted(b, e), h) == (Cached(b, h) && h != e)
      && Evicted(b, e).owned[h] == b.owned[h] + if h == e then 1 else 0
    ensures Usage(b) >= e.charge
  {
    hide Charges, NoneTwice, IndexOf;
    WithoutFacts(b.lru, e);
    WithoutFacts(b.inUse, e);
  }

  lemma UnusedFacts(b: Books, e: LRUHandle)
    requires Balanced(b) && e in b.lru
    ensures e in b.all && e !in b.inUse
    ensures Elems(Without(b.lru, e)) <= Elems(b.lru) && e !in Without(b.lru, e)
    ensures forall h :: h in Without(b.lru, e) ==> h in b.lru
  {
    hide Charges, NoneTwice, IndexOf;
    WithoutFacts(b.lru, e);
  }

  lemma TookMembers(b: Books, e: LRUHandle)
    requires Balanced(b) && Cached(b, e)
    ensures Took(b, e).all == b.all && Took(b, e).deleted == b.deleted
    ensures forall h :: h in b.all ==>
      && Cached(Took(b, e), h) == Cached(b, h)
      && Took(b, e).owned[h] == b.owned[h] + if h == e then 1 else 0
    ensures Took(b, e).lru == (if e in b.lru then Without(b.lru, e) else b.lru)
    ensures Took(b, e).inUse == (if e in b.lru then b.inUse + [e] else b.inUse)
  {
    hide Charges, NoneTwice, IndexOf;
    WithoutFacts(b.lru, e);
  }
}
