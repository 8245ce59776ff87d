/** Cache handles, the circular lists they are kept in, and the hash table that finds
    them. */
module HandleTables {
  import opened Bytes
  import opened Rings

  /** An entry of the cache, while somebody holds a reference to it. */
  class LRUHandle {
    const key: Data
    const hash: nat
    const value: int
    const charge: nat
    var nextHash: LRUHandle?
    var next: LRUHandle?
    var prev: LRUHandle?
    var inCache: bool
    var refs: nat

    constructor (key: Data, hash: nat, value: int, charge: nat)
      ensures this.key == key && this.hash == hash && this.value == value && this.charge == charge
      ensures !inCache && refs == 1
    {
      this.key, this.hash, this.value, this.charge := key, hash, value, charge;
      nextHash, next, prev, inCache, refs := null, null, null, false, 1;
    }
  }

  // ---------------------------------------------------------------- circular lists

  /** The handles between `head` and itself, oldest first. */
  ghost predicate Ring(head: LRUHandle, s: seq<LRUHandle>)
    reads head`next, head`prev, s`next, s`prev
  {
    && head !in s && NoneTwice(s)
    && (forall i :: -1 <= i < |s| ==> Node(head, s, i).next == Node(head, s, i + 1))
    && (forall i :: 0 <= i <= |s| ==> Node(head, s, i).prev == Node(head, s, i - 1))
  }

  /** Unlinks a handle from the list that it is on. */
  method LRURemove(e: LRUHandle, ghost head: LRUHandle, ghost s: seq<LRUHandle>, ghost i: nat)
    requires Ring(head, s) && i < |s| && s[i] == e
    modifies Node<LRUHandle>(head, s, i + 1)`prev, Node<LRUHandle>(head, s, i - 1)`next
    ensures Ring(head, s[..i] + s[i + 1..])
  {
    assert Node(head, s, i).next == Node(head, s, i + 1) && Node(head, s, i).prev == Node(head, s, i - 1);
    Unlinked(head, s, i);
    e.next.prev := e.prev;
    e.prev.next := e.next;
  }

  /** Makes `e` the newest on the list. */
  method LRUAppend(list: LRUHandle, e: LRUHandle, ghost s: seq<LRUHandle>)
    requires Ring(list, s) && e != list && e !in s
    modifies e`next, e`prev, list`prev, Node<LRUHandle>(list, s, |s| - 1)`next
    ensures Ring(list, s + [e])
  {
    assert Node(list, s, |s|).prev == Node(list, s, |s| - 1);
    e.next := list;
    e.prev := list.prev;
    e.prev.next := e;
    e.next.prev := e;
    ghost var t := s + [e];
    assert forall k :: -1 <= k < |s| ==> Node(list, t, k) == Node(list, s, k);
  }

  // ---------------------------------------------------------------- the hash table

  /** A bucket: the handles from `first` on. */
  ghost predicate Chain(first: LRUHandle?, c: seq<LRUHandle>)
    reads c`nextHash
  {
    if c == [] then first == null else first == c[0] && Chain(c[0].nextHash, c[1..])
  }

  lemma {:induction false} ChainTail(first: LRUHandle?, c: seq<LRUHandle>, j: nat)
    requires Chain(first, c) && j < |c|
    ensures Chain(c[j], c[j..]) && Chain(c[j].nextHash, c[j + 1..])
  {
    if j > 0 {
      ChainTail(c[0].nextHash, c[1..], j - 1);
      assert c[1..][j - 1..] == c[j..] && c[1..][j..] == c[j + 1..];
    } else {
      assert c[0..] == c;
    }
  }

  /** The front of a chain, with other handles after it. */
  lemma {:induction false} ChainSplice(first: LRUHandle?, c: seq<LRUHandle>, j: nat, x: LRUHandle?, rest: seq<LRUHandle>)
    requires 0 < j <= |c| && Linear(first, c, j) && c[j - 1].nextHash == x && Chain(x, rest)
    ensures Chain(first, c[..j] + rest)
  {
    if j > 1 {
      ChainSplice(c[0].nextHash, c[1..], j - 1, x, rest);
      assert (c[..j] + rest)[1..] == c[1..][..j - 1] + rest;
    } else {
      assert (c[..1] + rest)[1..] == rest;
    }
  }

  lemma {:induction false} InFront(c: seq<LRUHandle>, j: nat, front: seq<LRUHandle>, inner: seq<LRUHandle>)
    requires 1 < j <= |c| && front == c[..j - 1] && inner == c[1..][..j - 2]
    ensures c[0] in front && forall h :: h in inner ==> h in front
  {
    assert front[0] == c[0];
    forall h | h in inner
      ensures h in front
    {
      var k :| 0 <= k < |inner| && inner[k] == h;
      assert front[k + 1] == h;
    }
  }

  /** The links of the first `j` handles, the last of them excepted. */
  ghost predicate Linear(first: LRUHandle?, c: seq<LRUHandle>, j: nat)
    requires 0 < j <= |c|
    reads c[..j - 1]`nextHash
  {
    first == c[0] && (j > 1 ==>
      (InFront(c, j, c[..j - 1], c[1..][..j - 2]); Linear(c[0].nextHash, c[1..], j - 1)))
  }

  lemma {:induction false} ChainLinear(first: LRUHandle?, c: seq<LRUHandle>, j: nat)
    requires Chain(first, c) && 0 < j <= |c|
    ensures Linear(first, c, j)
  {
    if j > 1 {
      ChainLinear(c[0].nextHash, c[1..], j - 1);
    }
  }

  lemma ChainHead(first: LRUHandle?, c: seq<LRUHandle>)
    requires Chain(first, c)
    ensures first == if c == [] then null else c[0]
  {
  }

  lemma EmptyChain()
    ensures Chain(null, [])
  {
  }

  lemma ChainFront(first: LRUHandle, c: seq<LRUHandle>)
    requires Chain(first.nextHash, c)
    ensures Chain(first, [first] + c)
  {
    assert ([first] + c)[1..] == c;
  }

  /** Bitwise. */
  function BitAnd(x: nat, y: nat): (r: nat)
    ensures r <= x && r <= y
  {
    if x == 0 || y == 0 then 0 else 2 * BitAnd(x / 2, y / 2) + (if x % 2 == 1 && y % 2 == 1 then 1 else 0)
  }

  predicate IsPowerOfTwo(n: nat) {
    n == 1 || (n > 0 && n % 2 == 0 && IsPowerOfTwo(n / 2))
  }

  /** The low bits of the hash. */
  function Index(hash: nat, length: nat): (i: nat)
    requires length > 0
    ensures i < length
  {
    BitAnd(hash, length - 1)
  }

  function Remainder(x: nat, m: nat): nat
    requires m > 0
  {
    x % m
  }

  /** As lengths are powers of two, masking spreads over all buckets as the remainder does. */
  lemma {:induction false} MaskIsRemainder(hash: nat, length: nat)
    requires length > 0 && IsPowerOfTwo(length)
    ensures Index(hash, length) == Remainder(hash, length)
  {
    hide BitAnd, Remainder;
    if length == 1 || hash == 0 {
      NoBits(hash, length);
    } else {
      var half := length / 2;
      assert length == 2 * half;
      MaskIsRemainder(hash / 2, half);
      LowestBit(hash, half);
      HalfRemainder(hash, half);
    }
  }

  lemma NoBits(hash: nat, length: nat)
    requires length == 1 || (hash == 0 && length > 0)
    ensures BitAnd(hash, length - 1) == 0 == Remainder(hash, length)
  {
  }

  lemma LowestBit(hash: nat, half: nat)
    requires hash > 0 && half > 0
    ensures BitAnd(hash, 2 * half - 1) == 2 * BitAnd(hash / 2, half - 1) + hash % 2
  {
    assert (2 * half - 1) % 2 == 1 && (2 * half - 1) / 2 == half - 1;
  }

  lemma HalfRemainder(hash: nat, half: nat)
    requires half > 0
    ensures Remainder(hash, 2 * half) == 2 * Remainder(hash / 2, half) + hash % 2
  {
    var q, r := hash / 2 / half, (hash / 2) % half;
    assert hash == 2 * (half * q + r) + hash % 2;
    assert hash == (2 * half) * q + (2 * r + hash % 2) by {
      assert 2 * (half * q) == (2 * half) * q;
    }
    RemainderIs(hash, 2 * half, q, 2 * r + hash % 2);
  }

  lemma RemainderIs(x: nat, m: nat, q: nat, r: nat)
    requires m > 0 && x == m * q + r && r < m
    ensures x % m == r
  {
    var d := x / m - q;
    assert x == m * (x / m) + x % m;
    assert m * d == r - x % m by {
      assert m * d == m * (x / m) - m * q;
    }
    assert d == 0;
  }

  /** The buckets hold exactly these handles, each where its hash says. */
  ghost predicate Buckets(chains: seq<seq<LRUHandle>>, nodes: set<LRUHandle>) {
    && chains != []
    && (forall i, h :: 0 <= i < |chains| && h in chains[i] ==> h in nodes)
    && (forall i, h {:trigger h in chains[i]} :: 0 <= i < |chains| && h in chains[i] ==> Index(h.hash, |chains|) == i)
    && (forall h {:trigger h in nodes} :: h in nodes ==> h in chains[Index(h.hash, |chains|)])
    && forall i :: 0 <= i < |chains| ==> NoneTwice(chains[i])
  }

  ghost predicate Linked(list: array<LRUHandle?>, chains: seq<seq<LRUHandle>>, nodes: set<LRUHandle>)
    requires Buckets(chains, nodes)
    reads list, nodes`nextHash
  {
    && list.Length == |chains|
    && forall i :: 0 <= i < |chains| ==> Chain(list[i], chains[i])
  }

  /** No two handles for the same key. */
  ghost predicate Keyed(nodes: set<LRUHandle>) {
    forall g, h :: g in nodes && h in nodes && g.key == h.key && g.hash == h.hash ==> g == h
  }

  predicate Matches(h: LRUHandle, key: Data, hash: nat) {
    h.hash == hash && h.key == key
  }

  /** This is the handle for the key, or null if there is none. */
  ghost predicate Finds(found: LRUHandle?, nodes: set<LRUHandle>, key: Data, hash: nat) {
    if found == null then forall h :: h in nodes ==> !Matches(h, key, hash) else found in nodes && Matches(found, key, hash)
  }

  ghost function One(h: LRUHandle?): set<LRUHandle> {
    if h == null then {} else {h}
  }

  /** The map that some handles stand for. */
  ghost function MapOf(nodes: set<LRUHandle>): map<(Data, nat), LRUHandle>
    requires Keyed(nodes)
  {
    map h | h in nodes :: (h.key, h.hash) := h
  }

  /** Finding, removing and putting are what they are for the map. */
  lemma FindIsLookup(nodes: set<LRUHandle>, found: LRUHandle?, key: Data, hash: nat)
    requires Keyed(nodes) && Finds(found, nodes, key, hash)
    ensures found == if (key, hash) in MapOf(nodes) then MapOf(nodes)[(key, hash)] else null
  {
  }

  lemma RemoveIsErase(nodes: set<LRUHandle>, found: LRUHandle?, key: Data, hash: nat)
    requires Keyed(nodes) && Finds(found, nodes, key, hash)
    ensures Keyed(nodes - One(found)) && MapOf(nodes - One(found)) == MapOf(nodes) - {(key, hash)}
  {
  }

  lemma InsertIsUpdate(nodes: set<LRUHandle>, found: LRUHandle?, h: LRUHandle)
    requires Keyed(nodes) && h !in nodes && Finds(found, nodes, h.key, h.hash)
    ensures Keyed(nodes - One(found) + {h}) && MapOf(nodes - One(found) + {h}) == MapOf(nodes)[(h.key, h.hash) := h]
  {
  }

  /** A chain without its handle at `j`, if there is one there, and with others put in
      its place. */
  ghost function Spliced(c: seq<LRUHandle>, j: nat, added: seq<LRUHandle>): seq<LRUHandle>
    requires j <= |c|
  {
    c[..j] + (added + if j < |c| then c[j + 1..] else [])
  }

  ghost function Dropped(c: seq<LRUHandle>, j: nat): set<LRUHandle> {
    if j < |c| then {c[j]} else {}
  }

  lemma SplicedMembers(c: seq<LRUHandle>, j: nat, added: seq<LRUHandle>)
    requires j <= |c| && NoneTwice(c) && |added| <= 1 && forall h :: h in added ==> h !in c
    ensures NoneTwice(Spliced(c, j, added))
    ensures forall h :: h in Spliced(c, j, added) <==> (h in c && h !in Dropped(c, j)) || h in added
  {
    var d := Spliced(c, j, added);
    var n := |added|;
    assert forall m :: 0 <= m < j ==> d[m] == c[m];
    assert forall m :: j <= m < j + n ==> d[m] == added[m - j];
    assert forall m :: j + n <= m < |d| ==> d[m] == c[m - n + 1];
    forall i, k | 0 <= i < k < |d|
      ensures d[i] != d[k]
    {
      if i < j {
        assert d[i] in c;
      }
      if k >= j + n {
        assert d[k] in c;
      }
    }
    forall h | h in c && h !in Dropped(c, j)
      ensures h in d
    {
      var k :| 0 <= k < |c| && c[k] == h;
      if k > j {
        assert d[k - 1 + |added|] == h;
      } else {
        assert d[k] == h;
      }
    }
  }

  lemma NotBoth(chains: seq<seq<LRUHandle>>, nodes: set<LRUHandle>, i: nat, b: nat, h: LRUHandle)
    requires Buckets(chains, nodes) && i < |chains| && b < |chains| && i != b && h in chains[i]
    ensures h !in chains[b]
  {
    hide Index, NoneTwice;
  }

  /** A handle that is still in a bucket is one of those left, or the new one. */
  lemma StillIn(chains: seq<seq<LRUHandle>>, nodes: set<LRUHandle>, b: nat, j: nat, added: seq<LRUHandle>, i: nat, h: LRUHandle)
    requires Buckets(chains, nodes) && b < |chains| && j <= |chains[b]| && |added| <= 1
    requires forall g :: g in added ==> g !in nodes && Index(g.hash, |chains|) == b
    requires i < |chains| && h in if i == b then Spliced(chains[b], j, added) else chains[i]
    ensures (h in nodes && h !in Dropped(chains[b], j)) || h in added
    ensures Index(h.hash, |chains|) == i
  {
    hide Index, NoneTwice, Spliced;
    var c := chains[b];
    assert NoneTwice(c);
    SplicedMembers(c, j, added);
    assert h in added || h in chains[i];
    if i != b {
      NotBoth(chains, nodes, i, b, h);
    }
  }

  lemma StaysIn(chains: seq<seq<LRUHandle>>, nodes: set<LRUHandle>, b: nat, j: nat, added: seq<LRUHandle>, h: LRUHandle)
    requires Buckets(chains, nodes) && b < |chains| && j <= |chains[b]| && |added| <= 1
    requires forall g :: g in added ==> g !in nodes && Index(g.hash, |chains|) == b
    requires (h in nodes && h !in Dropped(chains[b], j)) || h in added
    ensures
      var i := Index(h.hash, |chains|);
      h in if i == b then Spliced(chains[b], j, added) else chains[i]
  {
    hide Index, NoneTwice, Spliced;
    assert NoneTwice(chains[b]);
    SplicedMembers(chains[b], j, added);
  }

  lemma BucketChanged(chains: seq<seq<LRUHandle>>, nodes: set<LRUHandle>, b: nat, j: nat, added: seq<LRUHandle>)
    requires Buckets(chains, nodes) && b < |chains| && j <= |chains[b]| && |added| <= 1
    requires forall h :: h in added ==> h !in nodes && Index(h.hash, |chains|) == b
    ensures Buckets(chains[b := Spliced(chains[b], j, added)], nodes - Dropped(chains[b], j) + set h | h in added)
  {
    hide Index, NoneTwice, Spliced, Dropped;
    var changed := chains[b := Spliced(chains[b], j, added)];
    var after := nodes - Dropped(chains[b], j) + set h | h in added;
    assert NoneTwice(chains[b]);
    SplicedMembers(chains[b], j, added);
    forall h | h in after
      ensures h in changed[Index(h.hash, |changed|)]
    {
      StaysIn(chains, nodes, b, j, added, h);
    }
    forall i, h | 0 <= i < |changed| && h in changed[i]
      ensures h in after && Index(h.hash, |changed|) == i
    {
      StillIn(chains, nodes, b, j, added, i, h);
    }
  }

  /** Without the handle for a key, and with another one for it, the keys are distinct. */
  lemma KeyedStays(nodes: set<LRUHandle>, found: LRUHandle?, key: Data, hash: nat)
    requires Keyed(nodes) && Finds(found, nodes, key, hash)
    ensures Keyed(nodes - One(found))
    ensures |nodes - One(found)| == |nodes| - (if found == null then 0 else 1)
    ensures found == null ==> nodes - One(found) == nodes
  {
    if found != null {
      assert |nodes - {found}| == |nodes| - 1;
    } else {
      assert nodes - {} == nodes;
    }
  }

  lemma KeyedPut(nodes: set<LRUHandle>, found: LRUHandle?, h: LRUHandle)
    requires Keyed(nodes) && h !in nodes && Finds(found, nodes, h.key, h.hash)
    ensures Keyed(nodes - One(found) + {h})
    ensures |nodes - One(found) + {h}| == |nodes| + if found == null then 1 else 0
  {
    KeyedStays(nodes, found, h.key, h.hash);
  }

  class HandleTable {
    var length: nat
    var elems: nat
    var list: array<LRUHandle?>
    ghost var chains: seq<seq<LRUHandle>>
    ghost var nodes: set<LRUHandle>

    constructor ()
      ensures Valid() && nodes == {} && fresh(list)
    {
      length, elems, list := 0, 0, new LRUHandle?[0];
      chains, nodes := [], {};
      new;
      Resize();
    }

    ghost predicate Valid()
      reads this, list, nodes`nextHash
    {
      && length == list.Length > 0 && IsPowerOfTwo(length) && elems == |nodes| && Keyed(nodes)
      && Buckets(chains, nodes) && Linked(list, chains, nodes)
    }

    /** The slot of a key: its bucket, and the handle whose link is the slot, if it is not
        the first. `cur` is what the slot holds. */
    method FindPointer(key: Data, hash: nat) returns (bucket: nat, before: LRUHandle?, cur: LRUHandle?, ghost j: nat)
      requires Valid()
      ensures bucket == Index(hash, length) && bucket < |chains| && j <= |chains[bucket]|
      ensures before == (if j == 0 then null else chains[bucket][j - 1])
      ensures cur == (if j < |chains[bucket]| then chains[bucket][j] else null)
      ensures cur != null ==> Matches(cur, key, hash) && cur in nodes
      ensures cur == null ==> forall h :: h in nodes ==> !Matches(h, key, hash)
    {
      hide Chain, Buckets, Keyed, NoneTwice;
      bucket := Index(hash, length);
      BucketOf(hash);
      ghost var c := chains[bucket];
      before, cur, j := null, list[bucket], 0;
      assert c[0..] == c;
      ChainHead(list[bucket], c);
      while cur != null && !Matches(cur, key, hash)
        invariant j <= |c| && before == (if j == 0 then null else c[j - 1])
        invariant Chain(cur, c[j..]) && cur == (if j < |c| then c[j] else null)
        invariant forall k :: 0 <= k < j ==> !Matches(c[k], key, hash)
        decreases |c| - j
      {
        ChainTail(cur, c[j..], 0);
        before, cur := cur, cur.nextHash;
        j := j + 1;
        assert c[j - 1..][1..] == c[j..];
        ChainHead(cur, c[j..]);
      }
      if cur == null {
        assert forall h :: h in c ==> !Matches(h, key, hash);
      }
    }

    /** The bucket of a hash is linked, and holds every handle with that hash. */
    lemma BucketOf(hash: nat)
      requires Valid()
      ensures Index(hash, length) < |chains| == length && Chain(list[Index(hash, length)], chains[Index(hash, length)])
      ensures forall h :: h in nodes && h.hash == hash ==> h in chains[Index(hash, length)]
      ensures forall h :: h in chains[Index(hash, length)] ==> h in nodes
    {
      hide Chain, Keyed, NoneTwice;
    }

    /** A handle is in one bucket, and once. */
    lemma Apart(bucket: nat, j: nat)
      requires Buckets(chains, nodes) && bucket < |chains| && j <= |chains[bucket]|
      ensures NoneTwice(chains[bucket])
      ensures forall k, m :: 0 <= k < j && j <= m < |chains[bucket]| ==> chains[bucket][k] != chains[bucket][m]
      ensures forall h :: h in chains[bucket] ==> Elsewhere(h, bucket)
      ensures forall i, h :: 0 <= i < |chains| && h in chains[i] ==> h in nodes
    {
      hide Index;
      forall h, i | h in chains[bucket] && 0 <= i < |chains| && i != bucket
        ensures h !in chains[i]
      {
        assert Index(h.hash, |chains|) == bucket;
      }
    }

    method Lookup(key: Data, hash: nat) returns (h: LRUHandle?)
      requires Valid()
      ensures Finds(h, nodes, key, hash) && Keyed(nodes)
      ensures h == if (key, hash) in MapOf(nodes) then MapOf(nodes)[(key, hash)] else null
    {
      hide Buckets, Linked;
      var bucket, before;
      ghost var j;
      bucket, before, h, j := FindPointer(key, hash);
      FindIsLookup(nodes, h, key, hash);
    }

    ghost predicate Elsewhere(h: LRUHandle, bucket: nat)
      reads this`chains
    {
      forall k :: 0 <= k < |chains| && k != bucket ==> h !in chains[k]
    }

    /** Writes a slot: the bucket goes on with `rest` from there. */
    method SetSlot(bucket: nat, before: LRUHandle?, x: LRUHandle?, ghost j: nat, ghost rest: seq<LRUHandle>)
      requires bucket < list.Length == |chains| && j <= |chains[bucket]|
      requires forall k :: 0 <= k < |chains| ==> Chain(list[k], chains[k])
      requires Chain(x, rest) && before == if j == 0 then null else chains[bucket][j - 1]
      requires NoneTwice(chains[bucket])
      requires j > 0 ==> before !in rest && Elsewhere(before, bucket)
      modifies list, (if before == null then {} else {before})`nextHash
      ensures forall k :: 0 <= k < |chains| ==> Chain(list[k], chains[bucket := chains[bucket][..j] + rest][k])
    {
      hide Chain, Linear;
      ghost var c := chains[bucket];
      ghost var first := list[bucket];
      if j > 0 {
        ChainLinear(first, c, j);
        assert before !in c[..j - 1];
      }
      if before == null {
        list[bucket] := x;
        assert c[..0] + rest == rest;
      } else {
        before.nextHash := x;
        assert Linear(first, c, j);
        ChainSplice(first, c, j, x, rest);
      }
    }

    /** Drops what a slot holds, and puts `added` there. */
    method Splice(bucket: nat, before: LRUHandle?, x: LRUHandle?, ghost j: nat, ghost added: seq<LRUHandle>)
      requires Buckets(chains, nodes) && Linked(list, chains, nodes)
      requires bucket < |chains| && j <= |chains[bucket]| && before == if j == 0 then null else chains[bucket][j - 1]
      requires |added| <= 1 && forall h :: h in added ==> h !in nodes && Index(h.hash, |chains|) == bucket
      requires Chain(x, added + if j < |chains[bucket]| then chains[bucket][j + 1..] else [])
      modifies list, (if before == null then {} else {before})`nextHash, this`chains, this`nodes
      ensures Buckets(chains, nodes) && Linked(list, chains, nodes) && |chains| == |old(chains)|
      ensures nodes == old(nodes) - old(Dropped(chains[bucket], j)) + set h | h in added
    {
      hide Chain, Buckets, Keyed, NoneTwice, Elsewhere, Index;
      ghost var c := chains[bucket];
      ghost var rest := added + if j < |c| then c[j + 1..] else [];
      Apart(bucket, j);
      if j > 0 {
        assert before in c && before !in rest;
      }
      SetSlot(bucket, before, x, j, rest);
      BucketChanged(chains, nodes, bucket, j, added);
      nodes := nodes - Dropped(c, j) + set h | h in added;
      chains := chains[bucket := Spliced(c, j, added)];
    }

    /** The slot of a key, and the handles after the one it holds. */
    method FindSlot(key: Data, hash: nat) returns (bucket: nat, before: LRUHandle?, cur: LRUHandle?, after: LRUHandle?,
                                                     ghost j: nat, ghost tail: seq<LRUHandle>)
      requires Valid()
      ensures bucket == Index(hash, length) && bucket < |chains| == length && j <= |chains[bucket]|
      ensures before == (if j == 0 then null else chains[bucket][j - 1]) && (before != null ==> before in nodes)
      ensures tail == (if j < |chains[bucket]| then chains[bucket][j + 1..] else []) && Chain(after, tail)
      ensures Dropped(chains[bucket], j) == One(cur) <= nodes
      ensures Finds(cur, nodes, key, hash)
    {
      hide Chain, Buckets, Keyed, NoneTwice, Elsewhere, Index, Linked, Matches;
      bucket, before, cur, j := FindPointer(key, hash);
      BucketOf(hash);
      ghost var c := chains[bucket];
      tail := if j < |c| then c[j + 1..] else [];
      if cur != null {
        ChainTail(list[bucket], chains[bucket], j);
        after := cur.nextHash;
      } else {
        EmptyChain();
        after := null;
      }
    }

    static method LinkTo(h: LRUHandle, after: LRUHandle?, ghost tail: seq<LRUHandle>)
      requires Chain(after, tail) && h !in tail
      modifies h`nextHash
      ensures Chain(h, [h] + tail)
    {
      hide Chain;
      h.nextHash := after;
      ChainFront(h, tail);
    }

    /** Puts a handle in a slot, in front of `tail`. */
    method SpliceIn(bucket: nat, before: LRUHandle?, h: LRUHandle, after: LRUHandle?, ghost j: nat, ghost tail: seq<LRUHandle>)
      requires Buckets(chains, nodes) && Linked(list, chains, nodes) && h !in nodes
      requires bucket < |chains| && bucket == Index(h.hash, |chains|) && j <= |chains[bucket]|
      requires before == if j == 0 then null else chains[bucket][j - 1]
      requires tail == (if j < |chains[bucket]| then chains[bucket][j + 1..] else []) && Chain(after, tail)
      modifies list, h`nextHash, (if before == null then {} else {before})`nextHash, this`chains, this`nodes
      ensures Buckets(chains, nodes) && Linked(list, chains, nodes) && |chains| == |old(chains)|
      ensures nodes == old(nodes) - old(Dropped(chains[bucket], j)) + {h}
    {
      hide Chain, Buckets, NoneTwice, Elsewhere, Index, Dropped;
      InNodes(chains, nodes);
      assert (set g | g in [h]) == {h};
      LinkTo(h, after, tail);
      Splice(bucket, before, h, j, [h]);
    }

    method SpliceOut(bucket: nat, before: LRUHandle?, after: LRUHandle?, ghost j: nat, ghost tail: seq<LRUHandle>)
      requires Buckets(chains, nodes) && Linked(list, chains, nodes)
      requires bucket < |chains| && j <= |chains[bucket]|
      requires before == if j == 0 then null else chains[bucket][j - 1]
      requires tail == (if j < |chains[bucket]| then chains[bucket][j + 1..] else []) && Chain(after, tail)
      modifies list, (if before == null then {} else {before})`nextHash, this`chains, this`nodes
      ensures Buckets(chains, nodes) && Linked(list, chains, nodes) && |chains| == |old(chains)|
      ensures nodes == old(nodes) - old(Dropped(chains[bucket], j))
    {
      hide Chain, Buckets, NoneTwice, Elsewhere, Index, Dropped;
      assert [] + tail == tail && (set g: LRUHandle | g in []) == {};
      Splice(bucket, before, after, j, []);
    }

    /** Puts the handle in its slot. */
    method Put(h: LRUHandle) returns (previous: LRUHandle?)
      requires Valid() && h !in nodes
      modifies this`chains, this`nodes, this`elems, list, nodes`nextHash, h`nextHash
      ensures Valid()
      ensures Finds(previous, old(nodes), h.key, h.hash) && nodes == old(nodes) - One(previous) + {h}
    {
      hide Chain, Buckets, Keyed, NoneTwice, Elsewhere, Index, Linked, Matches, Dropped, Finds;
      var bucket, before, after;
      ghost var j, tail;
      bucket, before, previous, after, j, tail := FindSlot(h.key, h.hash);
      ghost var c := chains[bucket];
      KeyedPut(nodes, previous, h);
      SpliceIn(bucket, before, h, after, j, tail);
      if previous == null {
        elems := elems + 1;
      }
    }

    /** Puts the handle in, in place of the one with its key, if there is one; the table
        grows with the number of handles. */
    method Insert(h: LRUHandle) returns (previous: LRUHandle?)
      requires Valid() && h !in nodes
      modifies this, list, nodes`nextHash, h`nextHash
      ensures Valid() && (list == old(list) || fresh(list))
      ensures Finds(previous, old(nodes), h.key, h.hash) && nodes == old(nodes) - One(previous) + {h}
      ensures Keyed(nodes) && Keyed(old(nodes)) && MapOf(nodes) == MapOf(old(nodes))[(h.key, h.hash) := h]
    {
      hide Chain, Buckets, Keyed, NoneTwice, Matches, MapOf, Finds;
      ghost var before := nodes;
      KeyedWhenValid();
      previous := Put(h);
      if previous == null && elems > length {
        Resize();
      }
      InsertIsUpdate(before, previous, h);
    }

    lemma KeyedWhenValid()
      requires Valid()
      ensures Keyed(nodes)
    {
      hide Chain, Buckets, Keyed, NoneTwice, Matches;
    }

    /** Takes the handle for a key out. */
    method Remove(key: Data, hash: nat) returns (result: LRUHandle?)
      requires Valid()
      modifies this, list, nodes`nextHash
      ensures Valid() && list == old(list)
      ensures Finds(result, old(nodes), key, hash) && nodes == old(nodes) - One(result)
      ensures Keyed(nodes) && Keyed(old(nodes)) && MapOf(nodes) == MapOf(old(nodes)) - {(key, hash)}
    {
      hide MapOf, Chain, Buckets, Keyed, NoneTwice, Elsewhere, Index, Linked, Matches, Dropped, Finds;
      var bucket, before, after;
      ghost var j, tail;
      bucket, before, result, after, j, tail := FindSlot(key, hash);
      ghost var c := chains[bucket];
      KeyedStays(nodes, result, key, hash);
      ghost var was := nodes;
      KeyedWhenValid();
      if result != null {
        SpliceOut(bucket, before, after, j, tail);
        elems := elems - 1;
      }
      RemoveIsErase(was, result, key, hash);
    }

    // ---------------------------------------------------------------- growing

    /** Puts a handle at the front of its new bucket. */
    static method Push(h: LRUHandle, newList: array<LRUHandle?>, ghost newChains: seq<seq<LRUHandle>>, ghost moved: set<LRUHandle>)
      returns (ghost afterChains: seq<seq<LRUHandle>>)
      requires h !in moved && Buckets(newChains, moved) && Linked(newList, newChains, moved)
      modifies newList, h`nextHash
      ensures Buckets(afterChains, moved + {h}) && Linked(newList, afterChains, moved + {h})
    {
      hide Chain, Buckets, Index, NoneTwice;
      assert |newChains| > 0 && newList.Length == |newChains| by { SomeBucket(newChains, moved); }
      var b := Index(h.hash, newList.Length);
      Pushed(newChains, moved, h);
      InNodes(newChains, moved);
      h.nextHash := newList[b];
      ChainFront(h, newChains[b]);
      newList[b] := h;
      afterChains := newChains[b := [h] + newChains[b]];
      forall k | 0 <= k < |afterChains|
        ensures Chain(newList[k], afterChains[k])
      {
      }
    }

    /** Moves the handles of one old bucket to the new ones, each to the front. */
    static method MoveBucket(first: LRUHandle?, newList: array<LRUHandle?>, ghost c: seq<LRUHandle>,
                             ghost newChains: seq<seq<LRUHandle>>, ghost moved: set<LRUHandle>)
      returns (count: nat, ghost afterChains: seq<seq<LRUHandle>>, ghost afterMoved: set<LRUHandle>)
      requires Chain(first, c) && NoneTwice(c) && forall h :: h in c ==> h !in moved
      requires Buckets(newChains, moved) && Linked(newList, newChains, moved)
      modifies newList, c`nextHash
      ensures Buckets(afterChains, afterMoved) && Linked(newList, afterChains, afterMoved)
      ensures afterMoved == moved + (set h | h in c) && count == |c|
    {
      hide Chain, Buckets, Linked, Index, NoneTwice;
      var h := first;
      count, afterChains, afterMoved := 0, newChains, moved;
      assert c[0..] == c;
      ChainHead(first, c);
      while h != null
        invariant count <= |c| && Chain(h, c[count..]) && h == (if count < |c| then c[count] else null)
        invariant Buckets(afterChains, afterMoved) && Linked(newList, afterChains, afterMoved)
        invariant afterMoved == moved + (set g | g in c[..count])
        decreases |c| - count
      {
        OneOfMany(c, count);
        ChainTail(h, c[count..], 0);
        var next := h.nextHash;
        afterChains := Push(h, newList, afterChains, afterMoved);
        afterMoved := afterMoved + {h};
        h := next;
        count := count + 1;
        ChainHead(h, c[count..]);
      }
      assert c[..|c|] == c;
    }

    lemma LinkedAt()
      requires Sized()
      ensures length > 0 ==> Buckets(chains, nodes)
      ensures AtLeast(chains, 0, nodes) && OldChains(list, chains, 0, nodes)
    {
      hide Chain, Keyed, NoneTwice;
    }

    ghost predicate Sized()
      reads this, list, nodes`nextHash
    {
      && length == list.Length == |chains| && elems == |nodes| && Keyed(nodes)
      && Sorted(chains, nodes) && (length > 0 ==> Linked(list, chains, nodes))
    }

    /** Moves everything over; counts the handles. */
    method MoveAll(newList: array<LRUHandle?>) returns (count: nat, ghost newChains: seq<seq<LRUHandle>>)
      requires Sized() && newList != list && newList.Length > 0 && forall k :: 0 <= k < newList.Length ==> newList[k] == null
      modifies newList, nodes`nextHash
      ensures Buckets(newChains, nodes) && Linked(newList, newChains, nodes) && count == |nodes|
    {
      hide Chain, Buckets, Linked, Index, Keyed, NoneTwice, AtLeast, OldChains, UpTo;
      LinkedAt();
      NoneYet(chains, nodes);
      count := 0;
      newChains := seq(newList.Length, _ => []);
      ghost var moved: set<LRUHandle> := {};
      AllEmpty(newList, newChains);
      assert nodes - moved == nodes;
      for i := 0 to length
        invariant Buckets(newChains, moved) && Linked(newList, newChains, moved)
        invariant moved == UpTo(chains, nodes, i) && count == |moved|
        invariant AtLeast(chains, i, nodes - moved) && OldChains(list, chains, i, nodes - moved)
      {
        StillOld(chains, nodes, i + 1);
        OneMoreBucket(chains, nodes, i);
        ghost var left := nodes - UpTo(chains, nodes, i + 1);
        NextOld(list, chains, i, nodes - moved, left);
        var n;
        n, newChains, moved := MoveBucket(list[i], newList, chains[i], newChains, moved);
        count := count + n;
      }
      if length > 0 {
        AllBuckets(chains, nodes);
      }
    }

    /** Twice as many buckets until there is one for each handle. */
    method Resize()
      requires Sized()
      modifies this`length, this`list, this`chains, nodes`nextHash
      ensures Valid() && fresh(list) && length >= elems
    {
      hide Chain, Buckets, Keyed, NoneTwice;
      var newLength := 4;
      assert IsPowerOfTwo(2);
      while newLength < elems
        modifies {}
        invariant newLength >= 4 && IsPowerOfTwo(newLength)
      {
        newLength := newLength * 2;
      }
      var newList := new LRUHandle?[newLength](_ => null);
      var count;
      ghost var newChains;
      count, newChains := MoveAll(newList);
      assert elems == count;
      list := newList;
      length := newLength;
      chains := newChains;
    }
  }

  /** The handles of the buckets from `i` on are among these. */
  ghost predicate AtLeast(chains: seq<seq<LRUHandle>>, i: nat, left: set<LRUHandle>) {
    forall k, h :: i <= k < |chains| && h in chains[k] ==> h in left
  }

  ghost predicate OldChains(list: array<LRUHandle?>, chains: seq<seq<LRUHandle>>, i: nat, left: set<LRUHandle>)
    requires AtLeast(chains, i, left)
    reads list, left`nextHash
  {
    list.Length == |chains| && forall k :: i <= k < |chains| ==> Chain(list[k], chains[k])
  }

  lemma StillOld(chains: seq<seq<LRUHandle>>, nodes: set<LRUHandle>, i: nat)
    requires Sorted(chains, nodes) && i <= |chains|
    ensures AtLeast(chains, i, nodes - UpTo(chains, nodes, i))
  {
    hide Index, NoneTwice;
  }

  lemma NextOld(list: array<LRUHandle?>, chains: seq<seq<LRUHandle>>, i: nat, left: set<LRUHandle>, after: set<LRUHandle>)
    requires AtLeast(chains, i, left) && OldChains(list, chains, i, left) && i < |chains|
    requires AtLeast(chains, i + 1, after)
    ensures OldChains(list, chains, i + 1, after) && Chain(list[i], chains[i])
  {
    hide Chain;
  }

  ghost predicate Sorted(chains: seq<seq<LRUHandle>>, nodes: set<LRUHandle>) {
    if chains == [] then nodes == {} else Buckets(chains, nodes)
  }

  /** The handles of the first `i` buckets. */
  ghost function UpTo(chains: seq<seq<LRUHandle>>, nodes: set<LRUHandle>, i: nat): set<LRUHandle> {
    set h | h in nodes && |chains| > 0 && Index(h.hash, |chains|) < i
  }

  lemma OneMoreBucket(chains: seq<seq<LRUHandle>>, nodes: set<LRUHandle>, i: nat)
    requires Buckets(chains, nodes) && i < |chains|
    ensures NoneTwice(chains[i])
    ensures forall h :: h in chains[i] ==> h in nodes && h !in UpTo(chains, nodes, i)
    ensures UpTo(chains, nodes, i + 1) == UpTo(chains, nodes, i) + set h | h in chains[i]
    ensures |UpTo(chains, nodes, i + 1)| == |UpTo(chains, nodes, i)| + |chains[i]|
    ensures forall k, h :: 0 <= k < |chains| && k != i && h in chains[k] ==> h !in chains[i]
  {
    hide Index, NoneTwice;
    assert NoneTwice(chains[i]);
    forall k, h | 0 <= k < |chains| && k != i && h in chains[k]
      ensures h !in chains[i]
    {
      assert Index(h.hash, |chains|) == k;
    }
    CountOf(chains[i]);
  }

  lemma OneOfMany(c: seq<LRUHandle>, i: nat)
    requires NoneTwice(c) && i < |c|
    ensures c[i] !in c[..i] && c[i] !in c[i + 1..] && c[i] in c
    ensures c[i..][1..] == c[i + 1..] && c[..i + 1] == c[..i] + [c[i]]
  {
  }

  lemma NoneYet(chains: seq<seq<LRUHandle>>, nodes: set<LRUHandle>)
    ensures UpTo(chains, nodes, 0) == {} && (|chains| == 0 ==> UpTo(chains, nodes, |chains|) == {})
  {
  }

  lemma AllBuckets(chains: seq<seq<LRUHandle>>, nodes: set<LRUHandle>)
    requires |chains| > 0
    ensures UpTo(chains, nodes, |chains|) == nodes
  {
  }

  lemma {:induction false} CountOf(c: seq<LRUHandle>)
    requires NoneTwice(c)
    ensures |set h | h in c| == |c|
  {
    if c != [] {
      var k := |c| - 1;
      CountOf(c[..k]);
      assert (set h | h in c) == (set h | h in c[..k]) + {c[k]};
      assert c[k] !in c[..k];
    }
  }

  lemma AllEmpty(list: array<LRUHandle?>, chains: seq<seq<LRUHandle>>)
    requires list.Length == |chains| > 0
    requires forall i :: 0 <= i < |chains| ==> list[i] == null && chains[i] == []
    ensures Buckets(chains, {}) && Linked(list, chains, {})
  {
  }

  lemma SomeBucket(chains: seq<seq<LRUHandle>>, nodes: set<LRUHandle>)
    requires Buckets(chains, nodes)
    ensures |chains| > 0
  {
  }

  lemma InNodes(chains: seq<seq<LRUHandle>>, nodes: set<LRUHandle>)
    requires Buckets(chains, nodes)
    ensures forall i, h :: 0 <= i < |chains| && h in chains[i] ==> h in nodes
  {
  }

  lemma Pushed(chains: seq<seq<LRUHandle>>, nodes: set<LRUHandle>, h: LRUHandle)
    requires Buckets(chains, nodes) && h !in nodes
    ensures |chains| > 0
    ensures var b := Index(h.hash, |chains|); Buckets(chains[b := [h] + chains[b]], nodes + {h})
  {
    hide Index;
    var b := Index(h.hash, |chains|);
    var changed := chains[b := [h] + chains[b]];
    forall g | g in nodes + {h}
      ensures g in changed[Index(g.hash, |changed|)]
    {
      if g != h {
        assert g in chains[Index(g.hash, |chains|)];
      }
    }
    assert NoneTwice(chains[b]);
    assert h !in chains[b];
  }
}
