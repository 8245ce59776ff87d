/** The memtable's skip list: one writer that links nodes level by level, and readers
    that search without a lock at the same time. */
module SkipLists {
  import opened InternalKeys

  const MAX_HEIGHT := 12

  type Node = nat
  const HEAD: Node := 0

  /** `next[(n, l)]` is the link of node `n` at level `l`. Keys are their ranks in the
      comparator's order. */
  datatype Heap = Heap(key: map<Node, int>, next: map<(Node, nat), Option<Node>>, maxHeight: nat)

  /** What the levels spell out: level `l` is `lists[l]`, with the head in front. */
  type Lists = seq<seq<Node>>

  function KeyOf(h: Heap, n: Node): int
    requires n in h.key
  {
    h.key[n]
  }

  /** NULL counts as infinite. */
  predicate KeyIsAfterNode(h: Heap, k: int, n: Option<Node>)
    requires n.Some? ==> n.value in h.key
  {
    n.Some? && h.key[n.value] < k
  }

  ghost predicate ListOk(h: Heap, list: seq<Node>) {
    && list != [] && list[0] == HEAD
    && (forall j :: 1 <= j < |list| ==> list[j] != HEAD && list[j] in h.key)
    && (forall i, j :: 1 <= i < j < |list| ==> h.key[list[i]] < h.key[list[j]])
  }

  function Successor(list: seq<Node>, j: nat): Option<Node> {
    if j + 1 < |list| then Some(list[j + 1]) else None
  }

  ghost predicate Linked(h: Heap, list: seq<Node>, l: nat) {
    forall j :: 0 <= j < |list| ==> (list[j], l) in h.next && h.next[(list[j], l)] == Successor(list, j)
  }

  ghost predicate Sublist(upper: seq<Node>, lower: seq<Node>) {
    forall n :: n in upper ==> n in lower
  }

  /** Every level is sorted, correctly linked, and contained in the level below. */
  ghost predicate Ok(h: Heap, lists: Lists) {
    && |lists| == MAX_HEIGHT
    && 1 <= h.maxHeight <= MAX_HEIGHT
    && (forall l :: 0 <= l < MAX_HEIGHT ==> ListOk(h, lists[l]) && Linked(h, lists[l], l))
    && (forall l, m :: 0 <= m < l < MAX_HEIGHT ==> Sublist(lists[l], lists[m]))
    && (forall l :: h.maxHeight <= l < MAX_HEIGHT ==> lists[l] == [HEAD])
  }

  ghost function Keys(h: Heap, lists: Lists): set<int>
    requires Ok(h, lists)
  {
    set j | 1 <= j < |lists[0]| :: h.key[lists[0][j]]
  }

  /** `n` is the head or has a key before `k`. */
  predicate Before(h: Heap, n: Node, k: int) {
    n == HEAD || (n in h.key && h.key[n] < k)
  }

  /** `r` is the first node of the list with a key at or after `k`. */
  ghost predicate IsFirstAtOrAfter(h: Heap, list: seq<Node>, k: int, r: Option<Node>) {
    match r
    case None => forall j :: 1 <= j < |list| ==> list[j] in h.key && h.key[list[j]] < k
    case Some(n) =>
      exists i :: 1 <= i < |list| && list[i] == n && n in h.key && h.key[n] >= k
                  && forall j :: 1 <= j < i ==> list[j] in h.key && h.key[list[j]] < k
  }

  /** `x` is the last node of the list with a key before `k`, or the head. */
  ghost predicate IsLastBefore(h: Heap, list: seq<Node>, k: int, x: Node) {
    exists j :: 0 <= j < |list| && list[j] == x && Before(h, x, k)
                && forall i :: j < i < |list| ==> list[i] in h.key && h.key[list[i]] >= k
  }

  lemma LastHere(h: Heap, list: seq<Node>, j: nat, k: int)
    requires ListOk(h, list) && j < |list| && Before(h, list[j], k)
    requires !KeyIsAfterNode(h, k, Successor(list, j))
    ensures IsLastBefore(h, list, k, list[j])
  {
    assert j + 1 < |list| ==> Successor(list, j) == Some(list[j + 1]);
  }

  /** The successor of a node before `k`, if not itself before `k`, is the answer. */
  lemma SuccessorIsFirst(h: Heap, list: seq<Node>, j: nat, k: int)
    requires ListOk(h, list) && j < |list| && Before(h, list[j], k)
    requires !KeyIsAfterNode(h, k, Successor(list, j))
    ensures IsFirstAtOrAfter(h, list, k, Successor(list, j))
  {
    if j + 1 < |list| {
      assert list[j + 1] == Successor(list, j).value;
      assert forall i :: 1 <= i < j + 1 ==> h.key[list[i]] < k;
    }
  }

  // ---------------------------------------------------------------- a writer and a reader

  /** The writer between two stores of Insert: levels below `level` are linked, and
      at `level` the new node's own link is set if `prepared`. */
  datatype Writer =
    | Idle
    | Linking(node: Node, height: nat, prev: seq<Node>, level: nat, prepared: bool)

  /** A search between two loads. `began` is the key set when it began. */
  datatype Reader =
    | Searching(target: int, at: Node, level: nat, began: set<int>)
    | Found(target: int, result: Option<Node>, began: set<int>)

  datatype State = State(heap: Heap, lists: Lists, writer: Writer, reader: Reader)

  /** `p` is where a node with key `k` goes in the list. */
  ghost predicate IsPrev(h: Heap, list: seq<Node>, p: Node, k: int) {
    exists j :: 0 <= j < |list| && list[j] == p && Before(h, p, k)
                && (j + 1 < |list| ==> list[j + 1] in h.key && k < h.key[list[j + 1]])
  }

  ghost predicate WriterOk(h: Heap, lists: Lists, w: Writer) {
    w.Linking? && |lists| == MAX_HEIGHT ==>
      && w.node != HEAD && w.node in h.key
      && w.level < w.height <= h.maxHeight <= MAX_HEIGHT && |w.prev| == w.height
      && (forall l :: 0 <= l < w.level ==> w.node in lists[l])
      && (forall l :: w.level <= l < MAX_HEIGHT ==> w.node !in lists[l])
      && (forall l :: w.level <= l < w.height ==> IsPrev(h, lists[l], w.prev[l], h.key[w.node]))
      && (w.prepared ==>
            && (w.prev[w.level], w.level) in h.next
            && (w.node, w.level) in h.next
            && h.next[(w.node, w.level)] == h.next[(w.prev[w.level], w.level)])
  }

  ghost predicate ReaderOk(h: Heap, lists: Lists, r: Reader)
    requires Ok(h, lists)
  {
    && r.began <= Keys(h, lists)
    && match r
       case Searching(target, at, level, _) => level < MAX_HEIGHT && at in lists[level] && Before(h, at, target)
       case Found(target, result, began) =>
         && (result.Some? ==> result.value in lists[0] && result.value in h.key && h.key[result.value] >= target)
         && (forall k :: k in began && k >= target ==> result.Some? && h.key[result.value] <= k)
  }

  ghost predicate Inv(s: State) {
    Ok(s.heap, s.lists) && WriterOk(s.heap, s.lists, s.writer) && ReaderOk(s.heap, s.lists, s.reader)
  }

  datatype Step =
    | StartInsert(key: int, newNode: Node, height: nat, prev: seq<Node>)
    | Prepare
    | Publish
    | StartSearch(target: int, observedHeight: nat)
    | Load

  function InsertAfter(list: seq<Node>, p: Node, n: Node): seq<Node> {
    if list == [] then [n]
    else if list[0] == p then [p, n] + list[1..]
    else [list[0]] + InsertAfter(list[1..], p, n)
  }

  /** One store of the writer or one load of the reader. */
  ghost predicate Next(s: State, t: State, step: Step) {
    match step
    case StartInsert(k, x, height, prev) =>
      && Ok(s.heap, s.lists) && s.writer.Idle?
      && k !in Keys(s.heap, s.lists) && x != HEAD && x !in s.heap.key && 1 <= height <= MAX_HEIGHT
      && |prev| == height && (forall l :: 0 <= l < height ==> IsPrev(s.heap, s.lists[l], prev[l], k))
      && t == s.(heap := s.heap.(key := s.heap.key[x := k],
                                 maxHeight := if height > s.heap.maxHeight then height else s.heap.maxHeight),
                 writer := Linking(x, height, prev, 0, false))
    case Prepare =>
      && s.writer.Linking? && !s.writer.prepared
      && var w := s.writer;
      && w.level < |w.prev| && (w.prev[w.level], w.level) in s.heap.next
      && t == s.(heap := s.heap.(next := s.heap.next[(w.node, w.level) := s.heap.next[(w.prev[w.level], w.level)]]),
                 writer := w.(prepared := true))
    case Publish =>
      && s.writer.Linking? && s.writer.prepared
      && var w := s.writer;
      && w.level < |w.prev| && w.level < |s.lists|
      && t == s.(heap := s.heap.(next := s.heap.next[(w.prev[w.level], w.level) := Some(w.node)]),
                 lists := s.lists[w.level := InsertAfter(s.lists[w.level], w.prev[w.level], w.node)],
                 writer := if w.level + 1 == w.height then Idle else w.(level := w.level + 1, prepared := false))
    case StartSearch(target, observed) =>
      // any height the list has had: a stale value or the newest
      && Ok(s.heap, s.lists) && 1 <= observed <= s.heap.maxHeight
      && t == s.(reader := Searching(target, HEAD, observed - 1, Keys(s.heap, s.lists)))
    case Load =>
      && s.reader.Searching?
      && var r := s.reader;
      && (r.at, r.level) in s.heap.next
      && var next := s.heap.next[(r.at, r.level)];
      && (next.Some? ==> next.value in s.heap.key)
      && t == s.(reader :=
                   if KeyIsAfterNode(s.heap, r.target, next) then r.(at := next.value)
                   else if r.level == 0 then Found(r.target, next, r.began)
                   else r.(level := r.level - 1))
  }

  // ---------------------------------------------------------------- every step keeps the invariant

  lemma {:induction false} InsertAfterSpec(list: seq<Node>, p: Node, n: Node, j: nat)
    requires j < |list| && list[j] == p && forall i :: 0 <= i < j ==> list[i] != p
    ensures InsertAfter(list, p, n) == list[..j + 1] + [n] + list[j + 1..]
  {
    if j > 0 {
      InsertAfterSpec(list[1..], p, n, j - 1);
      assert list == [list[0]] + list[1..];
    } else {
      assert list == [p] + list[1..];
    }
  }

  function Splice(list: seq<Node>, j: nat, x: Node): seq<Node>
    requires j < |list|
  {
    list[..j + 1] + [x] + list[j + 1..]
  }

  lemma SpliceElements(list: seq<Node>, j: nat, x: Node)
    requires j < |list|
    ensures forall n :: n in Splice(list, j, x) <==> n in list || n == x
    ensures |Splice(list, j, x)| == |list| + 1
    ensures forall i :: 0 <= i <= |list| ==>
      Splice(list, j, x)[i] == if i <= j then list[i] else if i == j + 1 then x else list[i - 1]
  {
    assert list == list[..j + 1] + list[j + 1..];
  }

  lemma SpliceKeepsList(h: Heap, h': Heap, list: seq<Node>, j: nat, x: Node)
    requires ListOk(h, list) && j < |list| && x != HEAD && x in h.key && h'.key == h.key
    requires Before(h, list[j], h.key[x]) && (j + 1 < |list| ==> h.key[x] < h.key[list[j + 1]])
    ensures ListOk(h', Splice(list, j, x))
  {
    SpliceElements(list, j, x);
    assert forall i :: 1 <= i < j ==> h.key[list[i]] < h.key[list[j]];
    assert forall i :: j + 1 < i < |list| ==> h.key[list[j + 1]] < h.key[list[i]];
  }

  lemma SpliceKeepsLinks(h: Heap, h': Heap, list: seq<Node>, l: nat, j: nat, x: Node)
    requires Linked(h, list, l) && j < |list| && x !in list
    requires forall i :: 0 <= i < |list| && i != j ==> list[i] != list[j]
    requires (x, l) in h.next && h.next[(x, l)] == h.next[(list[j], l)]
    requires h' == h.(next := h.next[(list[j], l) := Some(x)])
    ensures Linked(h', Splice(list, j, x), l)
  {
    SpliceElements(list, j, x);
    var r := Splice(list, j, x);
    forall i | 0 <= i < |r|
      ensures (r[i], l) in h'.next && h'.next[(r[i], l)] == Successor(r, i)
    {
      if i != j + 1 {
        var k := if i <= j then i else i - 1;
        assert r[i] == list[k];
        assert k != j || i == j;
      }
    }
  }

  /** Linking a node behind its predecessor keeps the level sorted and linked. */
  lemma PublishKeepsLevel(h: Heap, h': Heap, list: seq<Node>, l: nat, p: Node, x: Node)
    requires ListOk(h, list) && Linked(h, list, l)
    requires x != HEAD && x in h.key && x !in list && IsPrev(h, list, p, h.key[x])
    requires (p, l) in h.next && (x, l) in h.next && h.next[(x, l)] == h.next[(p, l)]
    requires h' == h.(next := h.next[(p, l) := Some(x)])
    ensures ListOk(h', InsertAfter(list, p, x)) && Linked(h', InsertAfter(list, p, x), l)
    ensures forall n :: n in InsertAfter(list, p, x) <==> n in list || n == x
  {
    var j :| 0 <= j < |list| && list[j] == p && Before(h, p, h.key[x])
             && (j + 1 < |list| ==> list[j + 1] in h.key && h.key[x] < h.key[list[j + 1]]);
    assert forall i :: 0 <= i < |list| && i != j ==> list[i] != p;
    InsertAfterSpec(list, p, x, j);
    hide IsPrev, InsertAfter, ListOk, Linked, Before;
    SpliceElements(list, j, x);
    SpliceKeepsList(h, h', list, j, x);
    SpliceKeepsLinks(h, h', list, l, j, x);
  }

  lemma PrepareKeepsInv(s: State, t: State)
    requires Inv(s) && Next(s, t, Prepare)
    ensures Inv(t)
  {
    PrepareKeepsOk(s, t);
    hide Ok, Linked, ListOk;
    assert Keys(t.heap, t.lists) == Keys(s.heap, s.lists) by {
      KeysSame(s.heap, t.heap, s.lists);
    }
    PrepareKeepsWriter(s, t);
    hide WriterOk, IsPrev;
  }

  lemma KeysSame(h: Heap, h': Heap, lists: Lists)
    requires Ok(h, lists) && Ok(h', lists) && h'.key == h.key
    ensures Keys(h', lists) == Keys(h, lists)
  {
    hide Linked, Sublist;
  }

  lemma PrepareKeepsOk(s: State, t: State)
    requires Ok(s.heap, s.lists) && WriterOk(s.heap, s.lists, s.writer) && Next(s, t, Prepare)
    ensures Ok(t.heap, t.lists)
  {
    hide IsPrev, Successor;
    var w := s.writer;
    forall l | 0 <= l < MAX_HEIGHT
      ensures ListOk(t.heap, t.lists[l]) && Linked(t.heap, t.lists[l], l)
    {
      assert ListOk(s.heap, s.lists[l]) && Linked(s.heap, s.lists[l], l);
    }
  }

  lemma PrepareKeepsWriter(s: State, t: State)
    requires Ok(s.heap, s.lists) && WriterOk(s.heap, s.lists, s.writer) && Next(s, t, Prepare)
    ensures WriterOk(t.heap, t.lists, t.writer)
  {
    assert |s.lists| == MAX_HEIGHT;
    hide Ok, KeyIsAfterNode, Before;
    var w := s.writer;
    forall l | w.level <= l < w.height
      ensures IsPrev(t.heap, t.lists[l], w.prev[l], t.heap.key[w.node])
    {
      PrevStays(s.heap, t.heap, s.lists[l], w.prev[l], w.node);
    }
    PrevIsOther(s.heap, s.lists[w.level], w.prev[w.level], w.node);
    hide IsPrev;
  }

  lemma PrevStays(h: Heap, h': Heap, list: seq<Node>, p: Node, x: Node)
    requires x in h.key && h'.key == h.key && IsPrev(h, list, p, h.key[x])
    ensures IsPrev(h', list, p, h'.key[x])
  {
  }

  lemma PrevIsOther(h: Heap, list: seq<Node>, p: Node, x: Node)
    requires x in h.key && x !in list && IsPrev(h, list, p, h.key[x])
    ensures p != x
  {
  }

  lemma PublishKeepsInv(s: State, t: State)
    requires Inv(s) && Next(s, t, Publish)
    ensures Inv(t)
  {
    var w := s.writer;
    var list := s.lists[w.level];
    PublishKeepsLevel(s.heap, t.heap, list, w.level, w.prev[w.level], w.node);
    PublishKeepsOk(s, t);
    PublishKeepsWriter(s, t);
    PublishGrowsKeys(s, t);
  }

  lemma PublishKeepsOk(s: State, t: State)
    requires Inv(s) && Next(s, t, Publish)
    requires ListOk(t.heap, t.lists[s.writer.level]) && Linked(t.heap, t.lists[s.writer.level], s.writer.level)
    requires forall n :: n in t.lists[s.writer.level] <==> n in s.lists[s.writer.level] || n == s.writer.node
    ensures Ok(t.heap, t.lists)
  {
    hide IsPrev, Successor, ReaderOk;
    var w := s.writer;
    forall l | 0 <= l < MAX_HEIGHT && l != w.level
      ensures ListOk(t.heap, t.lists[l]) && Linked(t.heap, t.lists[l], l)
    {
      assert ListOk(s.heap, s.lists[l]) && Linked(s.heap, s.lists[l], l);
    }
  }

  lemma PublishKeepsWriter(s: State, t: State)
    requires Inv(s) && Next(s, t, Publish)
    requires forall n :: n in t.lists[s.writer.level] <==> n in s.lists[s.writer.level] || n == s.writer.node
    ensures WriterOk(t.heap, t.lists, t.writer)
  {
    assert |s.lists| == MAX_HEIGHT;
    hide Ok, ReaderOk, InsertAfter, Before, KeyIsAfterNode;
    var w := s.writer;
    if t.writer.Linking? {
      forall l | t.writer.level <= l < w.height
        ensures IsPrev(t.heap, t.lists[l], w.prev[l], t.heap.key[w.node])
      {
        PrevStays(s.heap, t.heap, s.lists[l], w.prev[l], w.node);
      }
      hide IsPrev;
    }
  }

  lemma PublishGrowsKeys(s: State, t: State)
    requires Inv(s) && Next(s, t, Publish) && Ok(t.heap, t.lists)
    requires forall n :: n in t.lists[s.writer.level] <==> n in s.lists[s.writer.level] || n == s.writer.node
    ensures Keys(s.heap, s.lists) <= Keys(t.heap, t.lists)
    ensures ReaderOk(t.heap, t.lists, t.reader)
  {
    hide WriterOk, InsertAfter;
    KeysGrow(s.heap, s.lists, t.heap, t.lists);
  }

  lemma KeysGrow(h: Heap, lists: Lists, h': Heap, lists': Lists)
    requires Ok(h, lists) && Ok(h', lists')
    requires Sublist(lists[0], lists'[0]) && forall n :: n in h.key ==> n in h'.key && h'.key[n] == h.key[n]
    ensures Keys(h, lists) <= Keys(h', lists')
  {
    forall k | k in Keys(h, lists)
      ensures k in Keys(h', lists')
    {
      var j :| 1 <= j < |lists[0]| && h.key[lists[0][j]] == k;
      assert lists[0][j] in lists'[0];
      var i :| 0 <= i < |lists'[0]| && lists'[0][i] == lists[0][j];
    }
  }

  lemma StartInsertKeepsInv(s: State, t: State, step: Step)
    requires Inv(s) && step.StartInsert? && Next(s, t, step)
    ensures Inv(t)
  {
    StartInsertKeepsOk(s, t, step);
    KeysGrow(s.heap, s.lists, t.heap, t.lists);
    forall l | 0 <= l < step.height
      ensures IsPrev(t.heap, t.lists[l], step.prev[l], step.key)
    {
      assert IsPrev(s.heap, s.lists[l], step.prev[l], step.key);
      assert ListOk(s.heap, s.lists[l]);
    }
    forall l | 0 <= l < MAX_HEIGHT
      ensures step.newNode !in t.lists[l]
    {
      assert ListOk(s.heap, s.lists[l]);
    }
  }

  lemma StartInsertKeepsOk(s: State, t: State, step: Step)
    requires Inv(s) && step.StartInsert? && Next(s, t, step)
    ensures Ok(t.heap, t.lists)
  {
    forall l | 0 <= l < MAX_HEIGHT
      ensures ListOk(t.heap, t.lists[l]) && Linked(t.heap, t.lists[l], l)
    {
      assert ListOk(s.heap, s.lists[l]) && Linked(s.heap, s.lists[l], l);
    }
  }

  /** A load moves on, goes down, or ends at the first node at or after the target. */
  lemma LoadKeepsInv(s: State, t: State)
    requires Inv(s) && Next(s, t, Load)
    ensures Inv(t)
    ensures t.reader.Found? ==> IsFirstAtOrAfter(t.heap, t.lists[0], t.reader.target, t.reader.result)
  {
    hide WriterOk, Keys, IsFirstAtOrAfter;
    var r := s.reader;
    var list := s.lists[r.level];
    LevelLinks(s.heap, s.lists, r.level);
    var j :| 0 <= j < |list| && list[j] == r.at;
    assert s.heap.next[(r.at, r.level)] == Successor(list, j);
    if t.reader.Found? {
      SuccessorIsFirst(s.heap, list, j, r.target);
      FirstIsBelow(s.heap, s.lists, r.target, t.reader.result);
    } else if t.reader.level == r.level {
      assert list[j + 1] in list;
    } else {
      assert Sublist(s.lists[r.level], s.lists[r.level - 1]);
    }
  }

  lemma LevelLinks(h: Heap, lists: Lists, l: nat)
    requires Ok(h, lists) && l < MAX_HEIGHT
    ensures ListOk(h, lists[l]) && Linked(h, lists[l], l)
  {
  }

  /** The first node at or after `k` is at or before every key from `k` on. */
  lemma FirstIsBelow(h: Heap, lists: Lists, k: int, r: Option<Node>)
    requires Ok(h, lists) && IsFirstAtOrAfter(h, lists[0], k, r)
    ensures r.Some? ==> r.value in lists[0] && r.value in h.key && h.key[r.value] >= k
    ensures forall q :: q in Keys(h, lists) && q >= k ==> r.Some? && h.key[r.value] <= q
  {
  }

  lemma NextKeepsInv(s: State, t: State, step: Step)
    requires Inv(s) && Next(s, t, step)
    ensures Inv(t)
  {
    hide Inv, Next;
    match step
    case StartInsert(_, _, _, _) => StartInsertKeepsInv(s, t, step);
    case Prepare => PrepareKeepsInv(s, t);
    case Publish => PublishKeepsInv(s, t);
    case StartSearch(_, _) => StartSearchKeepsInv(s, t, step);
    case Load => LoadKeepsInv(s, t);
  }

  lemma StartSearchKeepsInv(s: State, t: State, step: Step)
    requires Inv(s) && step.StartSearch? && Next(s, t, step)
    ensures Inv(t)
  {
    assert ListOk(s.heap, s.lists[step.observedHeight - 1]);
    assert HEAD in s.lists[step.observedHeight - 1];
  }

  ghost predicate Init(s: State) {
    && s.heap == Heap(map[], map l: nat | l < MAX_HEIGHT :: (HEAD, l) := None, 1)
    && s.lists == seq(MAX_HEIGHT, _ => [HEAD])
    && s.writer.Idle? && s.reader == Found(0, None, {})
  }

  ghost predicate IsRun(run: seq<State>, steps: seq<Step>) {
    && |run| == |steps| + 1
    && Init(run[0])
    && forall i :: 0 <= i < |steps| ==> Next(run[i], run[i + 1], steps[i])
  }

  lemma {:induction false} RunKeepsInv(run: seq<State>, steps: seq<Step>, i: nat)
    requires IsRun(run, steps) && i < |run|
    ensures Inv(run[i])
  {
    if i == 0 {
      InitInv(run[0]);
    } else {
      hide Inv, Next, Init;
      RunKeepsInv(run, steps, i - 1);
      NextKeepsInv(run[i - 1], run[i], steps[i - 1]);
    }
  }

  lemma InitInv(s: State)
    requires Init(s)
    ensures Inv(s)
  {
  }

  /** However writer and reader interleave, a search that ends at step `i` has found
      the first node at or after its target among those linked at that moment. */
  lemma SearchIsExact(run: seq<State>, steps: seq<Step>, i: nat)
    requires IsRun(run, steps) && i < |steps| && steps[i].Load? && run[i + 1].reader.Found?
    ensures
      var s, r := run[i + 1], run[i + 1].reader;
      Inv(s) && IsFirstAtOrAfter(s.heap, s.lists[0], r.target, r.result)
  {
    hide Inv, Next, Init, IsFirstAtOrAfter;
    RunKeepsInv(run, steps, i);
    LoadKeepsInv(run[i], run[i + 1]);
  }

  /** It never misses a key that was present when it began. */
  lemma SearchMissesNothing(run: seq<State>, steps: seq<Step>, i: nat, k: int)
    requires IsRun(run, steps) && i < |run| && run[i].reader.Found?
    requires k in run[i].reader.began && k >= run[i].reader.target
    ensures run[i].reader.result.Some?
    ensures run[i].reader.result.value in run[i].heap.key
    ensures run[i].reader.target <= run[i].heap.key[run[i].reader.result.value] <= k
  {
    RunKeepsInv(run, steps, i);
  }

  // ---------------------------------------------------------------- the searches and Insert, run alone

  const QUIET := Found(0, None, {})

  /** From level `from` up, `prev` is where `k` goes. */
  ghost predicate PrevsFrom(h: Heap, lists: Lists, from: nat, prev: seq<Node>, k: int)
    requires |prev| <= |lists|
  {
    forall l :: from <= l < |prev| ==> IsPrev(h, lists[l], prev[l], k)
  }

  /** Where a search goes down a level is where `k` is linked. */
  lemma PrevHere(h: Heap, list: seq<Node>, j: nat, k: int)
    requires j < |list| && Before(h, list[j], k)
    requires Successor(list, j).Some? ==> Successor(list, j).value in h.key
    requires !KeyIsAfterNode(h, k, Successor(list, j))
    ensures (Successor(list, j).Some? ==> h.key[Successor(list, j).value] != k) ==> IsPrev(h, list, list[j], k)
  {
  }

  lemma PrevsNone(h: Heap, lists: Lists, from: nat, prev: seq<Node>, k: int)
    requires |prev| <= |lists| && |prev| <= from
    ensures PrevsFrom(h, lists, from, prev, k)
  {
  }

  lemma PrevsStep(h: Heap, lists: Lists, level: nat, prev: seq<Node>, p: Node, k: int)
    requires level < |prev| <= |lists|
    ensures PrevsFrom(h, lists, level + 1, prev, k) && IsPrev(h, lists[level], p, k) ==>
      PrevsFrom(h, lists, level, prev[level := p], k)
  {
    hide IsPrev;
  }

  class SkipList {
    var heap: Heap
    ghost var lists: Lists

    constructor ()
      ensures Valid() && Keys(heap, lists) == {}
    {
      heap := Heap(map[], map l: nat | l < MAX_HEIGHT :: (HEAD, l) := None, 1);
      lists := seq(MAX_HEIGHT, _ => [HEAD]);
    }

    ghost predicate Valid()
      reads this
    {
      Ok(heap, lists)
    }

    function Link(n: Node, level: nat): Option<Node>
      requires (n, level) in heap.next
      reads this
    {
      heap.next[(n, level)]
    }

    /** The link of entry `j` of a level. */
    lemma LinkIsSuccessor(list: seq<Node>, level: nat, j: nat)
      requires Valid() && level < MAX_HEIGHT && list == lists[level] && j < |list|
      ensures (list[j], level) in heap.next && Link(list[j], level) == Successor(list, j)
      ensures Successor(list, j).Some? ==> Successor(list, j).value in heap.key
    {
      hide Sublist;
      assert ListOk(heap, list) && Linked(heap, list, level);
    }

    /** A search begins at the head of the top level. */
    lemma HeadIsFirst()
      requires Valid()
      ensures |lists| == MAX_HEIGHT && 1 <= heap.maxHeight <= MAX_HEIGHT
      ensures lists[heap.maxHeight - 1] != [] && lists[heap.maxHeight - 1][0] == HEAD
    {
      assert ListOk(heap, lists[heap.maxHeight - 1]);
    }

    lemma LevelIsList(level: nat)
      requires Valid() && level < MAX_HEIGHT
      ensures ListOk(heap, lists[level])
    {
      hide Linked, Sublist;
    }

    /** Going down a level, the node is found again. */
    lemma AlsoBelow(level: nat, n: Node) returns (j: nat)
      requires Valid() && 0 < level < MAX_HEIGHT && n in lists[level]
      ensures j < |lists[level - 1]| && lists[level - 1][j] == n
    {
      hide Linked, ListOk;
      assert Sublist(lists[level], lists[level - 1]);
      j :| 0 <= j < |lists[level - 1]| && lists[level - 1][j] == n;
    }

    /** `prev[l]` is where `k` would be linked at level `l`. */
    method FindGreaterOrEqual(k: int) returns (r: Option<Node>, prev: seq<Node>)
      requires Valid()
      ensures IsFirstAtOrAfter(heap, lists[0], k, r)
      ensures |prev| == heap.maxHeight <= |lists|
      ensures k !in Keys(heap, lists) ==> PrevsFrom(heap, lists, 0, prev, k)
    {
      hide Ok, ListOk, Linked, IsPrev, IsFirstAtOrAfter, Keys, PrevsFrom;
      HeadIsFirst();
      var x, level := HEAD, heap.maxHeight - 1;
      ghost var j, list := 0, lists[level];
      prev := seq(heap.maxHeight, _ => HEAD);
      PrevsNone(heap, lists, level + 1, prev, k);
      while true
        invariant 0 <= level < heap.maxHeight <= |lists| && |prev| == heap.maxHeight
        invariant list == lists[level] && 0 <= j < |list| && list[j] == x && Before(heap, x, k)
        invariant k !in Keys(heap, lists) ==> PrevsFrom(heap, lists, level + 1, prev, k)
        decreases level, |list| - j
      {
        LinkIsSuccessor(list, level, j);
        var next := Link(x, level);
        if KeyIsAfterNode(heap, k, next) {
          x, j := next.value, j + 1;
        } else {
          if next.Some? {
            KeyIsInList(level, j + 1);
          }
          PrevHere(heap, list, j, k);
          PrevsStep(heap, lists, level, prev, x, k);
          prev := prev[level := x];
          if level == 0 {
            LevelIsList(0);
            SuccessorIsFirst(heap, lists[0], j, k);
            return next, prev;
          }
          j := AlsoBelow(level, x);
          level := level - 1;
          list := lists[level];
        }
      }
    }

    lemma KeyIsInList(level: nat, j: nat)
      requires Valid() && level < MAX_HEIGHT && 1 <= j < |lists[level]|
      ensures lists[level][j] in heap.key && heap.key[lists[level][j]] in Keys(heap, lists)
    {
      hide Linked, Sublist;
      LevelIsList(level);
      LevelIsList(0);
      var n := lists[level][j];
      InBottom(level, n);
      var i :| 0 <= i < |lists[0]| && lists[0][i] == n;
    }

    lemma InBottom(level: nat, n: Node)
      requires Valid() && level < MAX_HEIGHT && n in lists[level]
      ensures n in lists[0]
    {
      hide Linked, ListOk;
      assert level > 0 ==> Sublist(lists[level], lists[0]);
    }

    /** The last node with a key before `k`; the head if there is none. */
    method FindLessThan(k: int) returns (x: Node)
      requires Valid()
      ensures IsLastBefore(heap, lists[0], k, x)
    {
      hide Ok, ListOk, Linked, IsLastBefore;
      HeadIsFirst();
      x := HEAD;
      var level := heap.maxHeight - 1;
      ghost var j, list := 0, lists[level];
      while true
        invariant 0 <= level < heap.maxHeight <= |lists|
        invariant list == lists[level] && 0 <= j < |list| && list[j] == x && Before(heap, x, k)
        decreases level, |list| - j
      {
        LinkIsSuccessor(list, level, j);
        var next := Link(x, level);
        if KeyIsAfterNode(heap, k, next) {
          x, j := next.value, j + 1;
        } else if level > 0 {
          j := AlsoBelow(level, x);
          level := level - 1;
          list := lists[level];
        } else {
          LevelIsList(0);
          LastHere(heap, list, j, k);
          return;
        }
      }
    }

    /** The last node; the head if the list is empty. */
    method FindLast() returns (x: Node)
      requires Valid()
      ensures lists[0] != [] && x == lists[0][|lists[0]| - 1]
    {
      hide Ok, ListOk, Linked;
      HeadIsFirst();
      x := HEAD;
      var level := heap.maxHeight - 1;
      ghost var j, list := 0, lists[level];
      while true
        invariant 0 <= level < heap.maxHeight <= |lists|
        invariant list == lists[level] && 0 <= j < |list| && list[j] == x
        decreases level, |list| - j
      {
        LinkIsSuccessor(list, level, j);
        var next := Link(x, level);
        if next.Some? {
          x, j := next.value, j + 1;
        } else if level > 0 {
          j := AlsoBelow(level, x);
          level := level - 1;
          list := lists[level];
        } else {
          return;
        }
      }
    }

    method Contains(k: int) returns (r: bool)
      requires Valid()
      ensures r <==> k in Keys(heap, lists)
    {
      var x, prev := FindGreaterOrEqual(k);
      r := x.Some? && heap.key[x.value] == k;
    }

    /** Chooses the predecessors of a fresh node and raises the list's height. */
    method BeginInsert(k: int, x: Node, height: nat) returns (prev: seq<Node>)
      requires Valid() && k !in Keys(heap, lists)
      requires x != HEAD && x !in heap.key && 1 <= height <= MAX_HEIGHT
      modifies this`heap
      ensures Inv(State(heap, lists, Linking(x, height, prev, 0, false), QUIET))
      ensures LevelZero(old(heap), lists, heap, lists, HEAD)
      ensures x in heap.key && heap.key[x] == k
    {
      hide Ok, IsPrev, Keys, Inv, LevelZero;
      prev := FindPrev(k, height);
      ghost var s := State(heap, lists, Idle, QUIET);
      InvWhenQuiet(s);
      heap := heap.(key := heap.key[x := k], maxHeight := if height > heap.maxHeight then height else heap.maxHeight);
      ghost var t := State(heap, lists, Linking(x, height, prev, 0, false), QUIET);
      InsertStarts(s, t, x);
      StartInsertKeepsInv(s, t, StartInsert(k, x, height, prev));
    }

    /** Links a fresh node of a random height; `x` is where the arena puts it. */
    method Insert(k: int, x: Node, height: nat)
      requires Valid() && k !in Keys(heap, lists)
      requires x != HEAD && x !in heap.key && 1 <= height <= MAX_HEIGHT
      modifies this
      ensures Valid() && Keys(heap, lists) == old(Keys(heap, lists)) + {k}
    {
      hide Ok, Keys, LevelZero, LevelZeroGains, Inv;
      ghost var h0, lists0 := heap, lists;
      var prev := BeginInsert(k, x, height);
      for i := 0 to height
        invariant Inv(State(heap, lists, if i < height then Linking(x, height, prev, i, false) else Idle, QUIET))
        invariant x in heap.key && heap.key[x] == k
        invariant LevelZero(h0, lists0, heap, lists, if i == 0 then HEAD else x)
      {
        ghost var h, before := heap, lists;
        SetNext(x, height, prev, i);
        PublishNext(x, height, prev, i);
        LevelZeroStep(h0, lists0, h, before, heap, lists, i, x);
      }
      InvIsOk(State(heap, lists, Idle, QUIET));
      KeysAfterInsert(h0, lists0, heap, lists, x);
    }

    /** Above the list's height the head is the place to link. */
    lemma HeadIsPrev(k: int)
      requires Valid()
      ensures forall l :: heap.maxHeight <= l < MAX_HEIGHT ==> IsPrev(heap, lists[l], HEAD, k)
    {
      forall l | heap.maxHeight <= l < MAX_HEIGHT
        ensures IsPrev(heap, lists[l], HEAD, k)
      {
        assert lists[l] == [HEAD] && lists[l][0] == HEAD;
      }
    }

    method FindPrev(k: int, height: nat) returns (prev: seq<Node>)
      requires Valid() && k !in Keys(heap, lists) && height <= MAX_HEIGHT
      ensures |prev| == height && |lists| == MAX_HEIGHT
      ensures forall l :: 0 <= l < height ==> IsPrev(heap, lists[l], prev[l], k)
    {
      hide Ok, IsPrev, IsFirstAtOrAfter, Keys;
      HeadIsFirst();
      HeadIsPrev(k);
      var r;
      r, prev := FindGreaterOrEqual(k);
      if height > heap.maxHeight {
        prev := prev + seq(height - heap.maxHeight, _ => HEAD);
      }
      prev := prev[..height];
    }

    /** The first store at level `i`: the new node's own link. */
    method SetNext(x: Node, height: nat, prev: seq<Node>, i: nat)
      requires i < height && Inv(State(heap, lists, Linking(x, height, prev, i, false), QUIET))
      modifies this`heap
      ensures Inv(State(heap, lists, Linking(x, height, prev, i, true), QUIET))
      ensures heap.key == old(heap.key)
    {
      hide Inv, Ok, IsPrev, Keys;
      ghost var s := State(heap, lists, Linking(x, height, prev, i, false), QUIET);
      LinksExist(s);
      heap := heap.(next := heap.next[(x, i) := heap.next[(prev[i], i)]]);
      PrepareKeepsInv(s, State(heap, lists, Linking(x, height, prev, i, true), QUIET));
    }

    /** The second store, which publishes the node at level `i`. */
    method PublishNext(x: Node, height: nat, prev: seq<Node>, i: nat)
      requires i < height && Inv(State(heap, lists, Linking(x, height, prev, i, true), QUIET))
      modifies this
      ensures Inv(State(heap, lists, if i + 1 < height then Linking(x, height, prev, i + 1, false) else Idle, QUIET))
      ensures LevelZeroGains(old(lists), lists, i, x)
      ensures heap.key == old(heap.key)
    {
      hide Inv, InsertAfter, LevelZeroGains, Ok, IsPrev, Keys;
      ghost var t := State(heap, lists, Linking(x, height, prev, i, true), QUIET);
      LinksExist(t);
      heap := heap.(next := heap.next[(prev[i], i) := Some(x)]);
      lists := lists[i := InsertAfter(lists[i], prev[i], x)];
      ghost var u := State(heap, lists, if i + 1 == height then Idle else Linking(x, height, prev, i + 1, false), QUIET);
      PublishKeepsInv(t, u);
      PublishGains(t, u);
    }
  }

  /** Linking level `i` changes level zero only if `i` is zero. */
  ghost predicate LevelZeroGains(lists: Lists, lists': Lists, i: nat, x: Node) {
    && |lists| == |lists'| == MAX_HEIGHT
    && forall n :: n in lists'[0] <==> n in lists[0] || (i == 0 && n == x)
  }

  lemma PublishGains(t: State, u: State)
    requires Inv(t) && Next(t, u, Publish)
    ensures LevelZeroGains(t.lists, u.lists, t.writer.level, t.writer.node)
  {
    hide ReaderOk;
    var w := t.writer;
    if w.level == 0 {
      PublishKeepsLevel(t.heap, u.heap, t.lists[0], 0, w.prev[0], w.node);
    }
  }

  lemma LevelZeroStep(h: Heap, lists: Lists, h1: Heap, lists1: Lists, h2: Heap, lists2: Lists, i: nat, x: Node)
    requires LevelZero(h, lists, h1, lists1, if i == 0 then HEAD else x)
    requires LevelZeroGains(lists1, lists2, i, x) && h2.key == h1.key
    ensures LevelZero(h, lists, h2, lists2, x)
  {
  }

  lemma InvWhenQuiet(s: State)
    requires Ok(s.heap, s.lists) && s.writer == Idle && s.reader == QUIET
    ensures Inv(s)
  {
    hide Ok;
  }

  lemma InvIsOk(s: State)
    requires Inv(s)
    ensures Ok(s.heap, s.lists)
  {
  }

  lemma InsertStarts(s: State, t: State, x: Node)
    requires Ok(s.heap, s.lists) && t.lists == s.lists && t.heap.key.Keys == s.heap.key.Keys + {x} && x !in s.heap.key
    requires forall n :: n in s.heap.key ==> n in t.heap.key && t.heap.key[n] == s.heap.key[n]
    ensures LevelZero(s.heap, s.lists, t.heap, t.lists, HEAD)
  {
  }

  /** A writer's predecessor has a link at its level. */
  lemma LinksExist(s: State)
    requires Inv(s) && s.writer.Linking?
    ensures s.writer.level < |s.writer.prev| && s.writer.level < |s.lists|
    ensures (s.writer.prev[s.writer.level], s.writer.level) in s.heap.next
  {
    var w := s.writer;
    assert IsPrev(s.heap, s.lists[w.level], w.prev[w.level], s.heap.key[w.node]);
    assert Linked(s.heap, s.lists[w.level], w.level);
  }

  /** Level zero has gained the node `x`, or nothing if `x` is the head. */
  ghost predicate LevelZero(h: Heap, lists: Lists, h': Heap, lists': Lists, x: Node) {
    && |lists| == |lists'| == MAX_HEIGHT
    && (forall n :: n in h.key ==> n in h'.key && h'.key[n] == h.key[n])
    && forall n :: n != HEAD ==> (n in lists'[0] <==> n in lists[0] || n == x)
  }

  lemma KeysAfterInsert(h: Heap, lists: Lists, h': Heap, lists': Lists, x: Node)
    requires Ok(h, lists) && Ok(h', lists') && x != HEAD && x in h'.key
    requires LevelZero(h, lists, h', lists', x)
    ensures Keys(h', lists') == Keys(h, lists) + {h'.key[x]}
  {
    assert ListOk(h, lists[0]) && ListOk(h', lists'[0]);
    forall k | k in Keys(h', lists')
      ensures k in Keys(h, lists) + {h'.key[x]}
    {
      var j :| 1 <= j < |lists'[0]| && h'.key[lists'[0][j]] == k;
      assert lists'[0][j] in lists'[0];
      if lists'[0][j] != x {
        var i :| 0 <= i < |lists[0]| && lists[0][i] == lists'[0][j];
      }
    }
    forall k | k in Keys(h, lists)
      ensures k in Keys(h', lists')
    {
      var j :| 1 <= j < |lists[0]| && h.key[lists[0][j]] == k;
      assert lists[0][j] in lists[0];
      var i :| 0 <= i < |lists'[0]| && lists'[0][i] == lists[0][j];
    }
    assert x in lists'[0];
    var i :| 0 <= i < |lists'[0]| && lists'[0][i] == x;
  }
}
