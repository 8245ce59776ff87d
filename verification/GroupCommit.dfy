/** Group commit: writers queue up, and the one at the front writes for a whole group.
    A state machine over the atomic sections of Write, for any interleaving. */
module GroupCommit {
  import opened InternalKeys
  import opened Bytes
  import opened WriteBatches

  /** A caller of Write; without a batch it only asks for a new memtable. */
  datatype Writer = Writer(batch: Option<seq<Update>>, sync: bool)

  function UpdatesOf(w: Writer): seq<Update> {
    if w.batch.Some? then w.batch.value else []
  }

  /** Size of a batch's representation. */
  function ByteSize(updates: seq<Update>): nat {
    HEADER + |EncodeAll(updates)|
  }

  /** The updates of some writers, in order. */
  function Concat(writers: seq<Writer>): seq<Update> {
    if writers == [] then [] else Concat(writers[..|writers| - 1]) + UpdatesOf(writers[|writers| - 1])
  }

  lemma {:induction false} ConcatAppend(a: seq<Writer>, b: seq<Writer>)
    ensures Concat(a + b) == Concat(a) + Concat(b)
  {
    if b == [] {
      assert a + b == a;
    } else {
      var k := |b| - 1;
      assert (a + b)[..|a + b| - 1] == a + b[..k];
      ConcatAppend(a, b[..k]);
    }
  }

  // ---------------------------------------------------------------- choosing the group

  const SMALL_WRITE := 0x2_0000
  const LARGE_GROUP := 0x10_0000

  function MaxSize(first: nat): nat {
    if first <= SMALL_WRITE then first + SMALL_WRITE else LARGE_GROUP
  }

  /** Sizes of the batches of some writers. */
  function TotalSize(writers: seq<Writer>): nat {
    if writers == [] then 0
    else
      var last := writers[|writers| - 1];
      TotalSize(writers[..|writers| - 1]) + if last.batch.Some? then ByteSize(last.batch.value) else 0
  }

  /** `n` writers may form the group that the first one leads. */
  ghost predicate GroupAllowed(queue: seq<Writer>, n: nat) {
    && 1 <= n <= |queue| && queue[0].batch.Some?
    && (n > 1 && TotalSize(queue[..n]) != TotalSize(queue[..1]) ==>
          TotalSize(queue[..n]) <= MaxSize(ByteSize(queue[0].batch.value)))
    && (forall i :: 0 <= i < n && queue[i].sync ==> queue[0].sync)
  }

  lemma TotalSnoc(queue: seq<Writer>, i: nat)
    requires i < |queue|
    ensures TotalSize(queue[..i + 1])
         == TotalSize(queue[..i]) + if queue[i].batch.Some? then ByteSize(queue[i].batch.value) else 0
    ensures Concat(queue[..i + 1]) == Concat(queue[..i]) + UpdatesOf(queue[i])
  {
    assert queue[..i + 1][..i] == queue[..i];
  }

  /** The group led by the first writer: as long as it may be, in queue order; and the
      batch that is written for it. */
  method BuildBatchGroup(queue: seq<Writer>) returns (n: nat, updates: seq<Update>)
    requires queue != [] && queue[0].batch.Some?
    ensures GroupAllowed(queue, n) && updates == Concat(queue[..n])
    ensures n < |queue| ==> !GroupAllowed(queue, n + 1)
  {
    hide EncodeAll, Concat, TotalSize;
    var first := queue[0];
    var result := first.batch.value;
    var size := ByteSize(first.batch.value);
    var maxSize := LARGE_GROUP;
    if size <= SMALL_WRITE {
      maxSize := size + SMALL_WRITE;
    }
    Nothing();
    assert queue[..0] == [];
    TotalSnoc(queue, 0);
    n := 1;
    assert [] + result == result;
    while n < |queue|
      invariant 1 <= n <= |queue|
      invariant size == TotalSize(queue[..n]) && result == Concat(queue[..n])
      invariant GroupAllowed(queue, n)
      invariant size >= ByteSize(first.batch.value) == TotalSize(queue[..1])
    {
      var w := queue[n];
      TotalSnoc(queue, n);
      if w.sync && !first.sync {
        assert !GroupAllowed(queue, n + 1);
        break;
      }
      if w.batch.Some? {
        size := size + ByteSize(w.batch.value);
        if size > maxSize {
          break;
        }
        result := result + w.batch.value;
      }
      n := n + 1;
    }
    updates := result;
  }

  lemma Nothing()
    ensures TotalSize([]) == 0 && Concat([]) == []
  {
  }

  // ---------------------------------------------------------------- the steps

  /** The leader's group while the mutex is released: how many of its updates have
      gone into the memtable. */
  datatype Leading = Leading(size: nat, updates: seq<Update>, applied: nat, sync: bool)

  /** `arrived` are all writers that ever entered the queue; `acknowledged` those that
      were told the outcome, each with whether its log write was synced. */
  datatype State = State(
    queue: seq<Writer>, leading: Option<Leading>, memtable: seq<(nat, Update)>, lastSequence: nat,
    arrived: seq<Writer>, acknowledged: seq<(Writer, bool)>)

  datatype Step = Enqueue(writer: Writer) | Lead(size: nat) | ApplyNext | Finish

  predicate Init(s: State) {
    s == State([], None, [], 0, [], [])
  }

  function Acknowledged(writers: seq<Writer>, synced: bool): (r: seq<(Writer, bool)>)
    ensures |r| == |writers|
  {
    seq(|writers|, i requires 0 <= i < |writers| => (writers[i], synced))
  }

  ghost predicate Next(s: State, t: State, step: Step) {
    match step
    case Enqueue(w) =>
      t == s.(queue := s.queue + [w], arrived := s.arrived + [w])
    case Lead(n) =>
      && s.leading.None? && s.queue != []
      && (if s.queue[0].batch.Some? then GroupAllowed(s.queue, n) else n == 1)
      && t == s.(leading := Some(Leading(n, Concat(s.queue[..n]), 0, s.queue[0].sync)))
    case ApplyNext =>
      && s.leading.Some? && s.leading.value.applied < |s.leading.value.updates|
      && var l := s.leading.value;
      && t == s.(memtable := s.memtable + [(s.lastSequence + 1 + l.applied, l.updates[l.applied])],
                 leading := Some(l.(applied := l.applied + 1)))
    case Finish =>
      && s.leading.Some? && s.leading.value.applied == |s.leading.value.updates|
      && var l := s.leading.value;
      && l.size <= |s.queue|
      && t == s.(lastSequence := s.lastSequence + |l.updates|, leading := None, queue := s.queue[l.size..],
                 acknowledged := s.acknowledged + Acknowledged(s.queue[..l.size], l.sync))
  }

  // ---------------------------------------------------------------- the invariant

  function Writers(acknowledged: seq<(Writer, bool)>): (r: seq<Writer>)
    ensures |r| == |acknowledged|
  {
    seq(|acknowledged|, i requires 0 <= i < |acknowledged| => acknowledged[i].0)
  }

  /** Updates with consecutive numbers from 1 on. */
  function Numbered(updates: seq<Update>): (r: seq<(nat, Update)>)
    ensures |r| == |updates|
  {
    seq(|updates|, i requires 0 <= i < |updates| => (i + 1, updates[i]))
  }

  ghost predicate LeadingOk(s: State) {
    s.leading.Some? ==>
      var l := s.leading.value;
      && 1 <= l.size <= |s.queue| && l.applied <= |l.updates|
      && l.updates == Concat(s.queue[..l.size])
      && (forall i :: 0 <= i < l.size && s.queue[i].sync ==> l.sync)
  }

  ghost predicate Inv(s: State) {
    && LeadingOk(s)
    && Writers(s.acknowledged) + s.queue == s.arrived
    && s.lastSequence == |Concat(Writers(s.acknowledged))|
    && s.memtable == Numbered(Concat(Writers(s.acknowledged))
                              + if s.leading.Some? then s.leading.value.updates[..s.leading.value.applied] else [])
    && (forall i :: 0 <= i < |s.acknowledged| && s.acknowledged[i].0.sync ==> s.acknowledged[i].1)
  }

  lemma NumberedSnoc(updates: seq<Update>, u: Update)
    ensures Numbered(updates + [u]) == Numbered(updates) + [(|updates| + 1, u)]
  {
  }

  lemma ApplyKeepsInv(s: State, t: State)
    requires Inv(s) && Next(s, t, ApplyNext)
    ensures Inv(t)
  {
    hide Concat, Numbered, GroupAllowed, Writers;
    var l := s.leading.value;
    var done := Concat(Writers(s.acknowledged));
    NumberedSnoc(done + l.updates[..l.applied], l.updates[l.applied]);
    assert done + l.updates[..l.applied] + [l.updates[l.applied]] == done + l.updates[..l.applied + 1];
  }

  lemma FinishKeepsInv(s: State, t: State)
    requires Inv(s) && Next(s, t, Finish)
    ensures Inv(t)
  {
    hide Concat, Numbered, GroupAllowed;
    var l := s.leading.value;
    var before, group := Writers(s.acknowledged), s.queue[..l.size];
    assert Writers(t.acknowledged) == before + group;
    assert group + s.queue[l.size..] == s.queue;
    ConcatAppend(before, group);
    assert l.updates[..l.applied] == l.updates;
    assert Concat(before + group) + [] == Concat(before + group);
  }

  lemma EnqueueKeepsInv(s: State, t: State, w: Writer)
    requires Inv(s) && Next(s, t, Enqueue(w))
    ensures Inv(t)
  {
    hide Concat, Numbered, GroupAllowed, Writers;
    if s.leading.Some? {
      assert t.queue[..s.leading.value.size] == s.queue[..s.leading.value.size];
    }
  }

  lemma LeadKeepsInv(s: State, t: State, n: nat)
    requires Inv(s) && Next(s, t, Lead(n))
    ensures Inv(t)
  {
    hide Concat, Numbered, Writers, TotalSize, MaxSize;
    assert t.leading.value.updates[..0] == [];
  }

  lemma NextKeepsInv(s: State, t: State, step: Step)
    requires Inv(s) && Next(s, t, step)
    ensures Inv(t)
  {
    hide Inv, Next;
    match step
    case Enqueue(w) => EnqueueKeepsInv(s, t, w);
    case Lead(n) => LeadKeepsInv(s, t, n);
    case ApplyNext => ApplyKeepsInv(s, t);
    case Finish => FinishKeepsInv(s, t);
  }

  ghost predicate IsRun(run: seq<State>, steps: seq<Step>) {
    && |run| == |steps| + 1
    && Init(run[0])
    && forall i :: 0 <= i < |steps| ==> Next(run[i], run[i + 1], steps[i])
  }

  lemma InitInv(s: State)
    requires Init(s)
    ensures Inv(s)
  {
    assert Concat([]) == [];
  }

  lemma {:induction false} RunKeepsInv(run: seq<State>, steps: seq<Step>, i: nat)
    requires IsRun(run, steps) && i < |run|
    ensures Inv(run[i])
  {
    hide Inv, Next, Init;
    if i == 0 {
      InitInv(run[0]);
    } else {
      RunKeepsInv(run, steps, i - 1);
      NextKeepsInv(run[i - 1], run[i], steps[i - 1]);
    }
  }

  // ---------------------------------------------------------------- what holds over all runs

  /** At every moment the memtable holds the updates of the arrived batches, in queue
      order, each exactly once and numbered consecutively from 1, up to some point. */
  lemma AppliedInQueueOrder(run: seq<State>, steps: seq<Step>, i: nat, k: nat)
    requires IsRun(run, steps) && i < |run| && k < |run[i].memtable|
    ensures k < |Concat(run[i].arrived)| && run[i].memtable[k] == (k + 1, Concat(run[i].arrived)[k])
  {
    hide Next, Init, Concat, Writers;
    RunKeepsInv(run, steps, i);
    var s := run[i];
    ConcatAppend(Writers(s.acknowledged), s.queue);
    if s.leading.Some? {
      var n := s.leading.value.size;
      assert s.queue[..n] + s.queue[n..] == s.queue;
      ConcatAppend(s.queue[..n], s.queue[n..]);
    }
  }

  /** The last published number stands at the end of a whole batch: every arrived
      batch is at or below it entirely, or above it entirely. */
  lemma PublishedWhole(run: seq<State>, steps: seq<Step>, i: nat, w: nat)
    requires IsRun(run, steps) && i < |run| && w < |run[i].arrived|
    ensures
      var before, after := |Concat(run[i].arrived[..w])|, |Concat(run[i].arrived[..w + 1])|;
      run[i].lastSequence <= before || after <= run[i].lastSequence
    ensures w < |run[i].acknowledged| ==> |Concat(run[i].arrived[..w + 1])| <= run[i].lastSequence
  {
    hide Next, Init, Concat, Writers, Numbered;
    RunKeepsInv(run, steps, i);
    var s := run[i];
    var k := |s.acknowledged|;
    assert s.arrived[..k] == Writers(s.acknowledged);
    if w < k {
      ConcatMonotone(s.arrived, w + 1, k);
    } else {
      ConcatMonotone(s.arrived, k, w);
    }
  }

  lemma ConcatMonotone(writers: seq<Writer>, i: nat, j: nat)
    requires i <= j <= |writers|
    ensures |Concat(writers[..i])| <= |Concat(writers[..j])|
  {
    hide Concat;
    assert writers[..j] == writers[..i] + writers[i..j];
    ConcatAppend(writers[..i], writers[i..j]);
  }

  /** Writers are acknowledged in the order of arrival; a synced write is never
      acknowledged by a log write that was not synced; and what is acknowledged is in
      the memtable. */
  lemma AcknowledgedInOrder(run: seq<State>, steps: seq<Step>, i: nat, w: nat)
    requires IsRun(run, steps) && i < |run| && w < |run[i].acknowledged|
    ensures w < |run[i].arrived| && run[i].acknowledged[w].0 == run[i].arrived[w]
    ensures run[i].arrived[w].sync ==> run[i].acknowledged[w].1
    ensures |Concat(run[i].arrived[..w + 1])| <= |run[i].memtable|
  {
    hide Next, Init, Concat;
    RunKeepsInv(run, steps, i);
    var s := run[i];
    assert s.arrived[w] == Writers(s.acknowledged)[w];
    PublishedWhole(run, steps, i, w);
  }
}
