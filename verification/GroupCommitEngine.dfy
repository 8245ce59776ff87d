/** The writers' queue on top of the engine: applying and publishing a group are engine
    steps, between which flushes, compactions and snapshots go on. */
module GroupCommitEngine {
  import opened InternalKeys
  import opened Bytes
  import W = WriteBatches
  import G = GroupCommit
  import E = Engine
  import ES = EngineStructure

  /** The engine's form of keys and values. */
  datatype Forms = Forms(rank: Data -> UserKey, text: Data -> string)

  function StepOf(u: W.Update, forms: Forms): E.Step {
    match u
    case Put(key, value) => E.Apply(forms.rank(key), Value, forms.text(value))
    case Delete(key) => E.Apply(forms.rank(key), Deletion, "")
  }

  function EntryOf(p: (nat, W.Update), forms: Forms): Entry {
    match p.1
    case Put(key, value) => Entry(InternalKey(forms.rank(key), p.0, Value), forms.text(value))
    case Delete(key) => Entry(InternalKey(forms.rank(key), p.0, Deletion), "")
  }

  ghost function HistoryOf(memtable: seq<(nat, W.Update)>, forms: Forms): set<Entry> {
    set i | 0 <= i < |memtable| :: EntryOf(memtable[i], forms)
  }

  /** Updates of the current group that are in the memtable. */
  function Applied(g: G.State): nat {
    if g.leading.Some? then g.leading.value.applied else 0
  }

  /** The engine has been given what the writers have applied and published. */
  ghost predicate Refines(g: G.State, e: E.State, forms: Forms) {
    e.lastSequence == g.lastSequence && e.pending == Applied(g) && e.history == HistoryOf(g.memtable, forms)
  }

  // ---------------------------------------------------------------- both together

  datatype State = State(writers: G.State, engine: E.State)

  datatype Step = OfWriters(step: G.Step) | InBackground(background: E.Step)

  /** What a step of the writers is for the engine. */
  ghost predicate EngineNext(g: G.State, e: E.State, t: E.State, step: G.Step, forms: Forms) {
    match step
    case ApplyNext =>
      && g.leading.Some? && g.leading.value.applied < |g.leading.value.updates|
      && E.Next(e, t, StepOf(g.leading.value.updates[g.leading.value.applied], forms))
    case Finish => E.Next(e, t, E.Publish)
    case _ => t == e
  }

  ghost predicate Next(s: State, t: State, step: Step, forms: Forms) {
    match step
    case OfWriters(w) => G.Next(s.writers, t.writers, w) && EngineNext(s.writers, s.engine, t.engine, w, forms)
    case InBackground(b) => t.writers == s.writers && !b.Apply? && !b.Publish? && E.Next(s.engine, t.engine, b)
  }

  ghost predicate IsRun(run: seq<State>, steps: seq<Step>, forms: Forms) {
    && |run| == |steps| + 1
    && G.Init(run[0].writers) && E.Init(run[0].engine)
    && forall i :: 0 <= i < |steps| ==> Next(run[i], run[i + 1], steps[i], forms)
  }

  lemma HistorySnoc(memtable: seq<(nat, W.Update)>, p: (nat, W.Update), forms: Forms)
    ensures HistoryOf(memtable + [p], forms) == HistoryOf(memtable, forms) + {EntryOf(p, forms)}
  {
    var r := memtable + [p];
    assert r[|memtable|] == p;
    forall e | e in HistoryOf(memtable, forms)
      ensures e in HistoryOf(r, forms)
    {
      var i :| 0 <= i < |memtable| && e == EntryOf(memtable[i], forms);
      assert r[i] == memtable[i];
    }
  }

  /** The engine can follow every step of the writers, under the numbers they assign,
      as long as sequence numbers last. */
  lemma EngineFollows(g: G.State, h: G.State, step: G.Step, e: E.State, forms: Forms) returns (t: E.State)
    requires G.Next(g, h, step) && Refines(g, e, forms)
    requires step.ApplyNext? ==> e.lastSequence + e.pending + 1 < MAX_SEQUENCE_NUMBER
    ensures EngineNext(g, e, t, step, forms) && Refines(h, t, forms)
  {
    hide E.Insert, G.GroupAllowed, G.Concat, G.Acknowledged;
    match step
    case ApplyNext =>
      var l := g.leading.value;
      var u := l.updates[l.applied];
      var entry := E.NewEntry(e, StepOf(u, forms).user, StepOf(u, forms).kind, StepOf(u, forms).value);
      t := e.(mem := E.Insert(e.mem, entry), pending := e.pending + 1, history := e.history + {entry});
      HistorySnoc(g.memtable, (g.lastSequence + 1 + l.applied, u), forms);
    case Finish =>
      t := e.(lastSequence := e.lastSequence + e.pending, pending := 0);
    case _ =>
      t := e;
  }

  lemma NextKeepsRefines(s: State, t: State, step: Step, forms: Forms)
    requires Refines(s.writers, s.engine, forms) && Next(s, t, step, forms)
    ensures Refines(t.writers, t.engine, forms)
  {
    hide E.Insert, G.GroupAllowed, G.Concat, G.Acknowledged, E.FlushAllowed, E.OutputsOk, E.InstallEdit;
    if step == OfWriters(G.ApplyNext) {
      var l := s.writers.leading.value;
      HistorySnoc(s.writers.memtable, (s.writers.lastSequence + 1 + l.applied, l.updates[l.applied]), forms);
    }
  }

  /** `t` cuts no batch in two. */
  ghost predicate BetweenBatches(g: G.State, t: nat) {
    forall w :: 0 <= w < |g.arrived| ==>
      t <= |G.Concat(g.arrived[..w])| || |G.Concat(g.arrived[..w + 1])| <= t
  }

  ghost predicate Inv(s: State, forms: Forms) {
    && G.Inv(s.writers) && E.Sound(s.engine) && Refines(s.writers, s.engine, forms)
    && forall t: nat :: ES.Readable(s.engine, t) ==> t <= s.engine.lastSequence && BetweenBatches(s.writers, t)
  }

  lemma PublishedBetween(g: G.State)
    requires G.Inv(g)
    ensures BetweenBatches(g, g.lastSequence)
  {
    hide G.Concat, G.Writers, G.Numbered, G.LeadingOk;
    var k := |g.acknowledged|;
    assert g.arrived[..k] == G.Writers(g.acknowledged);
    forall w | 0 <= w < |g.arrived|
      ensures g.lastSequence <= |G.Concat(g.arrived[..w])| || |G.Concat(g.arrived[..w + 1])| <= g.lastSequence
    {
      if w < k {
        G.ConcatMonotone(g.arrived, w + 1, k);
      } else {
        G.ConcatMonotone(g.arrived, k, w);
      }
    }
  }

  /** Nothing published so far is beyond what has arrived, so later arrivals do not
      matter. */
  lemma ArrivalKeepsBetween(g: G.State, h: G.State, writer: G.Writer, t: nat)
    requires G.Inv(g) && t <= g.lastSequence && BetweenBatches(g, t) && h.arrived == g.arrived + [writer]
    ensures BetweenBatches(h, t)
  {
    hide G.Concat, G.Writers, G.Numbered, G.LeadingOk;
    var n, k := |g.arrived|, |g.acknowledged|;
    assert g.arrived[..k] == G.Writers(g.acknowledged) && g.arrived[..n] == g.arrived;
    G.ConcatMonotone(g.arrived, k, n);
    forall w | 0 <= w < |h.arrived|
      ensures t <= |G.Concat(h.arrived[..w])| || |G.Concat(h.arrived[..w + 1])| <= t
    {
      assert h.arrived[..w] == g.arrived[..w];
      assert w < n ==> h.arrived[..w + 1] == g.arrived[..w + 1];
    }
  }

  lemma NextKeepsReadable(s: State, t: State, step: Step, forms: Forms, number: nat)
    requires Inv(s, forms) && Next(s, t, step, forms) && ES.Readable(t.engine, number)
    ensures ES.Readable(s.engine, number) || number == t.engine.lastSequence
    ensures number <= t.engine.lastSequence
  {
    hide E.Insert, G.GroupAllowed, G.Concat, G.Acknowledged, E.FlushAllowed, E.OutputsOk, E.InstallEdit;
    hide BetweenBatches, G.Inv, E.Sound, G.Next;
  }

  lemma NextKeepsSoundEngine(s: State, t: State, step: Step, forms: Forms)
    requires E.Sound(s.engine) && Next(s, t, step, forms)
    ensures E.Sound(t.engine)
  {
    hide E.Next, E.Sound, G.Next;
    match step
    case InBackground(b) => ES.NextKeepsSound(s.engine, t.engine, b);
    case OfWriters(w) =>
      if w.ApplyNext? {
        var l := s.writers.leading.value;
        ES.NextKeepsSound(s.engine, t.engine, StepOf(l.updates[l.applied], forms));
      } else if w.Finish? {
        ES.NextKeepsSound(s.engine, t.engine, E.Publish);
      }
  }

  lemma NextKeepsInv(s: State, t: State, step: Step, forms: Forms)
    requires Inv(s, forms) && Next(s, t, step, forms)
    ensures Inv(t, forms)
  {
    hide E.Next, E.Sound, G.Inv, BetweenBatches, ES.Readable, Refines;
    NextKeepsRefines(s, t, step, forms);
    NextKeepsSoundEngine(s, t, step, forms);
    if step.OfWriters? {
      G.NextKeepsInv(s.writers, t.writers, step.step);
    }
    PublishedBetween(t.writers);
    SameNumber(t, forms);
    SameNumber(s, forms);
    forall number: nat | ES.Readable(t.engine, number)
      ensures number <= t.engine.lastSequence && BetweenBatches(t.writers, number)
    {
      NextKeepsReadable(s, t, step, forms, number);
      if number != t.engine.lastSequence {
        StaysBetween(s, t, step, forms, number);
      }
    }
  }

  lemma SameNumber(s: State, forms: Forms)
    requires Refines(s.writers, s.engine, forms)
    ensures s.engine.lastSequence == s.writers.lastSequence
  {
  }

  lemma StaysBetween(s: State, t: State, step: Step, forms: Forms, number: nat)
    requires Next(s, t, step, forms) && G.Inv(s.writers) && BetweenBatches(s.writers, number)
    requires number <= s.writers.lastSequence
    ensures BetweenBatches(t.writers, number)
  {
    hide E.Next, G.Inv, G.GroupAllowed, G.Acknowledged;
    if step.OfWriters? && step.step.Enqueue? {
      ArrivalKeepsBetween(s.writers, t.writers, step.step.writer, number);
    } else {
      assert t.writers.arrived == s.writers.arrived;
    }
  }

  lemma InitInv(s: State, forms: Forms)
    requires G.Init(s.writers) && E.Init(s.engine)
    ensures Inv(s, forms)
  {
    hide E.Sound, G.Inv;
    G.InitInv(s.writers);
    ES.InitInv(s.engine);
  }

  lemma {:induction false} RunKeepsInv(run: seq<State>, steps: seq<Step>, forms: Forms, i: nat)
    requires IsRun(run, steps, forms) && i < |run|
    ensures Inv(run[i], forms)
  {
    hide Inv, Next, E.Init, G.Init;
    if i == 0 {
      InitInv(run[0], forms);
    } else {
      RunKeepsInv(run, steps, forms, i - 1);
      NextKeepsInv(run[i - 1], run[i], steps[i - 1], forms);
    }
  }

  /** Whatever writers, flushes, compactions and snapshots do: a number that a reader can
      hold cuts no batch in two, and the engine holds exactly the updates of the arrived
      batches, in queue order, as far as they were applied. */
  lemma ReadersSeeBatchesWhole(run: seq<State>, steps: seq<Step>, forms: Forms, i: nat, t: nat)
    requires IsRun(run, steps, forms) && i < |run| && ES.Readable(run[i].engine, t)
    ensures BetweenBatches(run[i].writers, t)
    ensures run[i].engine.history == HistoryOf(run[i].writers.memtable, forms)
    ensures run[i].engine.lastSequence == run[i].writers.lastSequence
  {
    hide Next, E.Init, G.Init, BetweenBatches, G.Inv, E.Sound, ES.Readable;
    RunKeepsInv(run, steps, forms, i);
  }
}
