/** The database object, run without other threads: each call is one or more steps of
    the engine, and reads return what was written. */
module Db {
  import opened InternalKeys
  import opened Versions
  import opened VersionBuilder
  import opened Manifest
  import opened Compactions
  import opened CompactionInputs
  import opened CompactionStream
  import opened Engine
  import opened EngineInvariant
  import opened EngineStructure
  import opened EngineSafety

  /** One update of a write batch. */
  datatype Op = Op(user: UserKey, kind: ValueType, value: string)

  type Batch = seq<Op>

  function OpEntry(op: Op, s: nat): Entry {
    Entry(InternalKey(op.user, s, op.kind), op.value)
  }

  /** The entries a batch makes, numbered from `s` on. */
  ghost function BatchEntries(batch: Batch, s: nat): set<Entry> {
    set i | 0 <= i < |batch| :: OpEntry(batch[i], s + i)
  }

  /** What a batch does to the value of `u`: its last update of `u` counts. */
  function Outcome(batch: Batch, u: UserKey, before: Option<string>): Option<string> {
    if batch == [] then before
    else
      var last := batch[|batch| - 1];
      if last.user == u then (if last.kind.Value? then Some(last.value) else None)
      else Outcome(batch[..|batch| - 1], u, before)
  }

  lemma BatchSnoc(batch: Batch, i: nat, s: nat)
    requires i < |batch|
    ensures BatchEntries(batch[..i + 1], s) == BatchEntries(batch[..i], s) + {OpEntry(batch[i], s + i)}
  {
    var part := batch[..i + 1];
    forall e | e in BatchEntries(batch[..i], s)
      ensures e in BatchEntries(part, s)
    {
      var j :| 0 <= j < i && e == OpEntry(batch[..i][j], s + j);
      assert e == OpEntry(part[j], s + j);
    }
    assert OpEntry(part[i], s + i) in BatchEntries(part, s);
    forall e | e in BatchEntries(part, s)
      ensures e in BatchEntries(batch[..i], s) + {OpEntry(batch[i], s + i)}
    {
      var j :| 0 <= j <= i && e == OpEntry(part[j], s + j);
      assert j < i ==> e == OpEntry(batch[..i][j], s + j);
    }
  }

  /** Reading after a batch sees its outcome; readers of older numbers see no change. */
  lemma {:induction false} BatchView(H: set<Entry>, batch: Batch, s: nat, u: UserKey, t: nat)
    requires forall e :: e in H ==> e.key.sequence <= s
    requires OneEntryPerSequence(H)
    ensures OneEntryPerSequence(H + BatchEntries(batch, s + 1))
    ensures forall e :: e in H + BatchEntries(batch, s + 1) ==> e.key.sequence <= s + |batch|
    ensures Visible(H + BatchEntries(batch, s + 1), u, s + |batch|) == Outcome(batch, u, Visible(H, u, s))
    ensures t <= s ==> Visible(H + BatchEntries(batch, s + 1), u, t) == Visible(H, u, t)
  {
    hide Visible, BatchEntries, OneEntryPerSequence;
    if batch == [] {
      NoEntries(s + 1);
      assert H + BatchEntries([], s + 1) == H;
    } else {
      var k := |batch| - 1;
      var H1 := H + BatchEntries(batch[..k], s + 1);
      var e := OpEntry(batch[k], s + 1 + k);
      BatchView(H, batch[..k], s, u, t);
      BatchSnoc(batch, k, s + 1);
      assert batch[..k + 1] == batch;
      assert H + BatchEntries(batch, s + 1) == H1 + {e};
      DistinctWith(H1, e);
      SomeAreDistinct(H1, H1 + {e});
      if batch[k].user == u {
        VisibleIsNewest(H1 + {e}, u, s + |batch|, e);
      } else {
        SameCandidates(H1 + {e}, s + |batch|, H1, s + k, u);
      }
      if t <= s {
        SameCandidates(H1 + {e}, t, H1, t, u);
      }
    }
  }

  lemma NoEntries(s: nat)
    ensures BatchEntries([], s) == {}
  {
  }

  // ---------------------------------------------------------------- reading

  /** The memtables are searched before the levels. */
  lemma MemTablesFirst(s: State)
    requires Sound(s)
    ensures NewerThan(Elements(s.mem), Elements(ImmEntries(s)) + LevelEntries(s.levels))
    ensures NewerThan(Elements(ImmEntries(s)), LevelEntries(s.levels))
    ensures Distinct(Stored(s)) && Sorted(s.mem) && Sorted(ImmEntries(s))
    ensures LevelsOk(s.levels) && DistinctNumbers(s.levels[0])
  {
    hide RunningSound, LevelsSound, NumbersBelow, SnapshotsOk, Sorted;
    LevelCount(s);
    SomeAreDistinct(Stored(s), s.history);
  }

  /** An entry found in the first layer that has one is the answer. */
  lemma FoundInLayer(above: set<Entry>, layer: set<Entry>, below: set<Entry>, all: set<Entry>,
                     u: UserKey, t: nat, r: Option<Entry>)
    requires all == above + layer + below && Distinct(all)
    requires !HasCandidate(above, u, t) && IsLookup(layer, u, t, r) && NewerThan(layer, below)
    ensures r.Some? ==> Visible(all, u, t) == Meaning(r.value)
    ensures r.None? ==> !HasCandidate(above + layer, u, t)
    ensures r.None? && below == {} ==> Visible(all, u, t) == None
  {
    hide Visible, Distinct;
    FirstLayerWins(above, layer, below, u, t, r);
    if r.Some? {
      VisibleIsNewest(all, u, t, r.value);
    } else if below == {} {
      assert all == above + layer;
      VisibleWithoutCandidate(all, u, t);
    }
  }

  lemma FindIsLookup(entries: seq<Entry>, u: UserKey, t: nat)
    requires Sorted(entries)
    ensures IsLookup(Elements(entries), u, t, Find(entries, u, t))
  {
    FindIsNewest(entries, u, t);
  }

  // ---------------------------------------------------------------- compacting

  lemma {:induction false} OpenMany(s: State, t: State, n: nat)
    requires Sound(s) && s.running.Some?
    requires t == s.(nextFileNumber := s.nextFileNumber + n,
                     running := Some(s.running.value.(numbers :=
                       s.running.value.numbers + seq(n, i => s.nextFileNumber + i))))
    ensures Sound(t) && (Faithful(s) ==> Faithful(t))
    decreases n
  {
    hide Sound, Faithful;
    if n == 0 {
      assert s.running.value.numbers + [] == s.running.value.numbers;
      assert t == s;
    } else {
      var m := s.(nextFileNumber := s.nextFileNumber + (n - 1),
                  running := Some(s.running.value.(numbers :=
                    s.running.value.numbers + seq(n - 1, i => s.nextFileNumber + i))));
      OpenMany(s, m, n - 1);
      assert t.running.value.numbers == m.running.value.numbers + [m.nextFileNumber];
      StepKeeps(m, t, OpenOutput);
    }
  }

  function AfterCompaction(s: State, c: Inputs, outputs: Files): State {
    s.(nextFileNumber := s.nextFileNumber + |outputs|,
       floor := if SmallestSnapshot(s) > s.floor then SmallestSnapshot(s) else s.floor,
       levels := ApplyEdit(s.levels, InstallEdit(c, outputs)))
  }

  /** A whole compaction with nothing in between. */
  lemma CompactionKeeps(s: State, c: Inputs, input: seq<Entry>, outputs: Files)
    requires Sound(s) && s.running.None? && InputsOk(s.levels, c)
    requires IsMerged(input, c)
    requires Flatten(outputs) == Kept(input, |input|, SmallestSnapshot(s), s.levels, c.level)
    requires FilesOk(outputs) && Disjoint(outputs)
    requires forall i :: 0 <= i < |outputs| ==> outputs[i].number == s.nextFileNumber + i
    ensures Sound(AfterCompaction(s, c, outputs))
    ensures c.level + 1 < |s.levels|
    ensures Faithful(s) && BoundaryClosed(s.levels, c) ==> Faithful(AfterCompaction(s, c, outputs))
  {
    hide Sound, Faithful, InputsOk, BoundaryClosed, IsMerged, Kept, FilesOk, Disjoint, ApplyEdit, InstallEdit;
    InputsFit(s.levels, c);
    var n := |outputs|;
    var s1 := s.(running := Some(Running(c, SmallestSnapshot(s), s.levels, [])));
    StepKeeps(s, s1, StartCompaction(c));
    var s2 := s1.(nextFileNumber := s1.nextFileNumber + n,
                  running := Some(s1.running.value.(numbers := [] + seq(n, i => s1.nextFileNumber + i))));
    OpenMany(s1, s2, n);
    StepKeeps(s2, AfterCompaction(s, c, outputs), FinishCompaction(input, outputs));
  }

  /** What BackgroundCompaction is asked to do. */
  datatype Request =
    | Automatic(level: nat, picked: FileMetaData)
    | Manual(level: nat, begin: Option<UserKey>, end: Option<UserKey>)

  predicate RequestOk(levels: Levels, request: Request) {
    && request.level + 1 < |levels|
    && (request.Automatic? ==> request.picked in levels[request.level])
  }

  /** The inputs that a request leads to. */
  ghost predicate Answers(levels: Levels, request: Request, c: Inputs, maxFileSize: nat) {
    && InputsOk(levels, c) && c.level == request.level && c.level < |levels|
    && match request
       case Automatic(_, picked) => picked in c.upper && Covered(InputFiles(c))
       case Manual(_, begin, end) => TakesAsked(levels, c, begin, end, maxFileSize)
  }

  /** The immutable memtable is now a table, in the deepest level it may sink to. */
  ghost predicate TableWritten(s: State, t: State, maxFileSize: nat, fileSize: nat) {
    && s.imm.Some? && |s.levels| == NUM_LEVELS
    && if s.imm.value == [] then t == s.(imm := None, nextFileNumber := s.nextFileNumber + 1)
       else
         var f := TableOf(s.imm.value, s.nextFileNumber, fileSize);
         exists level ::
           && IsPickedLevel(s.levels, f.smallest.user, f.largest.user, maxFileSize, level)
           && t == s.(imm := None, nextFileNumber := s.nextFileNumber + 1,
                      levels := ApplyEdit(s.levels, FileEdit({}, [(level, f)])))
  }

  /** The survivors of the merged inputs have taken their place. */
  ghost predicate Compacted(s: State, t: State, c: Inputs) {
    exists input, outputs ::
      && IsMerged(input, c)
      && Flatten(outputs) == Kept(input, |input|, SmallestSnapshot(s), s.levels, c.level)
      && t == AfterCompaction(s, c, outputs)
  }

  const L0_STOP_WRITES_TRIGGER := 12

  class DBImpl {
    var mem: seq<Entry>
    var imm: Option<seq<Entry>>
    var levels: Levels
    var lastSequence: nat
    var snapshots: seq<nat>
    var nextFileNumber: nat
    ghost var history: set<Entry>
    ghost var floor: nat

    constructor ()
      ensures Valid() && ViewsKept() && history == {} && lastSequence == 0
    {
      mem, imm, levels := [], None, seq(NUM_LEVELS, _ => []);
      lastSequence, snapshots, nextFileNumber := 0, [], 2;
      history, floor := {}, 0;
      new;
      InitInv(Abs());
    }

    ghost function Abs(): State
      reads this
    {
      State(mem, imm, levels, lastSequence, 0, snapshots, nextFileNumber, None, history, floor)
    }

    /** Kept by every call, whatever is compacted. */
    ghost predicate Valid()
      reads this
    {
      Sound(Abs())
    }

    /** Kept by every call but a compaction that is not closed. */
    ghost predicate ViewsKept()
      reads this
    {
      Faithful(Abs())
    }

    /** The value of `u` at a held snapshot or, without one, now. In any case it was
        stored, and is found if anything was. */
    method Get(u: UserKey, snapshot: Option<nat>) returns (v: Option<string>)
      requires Valid()
      requires snapshot.Some? ==> snapshot.value in snapshots
      ensures
        var t := if snapshot.Some? then snapshot.value else lastSequence;
        && (ViewsKept() ==> v == Visible(history, u, t))
        && (if HasCandidate(Stored(Abs()), u, t) then exists e :: e in Stored(Abs()) && Candidate(e, u, t) && v == Meaning(e)
            else v == None)
    {
      hide Sound, Faithful, Visible, Stored, Distinct, LevelsOk, DistinctNumbers, Sorted, NewerThan;
      hide Newest, Recency, LevelEntries;
      var t := if snapshot.Some? then snapshot.value else lastSequence;
      ghost var s := Abs();
      MemTablesFirst(s);
      ghost var inMem, inImm, inLevels := Elements(mem), Elements(ImmEntries(s)), LevelEntries(levels);
      StoredLayers(s);
      FindIsLookup(mem, u, t);
      var r := Find(mem, u, t);
      NoCandidate(u, t);
      FoundInLayer({}, inMem, inImm + inLevels, Stored(s), u, t, r);
      if r.None? {
        if imm.Some? {
          r := Find(imm.value, u, t);
        }
        FindIsLookup(ImmEntries(s), u, t);
        EmptyFind(u, t);
        FoundInLayer({} + inMem, inImm, inLevels, Stored(s), u, t, r);
        if r.None? {
          r := Versions.Get(levels, u, t);
          NewerThanNothing(inLevels);
          if Recency(levels) {
            FoundInLayer({} + inMem + inImm, inLevels, {}, Stored(s), u, t, r);
          }
        }
      }
      v := if r.Some? then Meaning(r.value) else None;
      assert r.Some? ==> r.value in Stored(s) && Candidate(r.value, u, t);
      assert r.None? ==> !HasCandidate(Stored(s), u, t);
      if Faithful(s) {
        FaithfulParts(s, u, t);
      }
    }

    /** Applies a batch under the next sequence numbers and publishes it as a whole. */
    method Write(batch: Batch)
      requires Valid() && lastSequence + |batch| < MAX_SEQUENCE_NUMBER
      modifies this`mem, this`lastSequence, this`history
      ensures Valid() && (old(ViewsKept()) ==> ViewsKept())
      ensures lastSequence == old(lastSequence) + |batch|
      ensures history == old(history) + BatchEntries(batch, old(lastSequence) + 1)
      ensures forall u :: Visible(history, u, lastSequence) == Outcome(batch, u, old(Visible(history, u, lastSequence)))
      ensures forall u, t: nat :: t <= old(lastSequence) ==> Visible(history, u, t) == old(Visible(history, u, t))
    {
      hide Sound, Faithful, Visible, Insert, BatchEntries, OneEntryPerSequence;
      ghost var s0 := Abs();
      NoEntries(lastSequence + 1);
      for i := 0 to |batch|
        invariant Sound(Abs().(pending := i)) && (Faithful(s0) ==> Faithful(Abs().(pending := i)))
        invariant lastSequence == s0.lastSequence
        invariant history == s0.history + BatchEntries(batch[..i], lastSequence + 1)
      {
        ghost var s := Abs().(pending := i);
        var e := OpEntry(batch[i], lastSequence + 1 + i);
        mem := Insert(mem, e);
        history := history + {e};
        StepKeeps(s, Abs().(pending := i + 1), Apply(batch[i].user, batch[i].kind, batch[i].value));
        BatchSnoc(batch, i, lastSequence + 1);
      }
      ghost var s := Abs().(pending := |batch|);
      lastSequence := lastSequence + |batch|;
      StepKeeps(s, Abs(), Publish);
      assert batch[..|batch|] == batch;
      HistoryFacts(s0);
      forall u, t: nat
        ensures Visible(history, u, lastSequence) == Outcome(batch, u, Visible(s0.history, u, s0.lastSequence))
        ensures t <= s0.lastSequence ==> Visible(history, u, t) == Visible(s0.history, u, t)
      {
        BatchView(s0.history, batch, s0.lastSequence, u, t);
      }
    }

    method GetSnapshot() returns (snapshot: nat)
      requires Valid()
      modifies this`snapshots
      ensures Valid() && (old(ViewsKept()) ==> ViewsKept())
      ensures snapshot == lastSequence && snapshots == old(snapshots) + [snapshot]
    {
      ghost var s := Abs();
      hide Sound, Faithful;
      snapshot := lastSequence;
      snapshots := snapshots + [snapshot];
      StepKeeps(s, Abs(), NewSnapshot);
    }

    method ReleaseSnapshot(index: nat)
      requires Valid() && index < |snapshots|
      modifies this`snapshots
      ensures Valid() && (old(ViewsKept()) ==> ViewsKept())
      ensures snapshots == old(snapshots)[..index] + old(snapshots)[index + 1..]
    {
      hide Sound, Faithful;
      ghost var s := Abs();
      snapshots := snapshots[..index] + snapshots[index + 1..];
      StepKeeps(s, Abs(), Step.ReleaseSnapshot(index));
    }

    /** Waits until there is room in the memtable, or a new one can be begun. Each time
        it waits, the background thread has done what `background` says. Gives up when
        that list is used up, and then there still is something to wait for. */
    method MakeRoomForWrite(force0: bool, writeBufferSize: nat, usage: seq<Entry> -> nat,
                            background: seq<Levels -> Request>, maxFileSize: nat, sizes: nat -> nat)
      returns (ok: bool, ghost closed: bool)
      requires Valid()
      modifies this`mem, this`imm, this`levels, this`nextFileNumber, this`floor
      ensures Valid() && (old(ViewsKept()) && closed ==> ViewsKept())
      ensures mem == old(mem) || (mem == [] && (force0 || usage(old(mem)) > writeBufferSize))
      ensures !force0 && usage(old(mem)) <= writeBufferSize ==> ok && Abs() == old(Abs())
      ensures ok ==> usage(mem) <= writeBufferSize
      ensures ok && (force0 || usage(old(mem)) > writeBufferSize) ==>
        && mem == []
        && (usage([]) <= writeBufferSize ==> imm == Some(old(mem)) && |levels| > 0 && |levels[0]| < L0_STOP_WRITES_TRIGGER)
      ensures !ok ==> imm.Some? || (|levels| > 0 && |levels[0]| >= L0_STOP_WRITES_TRIGGER)
    {
      hide Sound, Faithful;
      var force, waits := force0, 0;
      ghost var switched := false;
      closed := true;
      while force || usage(mem) > writeBufferSize
        invariant Valid() && (old(ViewsKept()) && closed ==> ViewsKept()) && waits <= |background|
        invariant !switched ==> mem == old(mem) && force == force0 && (waits == 0 ==> Abs() == old(Abs()))
        invariant switched ==> mem == [] && !force && (force0 || usage(old(mem)) > writeBufferSize)
        invariant switched && usage([]) <= writeBufferSize ==>
          imm == Some(old(mem)) && |levels| > 0 && |levels[0]| < L0_STOP_WRITES_TRIGGER
        invariant !switched && waits > 0 ==> force0 || usage(old(mem)) > writeBufferSize
        decreases |background| - waits, imm.None?
      {
        ghost var s := Abs();
        LevelCount(s);
        if imm.Some? || |levels[0]| >= L0_STOP_WRITES_TRIGGER {
          if waits == |background| {
            return false, closed;
          }
          var request := background[waits](levels);
          waits := waits + 1;
          if RequestOk(levels, request) {
            ghost var c := BackgroundCompaction(request, maxFileSize, sizes);
            closed := closed && (c.None? || BoundaryClosed(s.levels, c.value));
          }
        } else {
          imm, mem, nextFileNumber := Some(mem), [], nextFileNumber + 1;
          StepKeeps(s, Abs(), SwitchMemTable);
          force, switched := false, true;
        }
      }
      ok := true;
    }

    /** Writes the immutable memtable to a table, in the deepest level it may sink to. */
    method CompactMemTable(maxFileSize: nat, fileSize: nat)
      requires Valid() && imm.Some?
      modifies this`imm, this`levels, this`nextFileNumber
      ensures Valid() && (old(ViewsKept()) ==> ViewsKept())
      ensures TableWritten(old(Abs()), Abs(), maxFileSize, fileSize)
    {
      hide Sound, Faithful, ApplyEdit, NoneOverlaps, LevelsOk, AllOrdered, Sorted;
      ghost var s := Abs();
      LevelCount(s);
      var table := imm.value;
      var number := nextFileNumber;
      nextFileNumber := nextFileNumber + 1;
      var level, edit := 0, FileEdit({}, []);
      if table != [] {
        ImmRange(s);
        var f := TableOf(table, number, fileSize);
        level := PickLevelForMemTableOutput(levels, f.smallest.user, f.largest.user, maxFileSize);
        edit := FileEdit({}, [(level, f)]);
      } else {
        EmptyEditApplies(levels);
      }
      levels := ApplyToVersion(levels, edit);
      imm := None;
      StepKeeps(s, Abs(), Flush(level, fileSize));
    }

    /** Merges the inputs and puts the survivors into the next level. The code does
        not check that no file continuing an input is left behind, which views need. */
    method CompactInputs(c: Inputs, grandparents: Files, maxFileSize: nat, sizes: nat -> nat)
      returns (ghost input: seq<Entry>, outputs: Files)
      requires Valid() && InputsOk(levels, c)
      modifies this`levels, this`nextFileNumber, this`floor
      ensures IsMerged(input, c)
      ensures Flatten(outputs) == Kept(input, |input|, SmallestSnapshot(old(Abs())), old(levels), c.level)
      ensures levels == ApplyEdit(old(levels), InstallEdit(c, outputs))
      ensures Abs() == AfterCompaction(old(Abs()), c, outputs)
      ensures Valid() && c.level + 1 < |old(levels)|
      ensures old(ViewsKept()) && BoundaryClosed(old(levels), c) ==> ViewsKept()
    {
      hide Sound, Faithful, InputsOk, BoundaryClosed, IsMerged, Kept, FilesOk, Disjoint, ApplyEdit, InstallEdit, LevelsOk, StreamOk;
      hide Sorted, Bounded;
      ghost var s := Abs();
      LevelCount(s);
      SnapshotsBelowMax(s);
      var smallestSnapshot := if snapshots == [] then lastSequence else snapshots[0];
      InputsStream(s, c);
      var merged := ReadMerged(levels, c);
      input := merged;
      MergedIsBounded(s, c, merged);
      InputsLevelFits(s, c);
      var compaction := new Compaction(c.level, levels, grandparents, maxFileSize);
      var first := nextFileNumber;
      var numbers := seq(|merged|, i requires i >= 0 => first + i);
      outputs := DoCompactionWork(compaction, merged, smallestSnapshot, numbers,
                                  seq(|merged|, i requires i >= 0 => sizes(i)));
      nextFileNumber := nextFileNumber + |outputs|;
      InstallInRange(s.levels, c, outputs);
      levels := ApplyToVersion(levels, InstallEdit(c, outputs));
      floor := if SmallestSnapshot(s) > floor then SmallestSnapshot(s) else floor;
      CompactionKeeps(s, c, merged, outputs);
      assert Abs() == AfterCompaction(s, c, outputs);
    }

    /** A waiting memtable goes first; then the requested compaction is a trivial move
        or is carried out. `c` is what was chosen, if anything. */
    method BackgroundCompaction(request: Request, maxFileSize: nat, sizes: nat -> nat)
      returns (ghost c: Option<Inputs>)
      requires Valid() && RequestOk(levels, request)
      modifies this`imm, this`levels, this`nextFileNumber, this`floor
      ensures Valid()
      ensures old(imm).Some? ==> c.None? && TableWritten(old(Abs()), Abs(), maxFileSize, sizes(0))
      ensures old(imm).None? && c.None? ==> Abs() == old(Abs())
      ensures old(imm).None? ==>
        (c.None? <==> request.Manual? && forall f :: f in old(levels)[request.level] ==> !Overlaps(f, request.begin, request.end))
      ensures c.Some? ==> Answers(old(levels), request, c.value, maxFileSize)
      ensures c.Some? && request.Automatic? && IsTrivialMove(old(levels), c.value, maxFileSize) ==>
        Abs() == old(Abs()).(levels := ApplyEdit(old(levels), InstallEdit(c.value, c.value.upper)))
      ensures c.Some? && !(request.Automatic? && IsTrivialMove(old(levels), c.value, maxFileSize)) ==>
        Compacted(old(Abs()), Abs(), c.value)
      ensures c.Some? ==> c.value.level + 1 < |old(levels)|
      ensures old(ViewsKept()) && (c.None? || BoundaryClosed(old(levels), c.value)) ==> ViewsKept()
    {
      hide Sound, Faithful, InputsOk, BoundaryClosed, ApplyEdit, InstallEdit, LevelsOk, Covered, AllOrdered;
      ghost var s := Abs();
      LevelCount(s);
      if imm.Some? {
        CompactMemTable(maxFileSize, sizes(0));
        return None;
      }
      var inputs, grandparents;
      if request.Manual? {
        var r := CompactRange(levels, request.level, request.begin, request.end, maxFileSize);
        if r.None? {
          return None;
        }
        inputs, grandparents := r.value.0, r.value.1;
      } else {
        inputs, grandparents := PickCompaction(levels, request.level, request.picked, maxFileSize);
      }
      c := Some(inputs);
      GrandparentsUnique(levels, inputs, grandparents);
      if !request.Manual? && |inputs.upper| == 1 && |inputs.lower| == 0
         && TotalFileSize(grandparents) <= 10 * maxFileSize {
        InstallInRange(s.levels, inputs, inputs.upper);
        levels := ApplyToVersion(levels, InstallEdit(inputs, inputs.upper));
        StepKeeps(s, Abs(), TrivialMove(inputs));
      } else {
        ghost var input;
        var outputs;
        input, outputs := CompactInputs(inputs, grandparents, maxFileSize, sizes);
      }
    }
  }

  // ---------------------------------------------------------------- what the invariant says to the methods

  lemma FaithfulParts(s: State, u: UserKey, t: nat)
    requires Sound(s) && Faithful(s) && (t == s.lastSequence || t in s.snapshots)
    ensures Recency(s.levels) && Visible(Stored(s), u, t) == Visible(s.history, u, t)
  {
    hide LevelsSound, MemTablesOk, HistoryOk, RunningSound, Visible, Stored, NumbersBelow, Recency;
  }

  lemma StoredLayers(s: State)
    ensures Stored(s) == {} + Elements(s.mem) + (Elements(ImmEntries(s)) + LevelEntries(s.levels))
    ensures Stored(s) == ({} + Elements(s.mem)) + Elements(ImmEntries(s)) + LevelEntries(s.levels)
    ensures Stored(s) == ({} + Elements(s.mem) + Elements(ImmEntries(s))) + LevelEntries(s.levels) + {}
  {
    hide LevelEntries;
  }

  lemma NoCandidate(u: UserKey, t: nat)
    ensures !HasCandidate({}, u, t)
  {
  }

  lemma EmptyFind(u: UserKey, t: nat)
    ensures Find([], u, t) == None
  {
  }

  lemma NewerThanNothing(S: set<Entry>)
    ensures NewerThan(S, {})
  {
  }

  lemma HistoryFacts(s: State)
    requires Sound(s) && s.pending == 0
    ensures OneEntryPerSequence(s.history) && forall e :: e in s.history ==> e.key.sequence <= s.lastSequence
  {
    hide LevelsSound, MemTablesOk, RunningSound, Stored, NumbersBelow;
  }

  lemma ImmRange(s: State)
    requires Sound(s) && s.imm.Some? && s.imm.value != []
    ensures s.imm.value[0].key.user <= s.imm.value[|s.imm.value| - 1].key.user
  {
    hide LevelsSound, HistoryOk, SnapshotsOk, RunningSound, AllNewer, NumbersBelow;
    assert Sorted(s.imm.value);
  }

  lemma SnapshotsBelowMax(s: State)
    requires Sound(s)
    ensures SmallestSnapshot(s) < MAX_SEQUENCE_NUMBER
  {
    hide LevelsSound, MemTablesOk, RunningSound, Stored, NumbersBelow, OneEntryPerSequence;
  }

  lemma InputsStream(s: State, c: Inputs)
    requires Sound(s) && InputsOk(s.levels, c)
    ensures StreamOk(s.levels, c)
  {
    hide LevelsSound, MemTablesOk, RunningSound, NumbersBelow, OneEntryPerSequence, InputsOk, SnapshotsOk;
    SubsetOnePerSequence(LevelEntries(s.levels), s.history);
  }

  lemma MergedIsBounded(s: State, c: Inputs, input: seq<Entry>)
    requires Sound(s) && StreamOk(s.levels, c) && IsMerged(input, c)
    ensures Sorted(input) && Bounded(input)
  {
    hide LevelsSound, MemTablesOk, RunningSound, NumbersBelow, OneEntryPerSequence, InputsOk, SnapshotsOk, Sorted;
    hide StreamOk;
    InputsAreStored(s.levels, c);
    forall e | e in input
      ensures e.key.sequence <= MAX_SEQUENCE_NUMBER
    {
      assert e in Elements(input) && e in Stored(s);
    }
  }

  lemma InputsLevelFits(s: State, c: Inputs)
    requires Sound(s) && InputsOk(s.levels, c)
    ensures c.level + 1 < NUM_LEVELS
  {
    LevelCount(s);
    hide Sound, LevelsOk;
  }

  lemma InstallInRange(levels: Levels, c: Inputs, outputs: Files)
    requires |levels| == NUM_LEVELS && InputsOk(levels, c)
    ensures LevelsInRange(InstallEdit(c, outputs))
  {
  }
}
