/** What every step of every run keeps, whatever is compacted: levels of sorted disjoint
    files, no entry twice, numbers and memtables in order. */
module EngineStructure {
  import opened InternalKeys
  import opened Versions
  import opened VersionBuilder
  import opened Compactions
  import opened CompactionInputs
  import opened Engine
  import opened EngineInvariant

  // ---------------------------------------------------------------- writing

  lemma InsertSorted(mem: seq<Entry>, e: Entry)
    requires Sorted(mem) && forall x :: x in mem ==> x.key.sequence != e.key.sequence
    ensures Sorted(Insert(mem, e))
  {
    hide Less;
    var i := SeekIndex(mem, e.key);
    forall j | i <= j < |mem|
      ensures Less(e.key, mem[j].key)
    {
      assert mem[i] in mem;
      LessFollows(e.key, mem[i].key, mem[j].key);
    }
    SplicedSorted(mem, i, e);
  }

  lemma SplicedSorted(mem: seq<Entry>, i: nat, e: Entry)
    requires Sorted(mem) && i <= |mem|
    requires forall j :: 0 <= j < i ==> Less(mem[j].key, e.key)
    requires forall j :: i <= j < |mem| ==> Less(e.key, mem[j].key)
    ensures Sorted(mem[..i] + [e] + mem[i..])
  {
    hide Less;
    var r := mem[..i] + [e] + mem[i..];
    assert forall j :: 0 <= j < |r| ==> r[j] == if j < i then mem[j] else if j == i then e else mem[j - 1];
  }

  lemma LessFollows(k: InternalKey, a: InternalKey, b: InternalKey)
    requires !Less(a, k) && a.sequence != k.sequence && (a == b || Less(a, b))
    ensures Less(k, b)
  {
  }

  lemma InsertElements(mem: seq<Entry>, e: Entry)
    ensures Elements(Insert(mem, e)) == Elements(mem) + {e}
  {
    var i := SeekIndex(mem, e.key);
    assert mem == mem[..i] + mem[i..];
  }

  lemma DistinctWith(H: set<Entry>, e: Entry)
    requires OneEntryPerSequence(H) && forall x :: x in H ==> x.key.sequence < e.key.sequence
    ensures Distinct(H + {e}) && OneEntryPerSequence(H + {e})
  {
  }

  /** Entries of different numbers are different entries of a key. */
  lemma SomeAreDistinct(S: set<Entry>, H: set<Entry>)
    requires OneEntryPerSequence(H) && S <= H
    ensures Distinct(S)
  {
    SubsetIsDistinct(S, H);
  }

  /** A new entry is newer than all that is stored. */
  lemma NewEntryIsNewest(s: State, e: Entry)
    requires HistoryOk(s) && e.key.sequence == s.lastSequence + s.pending + 1
    ensures AllNewer({e}, Elements(s.mem)) && AllNewer({e}, Elements(ImmEntries(s))) && AllNewer({e}, LevelEntries(s.levels))
    ensures forall x :: x in s.history ==> x.key.sequence < e.key.sequence
  {
    hide OneEntryPerSequence, LevelEntries;
    assert forall x :: x in Stored(s) ==> x in s.history;
  }

  lemma ApplyKeepsMemTables(s: State, t: State, e: Entry)
    requires MemTablesOk(s) && HistoryOk(s) && e.key.sequence == s.lastSequence + s.pending + 1
    requires t.mem == Insert(s.mem, e) && t.imm == s.imm && t.levels == s.levels
    ensures MemTablesOk(t) && Stored(t) == Stored(s) + {e}
  {
    hide HistoryOk, Sorted, LevelEntries, Insert;
    NewEntryIsNewest(s, e);
    assert forall x :: x in s.mem ==> x in Elements(s.mem);
    InsertSorted(s.mem, e);
    InsertElements(s.mem, e);
    assert Stored(t) == Stored(s) + {e};
  }

  lemma ApplyKeepsSound(s: State, t: State, step: Step)
    requires Sound(s) && step.Apply? && Next(s, t, step)
    ensures Sound(t) && Stored(t) == Stored(s) + {NewEntry(s, step.user, step.kind, step.value)}
  {
    hide LevelsSound, NumbersBelow, MemTablesOk, RunningSound, LevelEntries, Distinct, Insert, OneEntryPerSequence, Stored;
    var e := NewEntry(s, step.user, step.kind, step.value);
    ApplyKeepsMemTables(s, t, e);
    NewEntryIsNewest(s, e);
    DistinctWith(s.history, e);
    UnchangedRunning(s, t);
  }

  lemma SwitchKeepsSound(s: State, t: State, step: Step)
    requires Sound(s) && step.SwitchMemTable? && Next(s, t, step)
    ensures Sound(t) && Stored(t) == Stored(s)
  {
    hide LevelsSound, LevelEntries;
    assert Stored(t) == Stored(s);
    UnchangedRunning(s, t);
  }

  // ---------------------------------------------------------------- flushing

  lemma TableOfOk(s: State, number: nat, size: nat)
    requires Sound(s) && s.imm.Some? && s.imm.value != []
    ensures FileOk(TableOf(s.imm.value, number, size))
  {
    forall e | e in s.imm.value
      ensures e.key.sequence <= MAX_SEQUENCE_NUMBER
    {
      assert e in Stored(s);
    }
  }

  lemma SoundParts(s: State)
    requires Sound(s)
    ensures LevelsSound(s.levels) && NumbersBelow(s.levels, s.nextFileNumber)
    ensures AllNewer(Elements(s.mem), LevelEntries(s.levels)) && AllNewer(Elements(ImmEntries(s)), LevelEntries(s.levels))
    ensures AllNewer(Elements(s.mem), Elements(ImmEntries(s)))
    ensures OneEntryPerSequence(s.history) && Stored(s) <= s.history
    ensures s.running.Some? ==> RunningSound(s, s.running.value)
  {
  }

  /** A step that only moves or drops entries keeps the state in order. */
  lemma RearrangeKeepsSound(s: State, t: State)
    requires Sound(s)
    requires LevelsSound(t.levels) && NumbersBelow(t.levels, t.nextFileNumber)
    requires t.mem == s.mem && (t.imm == s.imm || t.imm.None?)
    requires AllNewer(Elements(t.mem), Elements(ImmEntries(t)))
    requires AllNewer(Elements(t.mem), LevelEntries(t.levels))
    requires AllNewer(Elements(ImmEntries(t)), LevelEntries(t.levels))
    requires Stored(t) <= Stored(s) && t.floor <= t.lastSequence
    requires t.history == s.history && t.lastSequence == s.lastSequence && t.pending == s.pending
    requires t.snapshots == s.snapshots
    requires forall i :: 0 <= i < |t.snapshots| ==> t.floor <= t.snapshots[i]
    requires t.running.Some? ==> RunningSound(t, t.running.value)
    ensures Sound(t)
  {
    hide LevelsSound, NumbersBelow, RunningSound, AllNewer, Stored, LevelEntries;
  }

  lemma FlushStepKeepsSound(s: State, t: State, step: Step)
    requires Sound(s) && step.Flush? && Next(s, t, step)
    ensures Sound(t) && Stored(t) == Stored(s)
  {
    hide LevelsSound, NumbersBelow, RunningSound, Sorted, LevelEntries, FileOk, FlushPlaced;
    if s.imm.value == [] {
      assert Stored(t) == Stored(s);
      UnchangedRunning(s, t);
      NumbersGrow(s.levels, s.nextFileNumber, t.nextFileNumber);
      RearrangeKeepsSound(s, t);
    } else {
      FlushTableKeepsSound(s, t, step.level, step.fileSize);
    }
  }

  lemma UnchangedRunning(s: State, t: State)
    requires s.running.Some? ==> RunningSound(s, s.running.value)
    requires t.running == s.running && t.levels == s.levels && s.lastSequence <= t.lastSequence
    requires forall i :: 0 <= i < |t.snapshots| ==> t.snapshots[i] in s.snapshots || t.snapshots[i] == s.lastSequence
    requires s.nextFileNumber <= t.nextFileNumber
    ensures t.running.Some? ==> RunningSound(t, t.running.value)
  {
    hide LevelsOk, InputsIn, OutputLevelClear, DeeperKnown;
  }

  lemma FlushTableKeepsSound(s: State, t: State, level: nat, fileSize: nat)
    requires Sound(s) && Next(s, t, Flush(level, fileSize)) && s.imm.value != []
    ensures Sound(t) && Stored(t) == Stored(s)
  {
    hide LevelsSound, NumbersBelow, RunningSound, Sorted, LevelEntries, FileOk, Newer, Flushed;
    var f := TableOf(s.imm.value, s.nextFileNumber, fileSize);
    TableOfOk(s, s.nextFileNumber, fileSize);
    SoundParts(s);
    SoundLevels(s.levels);
    FlushMembers(s.levels, f, level);
    FlushKeepsSound(s.levels, t.levels, f, level);
    FlushKeepsNumbers(s.levels, t.levels, f, level);
    assert Stored(t) == Stored(s);
    if s.running.Some? {
      FlushKeepsRunning(s, t, f, level);
    }
    RearrangeKeepsSound(s, t);
  }

  lemma SoundLevels(levels: Levels)
    requires LevelsSound(levels)
    ensures LevelsOk(levels) && AllOrdered(levels) && UniqueNumbers(levels) && FilesApart(levels)
  {
  }

  lemma FlushKeepsNumbers(levels: Levels, after: Levels, f: FileMetaData, m: nat)
    requires LevelsSound(levels) && NumbersBelow(levels, f.number) && Flushed(levels, after, f, m)
    ensures NumbersBelow(after, f.number + 1)
  {
    FlushKeepsUnique(levels, after, f, m);
  }

  // ---------------------------------------------------------------- compacting

  /** Inputs chosen by the code are files of the version, and leave a clear output
      level. */
  lemma ChosenInputsIn(levels: Levels, c: Inputs)
    requires LevelsOk(levels) && InputsOk(levels, c)
    ensures InputsIn(levels, c)
  {
    hide TakesAll;
  }

  lemma ChosenInputsClear(levels: Levels, c: Inputs)
    requires LevelsSound(levels) && InputsOk(levels, c)
    ensures OutputLevelClear(levels, c)
  {
    hide IsUserRange, TakesAll, ClearOf, UniqueNumbers, FilesApart, Overlapping, FilesOk, Disjoint, Ordered;
    forall f | f in levels[c.level + 1] && f !in c.lower
      ensures ClearOf(f, InputFiles(c))
    {
      OtherIsClear(levels, c, f);
    }
  }

  lemma OtherIsClear(levels: Levels, c: Inputs, f: FileMetaData)
    requires LevelsOk(levels) && AllOrdered(levels) && InputsOk(levels, c)
    requires f in levels[c.level + 1] && f !in c.lower
    ensures ClearOf(f, InputFiles(c))
  {
    assert !Overlaps(f, Some(c.lo), Some(c.hi));
    ApartIsDisjoint(levels[c.level + 1]);
    EntryInRange(f, f.entries[0]);
    if f.largest.user < c.lo {
      forall g | g in InputFiles(c)
        ensures Less(f.largest, g.smallest)
      {
        if g !in c.upper {
          assert Apart(f, g);
        }
      }
    } else {
      forall g | g in InputFiles(c)
        ensures Less(g.largest, f.smallest)
      {
        if g !in c.upper {
          assert Apart(f, g);
        }
      }
    }
  }

  lemma LevelsDistinct(s: State)
    requires Sound(s)
    ensures Distinct(LevelEntries(s.levels)) && OneEntryPerSequence(LevelEntries(s.levels))
  {
    hide LevelsSound, MemTablesOk, RunningSound, NumbersBelow, SnapshotsOk;
    SomeAreDistinct(LevelEntries(s.levels), s.history);
  }

  lemma StartKeepsSound(s: State, t: State, step: Step)
    requires Sound(s) && step.StartCompaction? && Next(s, t, step)
    ensures Sound(t) && Stored(t) == Stored(s)
  {
    hide LevelsSound, NumbersBelow, Sorted, LevelEntries, InputsIn, OutputLevelClear;
    SoundParts(s);
    SoundLevels(s.levels);
    ChosenInputsIn(s.levels, step.inputs);
    ChosenInputsClear(s.levels, step.inputs);
    assert Stored(t) == Stored(s);
  }

  /** Every stored entry is in a memtable, in a file that stays, or in an input. */
  lemma StoredSplit(s: State, c: Inputs)
    requires InputsIn(s.levels, c)
    ensures Stored(s) == Elements(s.mem) + Elements(ImmEntries(s)) + RestEntries(s.levels, c) + EntriesOf(InputFiles(c))
  {
    var rest := RestEntries(s.levels, c);
    forall e | e in LevelEntries(s.levels)
      ensures e in rest + EntriesOf(InputFiles(c))
    {
      var l :| 0 <= l < |s.levels| && e in EntriesOf(s.levels[l]);
      var f: FileMetaData :| f in s.levels[l] && e in f.entries;
      assert IsInput(c, l, f) ==> f in InputFiles(c);
    }
    forall e | e in rest
      ensures e in LevelEntries(s.levels)
    {
      var l, f :| 0 <= l < |s.levels| && f in s.levels[l] && !IsInput(c, l, f) && e in f.entries;
      assert e in EntriesOf(s.levels[l]);
    }
    forall e | e in EntriesOf(InputFiles(c))
      ensures e in LevelEntries(s.levels)
    {
      var f :| f in InputFiles(c) && e in f.entries;
      assert f in c.upper ==> e in EntriesOf(s.levels[c.level]);
      assert f in c.lower ==> e in EntriesOf(s.levels[c.level + 1]);
    }
  }

  lemma KeptSubset(input: seq<Entry>, smallest: nat, levels: Levels, level: nat)
    ensures Elements(Kept(input, |input|, smallest, levels, level)) <= Elements(input)
  {
    KeptElements(input, |input|, smallest, levels, level);
  }

  lemma RunningParts(s: State, r: Running)
    requires RunningSound(s, r)
    ensures InputsIn(s.levels, r.inputs) && OutputLevelClear(s.levels, r.inputs)
    ensures forall i :: 0 <= i < |r.numbers| ==> r.numbers[i] < s.nextFileNumber
  {
  }

  lemma OutputsInstallOk(s: State, r: Running, input: seq<Entry>, outputs: Files)
    requires RunningSound(s, r) && OutputsOk(r, input, outputs)
    ensures InstallOk(s.levels, r.inputs, outputs)
    ensures EntriesOf(outputs) == Elements(Kept(input, |input|, r.smallestSnapshot, r.base, r.inputs.level))
  {
    FlattenEntries(outputs);
    KeptElements(input, |input|, r.smallestSnapshot, r.base, r.inputs.level);
    forall e | e in EntriesOf(outputs)
      ensures e in EntriesOf(InputFiles(r.inputs))
    {
      assert e in Elements(input);
    }
  }

  lemma OutputsSubset(levels: Levels, c: Inputs, outputs: Files)
    requires InstallOk(levels, c, outputs)
    ensures EntriesOf(outputs) <= EntriesOf(InputFiles(c))
  {
  }

  lemma SnapshotBounds(s: State, r: Running)
    requires Sound(s) && s.running == Some(r)
    ensures r.smallestSnapshot <= s.lastSequence
    ensures forall i :: 0 <= i < |s.snapshots| ==> r.smallestSnapshot <= s.snapshots[i]
    ensures Sorted(s.mem) && Sorted(ImmEntries(s))
  {
  }

  lemma InstallShrinks(levels: Levels, after: Levels, c: Inputs, outputs: Files)
    requires InputsIn(levels, c) && EntriesOf(outputs) <= EntriesOf(InputFiles(c))
    requires LevelEntries(after) == RestEntries(levels, c) + EntriesOf(outputs)
    ensures LevelEntries(after) <= LevelEntries(levels)
  {
    forall e | e in EntriesOf(InputFiles(c))
      ensures e in LevelEntries(levels)
    {
      var f :| f in InputFiles(c) && e in f.entries;
      assert f in c.upper ==> e in EntriesOf(levels[c.level]);
      assert f in c.lower ==> e in EntriesOf(levels[c.level + 1]);
    }
    forall e | e in RestEntries(levels, c)
      ensures e in LevelEntries(levels)
    {
      var l, f :| 0 <= l < |levels| && f in levels[l] && !IsInput(c, l, f) && e in f.entries;
      assert e in EntriesOf(levels[l]);
    }
  }

  lemma InstallKeepsNumbers(levels: Levels, after: Levels, c: Inputs, outputs: Files, n: nat)
    requires NumbersBelow(levels, n) && Installed(levels, after, c, outputs)
    requires forall o :: o in outputs ==> o.number < n
    ensures NumbersBelow(after, n)
  {
    assert forall l, f :: 0 <= l < |after| && f in after[l] ==> StaysOrEnters(levels, c, outputs, l, f);
  }

  lemma FinishKeepsSound(s: State, t: State, step: Step)
    requires Sound(s) && step.FinishCompaction? && Next(s, t, step)
    ensures Sound(t) && Stored(t) <= Stored(s)
    ensures LevelEntries(t.levels) == RestEntries(s.levels, s.running.value.inputs) + EntriesOf(step.outputs)
  {
    hide LevelsSound, NumbersBelow, RunningSound, Sorted, LevelEntries, RestEntries, InstallOk, Installed;
    hide OutputLevelClear, Kept, FileOk, Disjoint, ApplyEdit, InstallEdit, IsMerged;
    var r := s.running.value;
    SoundParts(s);
    RunningParts(s, r);
    SnapshotBounds(s, r);
    OutputsInstallOk(s, r, step.input, step.outputs);
    InstallMembers(s.levels, r.inputs, step.outputs);
    InstallKeepsSound(s.levels, t.levels, r.inputs, step.outputs);
    InstallKeepsNumbers(s.levels, t.levels, r.inputs, step.outputs, s.nextFileNumber);
    OutputsSubset(s.levels, r.inputs, step.outputs);
    InstallShrinks(s.levels, t.levels, r.inputs, step.outputs);
    RearrangeKeepsSound(s, t);
  }

  lemma MoveKeepsSound(s: State, t: State, step: Step)
    requires Sound(s) && step.TrivialMove? && Next(s, t, step)
    ensures Sound(t) && Stored(t) == Stored(s)
  {
    hide LevelsSound, NumbersBelow, RunningSound, LevelEntries, RestEntries, Installed;
    hide OutputLevelClear, FileOk, ApplyEdit, InstallEdit;
    var c := step.move;
    SoundParts(s);
    SoundLevels(s.levels);
    ChosenInputsIn(s.levels, c);
    ChosenInputsClear(s.levels, c);
    MoveInstallOk(s.levels, c);
    InstallMembers(s.levels, c, c.upper);
    InstallKeepsSound(s.levels, t.levels, c, c.upper);
    InstallKeepsNumbers(s.levels, t.levels, c, c.upper, s.nextFileNumber);
    StoredSplit(s, c);
    assert InputFiles(c) == c.upper;
    assert Stored(t) == Stored(s);
    InstallShrinks(s.levels, t.levels, c, c.upper);
    RearrangeKeepsSound(s, t);
  }

  lemma MoveInstallOk(levels: Levels, c: Inputs)
    requires LevelsSound(levels) && InputsIn(levels, c) && |c.upper| == 1 && c.lower == []
    ensures InstallOk(levels, c, c.upper)
  {
    assert InputFiles(c) == c.upper;
  }

  /** The levels of a good state: seven, in good order, without a number twice. */
  lemma LevelCount(s: State)
    requires Sound(s)
    ensures |s.levels| == NUM_LEVELS && LevelsOk(s.levels) && AllOrdered(s.levels)
    ensures forall l :: 0 <= l < NUM_LEVELS ==> DistinctNumbers(s.levels[l])
  {
    hide MemTablesOk, HistoryOk, SnapshotsOk, RunningSound, FilesOk, Disjoint, NumbersBelow, FilesApart;
    forall l, i, j | 0 <= l < NUM_LEVELS && 0 <= i < j < |s.levels[l]|
      ensures s.levels[l][i].number != s.levels[l][j].number
    {
      OrderedIsDistinct(s.levels[l], i, j);
    }
  }

  lemma OrderedIsDistinct(files: Files, i: nat, j: nat)
    requires Ordered(files) && i < j < |files|
    ensures files[i] != files[j] && files[i] in files && files[j] in files
  {
  }

  // ---------------------------------------------------------------- all steps, all runs

  /** Steps that move no entry. */
  lemma QuietKeepsSound(s: State, t: State, step: Step)
    requires Sound(s) && Next(s, t, step)
    requires step.Publish? || step.NewSnapshot? || step.ReleaseSnapshot? || step.OpenOutput?
    ensures Sound(t) && Stored(t) == Stored(s)
  {
    hide LevelsSound, NumbersBelow, LevelsOk, InputsIn, OutputLevelClear, DeeperKnown, Sorted, LevelEntries, AllNewer;
    SoundParts(s);
    NumbersGrow(s.levels, s.nextFileNumber, t.nextFileNumber);
    assert Stored(t) == Stored(s);
    if step.OpenOutput? {
      OpenKeepsRunning(s, t);
    }
  }

  lemma NumbersGrow(levels: Levels, n: nat, m: nat)
    requires NumbersBelow(levels, n) && n <= m
    ensures NumbersBelow(levels, m)
  {
  }

  lemma OpenKeepsRunning(s: State, t: State)
    requires Sound(s) && Next(s, t, OpenOutput)
    ensures RunningSound(t, t.running.value)
  {
    hide LevelsSound, LevelsOk, InputsIn, OutputLevelClear, Stored;
  }

  lemma NextKeepsSound(s: State, t: State, step: Step)
    requires Sound(s) && Next(s, t, step)
    ensures Sound(t)
  {
    hide Sound, Next;
    match step
    case Apply(_, _, _) => ApplyKeepsSound(s, t, step);
    case Publish => QuietKeepsSound(s, t, step);
    case SwitchMemTable => SwitchKeepsSound(s, t, step);
    case Flush(_, _) => FlushStepKeepsSound(s, t, step);
    case NewSnapshot => QuietKeepsSound(s, t, step);
    case ReleaseSnapshot(_) => QuietKeepsSound(s, t, step);
    case StartCompaction(_) => StartKeepsSound(s, t, step);
    case OpenOutput => QuietKeepsSound(s, t, step);
    case FinishCompaction(_, _) => FinishKeepsSound(s, t, step);
    case TrivialMove(_) => MoveKeepsSound(s, t, step);
  }

  lemma InitInv(s: State)
    requires Init(s)
    ensures Inv(s)
  {
    hide Less, BySmallest, Visible, NewerThan;
    assert Stored(s) == {};
  }

  /** In every reachable state the levels are in order, whatever was compacted. */
  lemma {:induction false} RunKeepsSound(run: seq<State>, steps: seq<Step>, i: nat)
    requires IsRun(run, steps) && i < |run|
    ensures Sound(run[i])
  {
    hide Sound, Next, Init;
    if i == 0 {
      InitInv(run[0]);
    } else {
      RunKeepsSound(run, steps, i - 1);
      NextKeepsSound(run[i - 1], run[i], steps[i - 1]);
    }
  }

  /** So files above level zero never overlap, in any run. */
  lemma LevelsStayDisjoint(run: seq<State>, steps: seq<Step>, i: nat, l: nat)
    requires IsRun(run, steps) && i < |run| && 0 < l < NUM_LEVELS
    ensures |run[i].levels| == NUM_LEVELS && FilesOk(run[i].levels[l]) && Disjoint(run[i].levels[l])
    ensures Ordered(run[i].levels[l]) && DistinctNumbers(run[i].levels[l])
  {
    hide Sound, IsRun, FilesOk, Disjoint, Ordered, DistinctNumbers;
    RunKeepsSound(run, steps, i);
    LevelCount(run[i]);
  }

  // ---------------------------------------------------------------- what was published

  /** Snapshots a reader can hold: a live one, or the last published number. */
  ghost predicate Readable(s: State, t: nat) {
    t == s.lastSequence || t in s.snapshots
  }

  lemma ReadableAboveFloor(s: State, t: nat)
    requires Sound(s) && Readable(s, t)
    ensures s.floor <= t <= s.lastSequence
  {
    hide LevelsSound, MemTablesOk, HistoryOk, RunningSound;
  }

  /** A step adds history only above the last published number. */
  lemma NextKeepsPublished(s: State, t: State, step: Step)
    requires Sound(s) && Next(s, t, step)
    ensures s.history <= t.history && s.floor <= t.floor && s.lastSequence <= t.lastSequence
    ensures forall e :: e in t.history && e.key.sequence <= s.lastSequence ==> e in s.history
  {
    hide LevelsSound, MemTablesOk, RunningSound, OutputsOk, FlushAllowed, InputsOk;
  }

  lemma {:induction false} PublishedIsForever(run: seq<State>, steps: seq<Step>, i: nat, j: nat)
    requires IsRun(run, steps) && i <= j < |run|
    ensures run[i].history <= run[j].history && run[i].floor <= run[j].floor
    ensures run[i].lastSequence <= run[j].lastSequence
    ensures forall e :: e in run[j].history && e.key.sequence <= run[i].lastSequence ==> e in run[i].history
  {
    hide Sound, Next, Init;
    if i < j {
      PublishedIsForever(run, steps, i, j - 1);
      RunKeepsSound(run, steps, j - 1);
      NextKeepsPublished(run[j - 1], run[j], steps[j - 1]);
    }
  }

  lemma HistoryDistinct(s: State)
    requires Sound(s)
    ensures Distinct(s.history)
  {
    hide LevelsSound, MemTablesOk, RunningSound, Stored;
    SomeAreDistinct(s.history, s.history);
  }

  /** Every readable number was published at a moment when no batch was in progress,
      so that a batch is seen as a whole or not at all. */
  lemma {:induction false} ReadersSeeWholeBatches(run: seq<State>, steps: seq<Step>, i: nat, t: nat) returns (j: nat)
    requires IsRun(run, steps) && i < |run| && Readable(run[i], t)
    ensures j <= i && run[j].lastSequence == t && run[j].pending == 0
    ensures forall e :: e in run[i].history && e.key.sequence <= t <==> e in run[j].history
  {
    hide Sound, OutputsOk, FlushAllowed, InputsOk;
    RunKeepsSound(run, steps, i);
    if i == 0 {
      j := 0;
    } else if Readable(run[i - 1], t) {
      j := ReadersSeeWholeBatches(run, steps, i - 1, t);
      RunKeepsSound(run, steps, j);
      PublishedIsForever(run, steps, j, i);
      HistoryBound(run[j]);
    } else {
      j := i;
      HistoryBound(run[i]);
    }
  }

  lemma HistoryBound(s: State)
    requires Sound(s)
    ensures forall e :: e in s.history ==> e.key.sequence <= s.lastSequence + s.pending
  {
    hide LevelsSound, MemTablesOk, RunningSound, Stored;
  }
}
