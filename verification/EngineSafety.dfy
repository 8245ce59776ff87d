/** Safety over whole runs of closed compactions: every live reader is told exactly what
    was written. */
module EngineSafety {
  import opened InternalKeys
  import opened Versions
  import opened VersionBuilder
  import opened Compactions
  import opened CompactionInputs
  import opened Engine
  import opened EngineInvariant
  import opened EngineStructure

  // ---------------------------------------------------------------- writing and flushing

  /** A new entry changes what is stored and what was written in the same way. */
  lemma NewEntryKeepsViews(S: set<Entry>, H: set<Entry>, e: Entry, floor: nat)
    requires S <= H && Distinct(H + {e}) && SameViews(S, H, floor)
    requires forall x :: x in H ==> x.key.sequence < e.key.sequence
    ensures SameViews(S + {e}, H + {e}, floor)
  {
    forall u, t: nat | t >= floor
      ensures Visible(S + {e}, u, t) == Visible(H + {e}, u, t)
    {
      if Candidate(e, u, t) {
        VisibleIsNewest(S + {e}, u, t, e);
        VisibleIsNewest(H + {e}, u, t, e);
      } else {
        VisibleDependsOnKey(S + {e}, S, u, t);
        VisibleDependsOnKey(H + {e}, H, u, t);
      }
    }
  }

  lemma ApplyKeepsFaithful(s: State, t: State, step: Step)
    requires Inv(s) && Sound(t) && step.Apply? && Next(s, t, step)
    ensures Faithful(t)
  {
    hide LevelsSound, NumbersBelow, SameViews, MemTablesOk, RunningSound, LevelEntries, Distinct, Insert, OneEntryPerSequence;
    hide Stored, Recency, OthersNewer;
    var e := NewEntry(s, step.user, step.kind, step.value);
    ApplyKeepsSound(s, t, step);
    NewEntryIsNewest(s, e);
    DistinctWith(s.history, e);
    NewEntryKeepsViews(Stored(s), s.history, e, s.floor);
  }

  /** What is stored stays the same, and so does the compaction that runs. */
  lemma SameStored(s: State, t: State)
    requires Faithful(s) && Stored(t) == Stored(s) && t.history == s.history && t.floor == s.floor
    requires t.levels == s.levels
    requires t.running.Some? ==> s.running.Some? && t.running.value.inputs == s.running.value.inputs
    ensures Faithful(t)
  {
    hide Recency, SameViews, Stored, OthersNewer;
  }

  lemma FlushKeepsFaithful(s: State, t: State, step: Step)
    requires Inv(s) && Sound(t) && step.Flush? && Next(s, t, step)
    ensures Faithful(t)
  {
    hide Sound, Recency, SameViews, Stored, OthersNewer, FileOk, Flushed, AllOrdered, LevelsOk;
    FlushStepKeepsSound(s, t, step);
    if s.imm.value == [] {
      SameStored(s, t);
    } else {
      var f := TableOf(s.imm.value, s.nextFileNumber, step.fileSize);
      SoundParts(s);
      SoundLevels(s.levels);
      TableOfOk(s, s.nextFileNumber, step.fileSize);
      FlushMembers(s.levels, f, step.level);
      FlushKeepsRecency(s.levels, t.levels, f, step.level);
      if s.running.Some? {
        RunningParts(s, s.running.value);
        FlushKeepsOthersNewer(s.levels, t.levels, f, step.level, s.running.value.inputs);
      }
    }
  }

  // ---------------------------------------------------------------- compacting

  lemma VersionParts(levels: Levels)
    requires VersionOk(levels)
    ensures LevelsSound(levels) && Recency(levels)
    ensures LevelsOk(levels) && AllOrdered(levels) && UniqueNumbers(levels)
  {
  }

  /** Inputs chosen by the code leave a clear output level; and they leave only newer
      entries behind exactly when no file that continues one of them is left behind. */
  lemma ChosenInputsExact(levels: Levels, c: Inputs)
    requires VersionOk(levels) && InputsOk(levels, c) && Distinct(LevelEntries(levels))
    ensures InputsIn(levels, c) && OutputLevelClear(levels, c)
    ensures OthersNewer(levels, c) <==> BoundaryClosed(levels, c)
  {
    hide VersionOk, LevelsSound, LevelsOk, Recency, InputsOk, OutputLevelClear, OthersNewer, BoundaryClosed, Distinct, LevelEntries, IsUserRange, TakesAll;
    VersionParts(levels);
    ChosenInputsIn(levels, c);
    ChosenInputsClear(levels, c);
    if BoundaryClosed(levels, c) {
      ClosedIsNewer(levels, c);
    }
    if OthersNewer(levels, c) {
      NewerIsClosed(levels, c);
    }
  }

  lemma ClosedIsNewer(levels: Levels, c: Inputs)
    requires VersionOk(levels) && InputsOk(levels, c) && Distinct(LevelEntries(levels)) && BoundaryClosed(levels, c)
    ensures OthersNewer(levels, c)
  {
    hide VersionOk, InputsOk, UpperClosed, LowerClosed, Distinct, LevelEntries, Newer;
    forall l, f, g | 0 <= l <= c.level + 1 && l < |levels| && f in levels[l] && !IsInput(c, l, f) && g in InputFiles(c)
      ensures Newer(f, g)
    {
      OtherIsNewer(levels, c, l, f, g);
    }
  }

  lemma NewerIsClosed(levels: Levels, c: Inputs)
    requires VersionOk(levels) && InputsOk(levels, c) && OthersNewer(levels, c)
    ensures BoundaryClosed(levels, c)
  {
    hide Recency, UniqueNumbers, AllOrdered, FilesApart, IsUserRange, TakesAll, FileOk, Newer, Disjoint;
    forall f, g | f in levels[c.level] && f !in c.upper && g in c.upper && c.level > 0
      ensures !Continues(f, g)
    {
      assert !IsInput(c, c.level, f) && g in InputFiles(c);
      ContinuesIsOlder(f, g);
    }
    forall f, g | f in levels[c.level + 1] && f !in c.lower && g in c.lower
      ensures !Continues(f, g)
    {
      assert !IsInput(c, c.level + 1, f) && g in InputFiles(c);
      ContinuesIsOlder(f, g);
    }
  }

  lemma ContinuesIsOlder(f: FileMetaData, g: FileMetaData)
    requires FileOk(f) && FileOk(g) && Newer(f, g)
    ensures !Continues(f, g)
  {
    var a, b := f.entries[0], g.entries[|g.entries| - 1];
    assert a in Elements(f.entries) && b in Elements(g.entries);
  }

  /** In a disjoint level the earlier file holds the newer entries of a shared key. */
  lemma EarlierIsNewer(f: FileMetaData, g: FileMetaData, S: set<Entry>)
    requires FileOk(f) && FileOk(g) && Less(f.largest, g.smallest)
    requires Distinct(S) && Elements(f.entries) <= S && Elements(g.entries) <= S
    ensures Newer(f, g)
  {
    forall a, b | a in f.entries && b in g.entries && a.key.user == b.key.user
      ensures a.key.sequence > b.key.sequence
    {
      EntryInRange(f, a);
      EntryInRange(g, b);
      assert a in S && b in S;
    }
  }

  lemma OtherIsNewer(levels: Levels, c: Inputs, l: nat, f: FileMetaData, g: FileMetaData)
    requires VersionOk(levels) && InputsOk(levels, c) && Distinct(LevelEntries(levels))
    requires if l <= c.level then UpperClosed(levels, c) else LowerClosed(levels, c)
    requires l <= c.level + 1 && f in levels[l] && !IsInput(c, l, f) && g in InputFiles(c)
    ensures Newer(f, g)
  {
    hide FileOk, Disjoint, Newer, Distinct, InOrder, LevelEntries, Continues, NoSharedUser, Ordered, UniqueNumbers, FilesApart;
    var k := if g in c.upper then c.level else c.level + 1;
    assert g in levels[k];
    if l > k {
      OutsideShares(f, g, c.lo, c.hi);
      NoneOverlapsNewer(f, g);
    } else if l == k == 0 {
      OutsideShares(f, g, c.lo, c.hi);
      NoneOverlapsNewer(f, g);
    } else if l == k {
      SameLevelNewer(levels, l, f, g);
    }
  }

  lemma OutsideShares(f: FileMetaData, g: FileMetaData, lo: UserKey, hi: UserKey)
    requires !Overlaps(f, Some(lo), Some(hi)) && lo <= g.smallest.user && g.largest.user <= hi
    ensures NoSharedUser(f, g)
  {
  }

  lemma SameLevelNewer(levels: Levels, l: nat, f: FileMetaData, g: FileMetaData)
    requires LevelsOk(levels) && 0 < l < |levels| && f in levels[l] && g in levels[l] && f != g
    requires Distinct(LevelEntries(levels)) && !Continues(f, g)
    ensures Newer(f, g)
  {
    DisjointIsApart(levels[l], f, g);
    if Less(f.largest, g.smallest) {
      assert forall e :: e in f.entries || e in g.entries ==> e in EntriesOf(levels[l]);
      EarlierIsNewer(f, g, LevelEntries(levels));
    } else {
      NoneOverlapsNewer(f, g);
    }
  }

  lemma StartKeepsFaithful(s: State, t: State, step: Step)
    requires Inv(s) && step.StartCompaction? && Next(s, t, step) && ClosedStep(s, step)
    ensures Faithful(t)
  {
    hide Recency, LevelsSound, Sound, LevelEntries, Visible, InputsIn, OthersNewer, OutputLevelClear, InputsOk, BoundaryClosed;
    hide SameViews;
    SoundParts(s);
    LevelsDistinct(s);
    InputsFit(s.levels, step.inputs);
    ChosenInputsExact(s.levels, step.inputs);
    assert Stored(t) == Stored(s);
  }

  lemma InputsFit(levels: Levels, c: Inputs)
    requires InputsOk(levels, c)
    ensures c.level + 1 < |levels|
  {
  }

  ghost function Rest(s: State, c: Inputs): set<Entry> {
    Elements(s.mem) + Elements(ImmEntries(s)) + RestEntries(s.levels, c)
  }

  /** Nothing outside the inputs is older than an input entry whose key has no
      deeper data. */
  lemma RestOfRunIsSafe(s: State, r: Running, input: seq<Entry>)
    requires Inv(s) && s.running == Some(r) && IsMerged(input, r.inputs)
    ensures RestIsSafe(Rest(s, r.inputs), input, r.base, r.inputs.level)
  {
    hide LevelsSound, NumbersBelow, RunningSound, Recency, SameViews, OthersNewer, Sorted, BaseLevelForKey, RestEntries;
    var c := r.inputs;
    SoundParts(s);
    RunningParts(s, r);
    forall x, e | x in Rest(s, c) && e in input && x.key.user == e.key.user
                  && BaseLevelForKey(r.base, c.level, e.key.user)
      ensures x.key.sequence > e.key.sequence
    {
      assert e in Elements(input);
      var g :| g in InputFiles(c) && e in g.entries;
      if x in RestEntries(s.levels, c) {
        RestNewer(s, r, g, x, e);
      } else {
        InputStored(s, r, g, e);
      }
    }
  }

  lemma RestNewer(s: State, r: Running, g: FileMetaData, x: Entry, e: Entry)
    requires Inv(s) && s.running == Some(r)
    requires x in RestEntries(s.levels, r.inputs) && g in InputFiles(r.inputs) && e in g.entries
    requires x.key.user == e.key.user && BaseLevelForKey(r.base, r.inputs.level, e.key.user)
    ensures x.key.sequence > e.key.sequence
  {
    hide Recency, OthersNewer, RunningSound, LevelsOk, SameViews, BaseLevelForKey;
    var l, f :| 0 <= l < |s.levels| && f in s.levels[l] && !IsInput(r.inputs, l, f) && x in f.entries;
    RestEntryNewer(s, r, l, f, g, x, e);
  }

  lemma InputStored(s: State, r: Running, g: FileMetaData, e: Entry)
    requires InputsIn(s.levels, r.inputs) && g in InputFiles(r.inputs) && e in g.entries
    ensures e in LevelEntries(s.levels)
  {
    var k := if g in r.inputs.upper then r.inputs.level else r.inputs.level + 1;
    assert g in s.levels[k] && e in EntriesOf(s.levels[k]);
  }

  lemma RestEntryNewer(s: State, r: Running, l: nat, f: FileMetaData, g: FileMetaData, x: Entry, e: Entry)
    requires LevelsOk(s.levels) && RunningSound(s, r) && OthersNewer(s.levels, r.inputs)
    requires l < |s.levels| && f in s.levels[l] && !IsInput(r.inputs, l, f) && g in InputFiles(r.inputs)
    requires x in f.entries && e in g.entries && x.key.user == e.key.user
    requires BaseLevelForKey(r.base, r.inputs.level, e.key.user)
    ensures x.key.sequence > e.key.sequence
  {
    var c := r.inputs;
    assert FileOk(g) by {
      assert g in s.levels[if g in c.upper then c.level else c.level + 1];
    }
    EntryInRange(f, x);
    EntryInRange(g, e);
    assert l <= c.level + 1 ==> Newer(f, g);
  }

  /** After the installation the views at or above the compaction's smallest snapshot
      are the same. */
  lemma InstallKeepsViews(s: State, t: State, r: Running, input: seq<Entry>, outputs: Files)
    requires Inv(s) && s.running == Some(r) && OutputsOk(r, input, outputs)
    requires t.mem == s.mem && t.imm == s.imm
    requires LevelEntries(t.levels) == RestEntries(s.levels, r.inputs) + EntriesOf(outputs)
    ensures SameViews(Stored(t), Stored(s), r.smallestSnapshot)
    ensures Stored(t) <= Stored(s)
  {
    hide LevelsSound, NumbersBelow, RunningSound, Recency, OthersNewer, Sorted, Visible, BaseLevelForKey, LevelEntries, RestEntries;
    hide Dropped, Kept, Distinct, FileOk, Disjoint, RestIsSafe;
    var c := r.inputs;
    var rest := Rest(s, c);
    SoundParts(s);
    RunningParts(s, r);
    var kept := Kept(input, |input|, r.smallestSnapshot, r.base, c.level);
    OutputsInstallOk(s, r, input, outputs);
    StoredSplit(s, c);
    RestOfRunIsSafe(s, r, input);
    assert Stored(s) == rest + Elements(input);
    assert Stored(t) == rest + Elements(kept);
    KeptSubset(input, r.smallestSnapshot, r.base, c.level);
    SomeAreDistinct(Stored(s), s.history);
    forall u, v: nat | v >= r.smallestSnapshot
      ensures Visible(Stored(t), u, v) == Visible(Stored(s), u, v)
    {
      KeptKeepsViews(input, rest, r.smallestSnapshot, r.base, c.level, u, v);
    }
  }

  lemma FinishKeepsFaithful(s: State, t: State, step: Step)
    requires Inv(s) && Sound(t) && step.FinishCompaction? && Next(s, t, step)
    ensures Faithful(t)
  {
    hide LevelsSound, NumbersBelow, RunningSound, Sorted, Visible, LevelEntries, RestEntries, InstallOk, Installed, Recency;
    hide OthersNewer, OutputLevelClear, Kept, FileOk, Disjoint, ApplyEdit, InstallEdit, IsMerged, Stored, Sound;
    var r := s.running.value;
    FinishKeepsSound(s, t, step);
    SoundParts(s);
    SoundLevels(s.levels);
    RunningParts(s, r);
    OutputsInstallOk(s, r, step.input, step.outputs);
    InstallMembers(s.levels, r.inputs, step.outputs);
    OthersAreShallower(s.levels, r.inputs);
    InstallKeepsRecency(s.levels, t.levels, r.inputs, step.outputs);
    InstallKeepsViews(s, t, r, step.input, step.outputs);
  }

  lemma OthersAreShallower(levels: Levels, c: Inputs)
    requires OthersNewer(levels, c)
    ensures ShallowerNewer(levels, c)
  {
  }

  lemma MoveKeepsFaithful(s: State, t: State, step: Step)
    requires Inv(s) && step.TrivialMove? && Next(s, t, step) && ClosedStep(s, step)
    ensures Faithful(t)
  {
    hide LevelsSound, Recency, Visible, LevelEntries, RestEntries, Installed, SameViews, Stored, Sound, InputsOk;
    hide OthersNewer, OutputLevelClear, FileOk, ApplyEdit, InstallEdit, BoundaryClosed, InstallOk, InputsIn;
    var c := step.move;
    MoveKeepsSound(s, t, step);
    SoundParts(s);
    SoundLevels(s.levels);
    LevelsDistinct(s);
    InputsFit(s.levels, c);
    ChosenInputsExact(s.levels, c);
    MoveInstallOk(s.levels, c);
    InstallMembers(s.levels, c, c.upper);
    OthersAreShallower(s.levels, c);
    InstallKeepsRecency(s.levels, t.levels, c, c.upper);
  }

  // ---------------------------------------------------------------- all steps, all runs

  lemma NextKeepsInv(s: State, t: State, step: Step)
    requires Inv(s) && Next(s, t, step) && ClosedStep(s, step)
    ensures Inv(t)
  {
    hide Sound, Faithful, ClosedStep, Next, Stored;
    NextKeepsSound(s, t, step);
    match step
    case Apply(_, _, _) => ApplyKeepsFaithful(s, t, step);
    case Flush(_, _) => FlushKeepsFaithful(s, t, step);
    case StartCompaction(_) => StartKeepsFaithful(s, t, step);
    case FinishCompaction(_, _) => FinishKeepsFaithful(s, t, step);
    case TrivialMove(_) => MoveKeepsFaithful(s, t, step);
    case SwitchMemTable => SwitchKeepsFaithful(s, t, step);
    case Publish => QuietKeepsFaithful(s, t, step);
    case NewSnapshot => QuietKeepsFaithful(s, t, step);
    case ReleaseSnapshot(_) => QuietKeepsFaithful(s, t, step);
    case OpenOutput => QuietKeepsFaithful(s, t, step);
  }

  /** Each half by itself. */
  lemma StepKeeps(s: State, t: State, step: Step)
    requires Sound(s) && Next(s, t, step)
    ensures Sound(t)
    ensures Faithful(s) && ClosedStep(s, step) ==> Faithful(t)
  {
    hide Sound, Faithful, ClosedStep, Next;
    NextKeepsSound(s, t, step);
    if Faithful(s) && ClosedStep(s, step) {
      NextKeepsInv(s, t, step);
    }
  }

  lemma SwitchKeepsFaithful(s: State, t: State, step: Step)
    requires Inv(s) && step.SwitchMemTable? && Next(s, t, step)
    ensures Faithful(t)
  {
    hide Sound, Faithful, Stored;
    SwitchKeepsSound(s, t, step);
    SameStored(s, t);
  }

  lemma QuietKeepsFaithful(s: State, t: State, step: Step)
    requires Inv(s) && Next(s, t, step)
    requires step.Publish? || step.NewSnapshot? || step.ReleaseSnapshot? || step.OpenOutput?
    ensures Faithful(t)
  {
    hide Sound, Faithful, Stored;
    QuietKeepsSound(s, t, step);
    SameStored(s, t);
  }

  /** As long as every compaction is closed, what is stored also tells every reader
      what was written. */
  lemma {:induction false} RunKeepsInv(run: seq<State>, steps: seq<Step>, i: nat)
    requires IsClosedRun(run, steps) && i < |run|
    ensures Inv(run[i])
  {
    hide Inv, Next, Init, ClosedStep;
    if i == 0 {
      InitInv(run[0]);
    } else {
      RunKeepsInv(run, steps, i - 1);
      NextKeepsInv(run[i - 1], run[i], steps[i - 1]);
    }
  }

  // ---------------------------------------------------------------- what readers are told

  /** At every moment of every run, what is stored tells a reader what was written. */
  lemma LiveReadersSeeHistory(run: seq<State>, steps: seq<Step>, i: nat, u: UserKey, t: nat)
    requires IsClosedRun(run, steps) && i < |run| && Readable(run[i], t)
    ensures Visible(Stored(run[i]), u, t) == Visible(run[i].history, u, t)
  {
    hide Next, Visible, Sound, Recency, OthersNewer, Stored, ClosedStep;
    RunKeepsInv(run, steps, i);
    ReadableAboveFloor(run[i], t);
  }

  /** A snapshot's view never changes while it is held: not by writes, flushes, moves
      or compactions. */
  lemma SnapshotViewIsStable(run: seq<State>, steps: seq<Step>, i: nat, j: nat, u: UserKey, t: nat)
    requires IsClosedRun(run, steps) && i <= j < |run|
    requires t <= run[i].lastSequence && Readable(run[j], t)
    ensures Visible(Stored(run[i]), u, t) == Visible(Stored(run[j]), u, t)
  {
    hide Next, Visible, Sound, Recency, OthersNewer, Stored, Distinct, ClosedStep;
    PublishedIsForever(run, steps, i, j);
    RunKeepsInv(run, steps, i);
    RunKeepsInv(run, steps, j);
    ReadableAboveFloor(run[j], t);
    HistoryDistinct(run[i]);
    HistoryDistinct(run[j]);
    VisibleDependsOnKey(run[i].history, run[j].history, u, t);
  }
}
