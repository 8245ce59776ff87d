/** Where the engine needs more than it checks: files that share a boundary user key,
    tables flushed into a gap of a running compaction, and file numbers used twice. */
module EngineLimits {
  import opened InternalKeys
  import opened Versions
  import opened VersionBuilder
  import opened Compactions
  import opened CompactionInputs
  import opened Engine
  import opened EngineInvariant
  import opened EngineStructure
  import opened EngineSafety

  // ---------------------------------------------------------------- what the invariant needs, exactly

  /** A step as the code takes it: a table may also land in a gap. */
  ghost predicate CodeNext(s: State, t: State, step: Step) {
    if step.Flush? && s.imm.Some? && s.imm.value != [] then
      var f := TableOf(s.imm.value, s.nextFileNumber, step.fileSize);
      && FlushPlaced(s.levels, f, step.level)
      && t == s.(imm := None, nextFileNumber := s.nextFileNumber + 1,
                 levels := ApplyEdit(s.levels, FileEdit({}, [(step.level, f)])))
    else Next(s, t, step)
  }

  ghost predicate KeepsOut(s: State, step: Step) {
    step.Flush? && s.imm.Some? && s.imm.value != [] ==>
      OutOfGap(s, TableOf(s.imm.value, s.nextFileNumber, step.fileSize), step.level)
  }

  lemma FlushIntoGapBreaks(s: State, t: State, step: Step)
    requires Sound(s) && CodeNext(s, t, step) && !KeepsOut(s, step)
    ensures !Sound(t)
  {
    hide LevelsSound, NumbersBelow, MemTablesOk, HistoryOk, SnapshotsOk, ClearOf, Covered;
    var f := TableOf(s.imm.value, s.nextFileNumber, step.fileSize);
    SoundParts(s);
    SoundLevels(s.levels);
    FlushMembers(s.levels, f, step.level);
    assert f in t.levels[step.level];
    FreshNumber(s, f);
  }

  lemma FreshNumber(s: State, f: FileMetaData)
    requires NumbersBelow(s.levels, s.nextFileNumber) && f.number == s.nextFileNumber
    ensures forall l :: 0 <= l < |s.levels| ==> f !in s.levels[l]
  {
  }

  lemma OpenStepBreaks(s: State, t: State, step: Step)
    requires Inv(s) && CodeNext(s, t, step) && !ClosedStep(s, step)
    ensures !Inv(t)
  {
    hide LevelsSound, NumbersBelow, MemTablesOk, HistoryOk, SnapshotsOk, Recency, SameViews, OthersNewer,
         BoundaryClosed, InputsOk, RunningSound, ApplyEdit, InstallEdit;
    VersionSound(s);
    if step.StartCompaction? {
      ChosenInputsExact(s.levels, step.inputs);
    } else {
      TrivialMoveExact(s.levels, step.move);
      NothingBelow(s.levels, step.move);
    }
  }

  lemma VersionSound(s: State)
    requires Inv(s)
    ensures VersionOk(s.levels) && Distinct(LevelEntries(s.levels))
  {
    hide NumbersBelow, MemTablesOk, SnapshotsOk, RunningSound, LevelsSound, Recency;
    SomeAreDistinct(LevelEntries(s.levels), s.history);
  }

  lemma NothingBelow(levels: Levels, c: Inputs)
    requires c.level + 1 < |levels| && c.lower == []
    ensures BoundaryClosed(levels, c) <==> UpperClosed(levels, c)
  {
  }

  /** A step of the code keeps the structure exactly if no table lands in a gap, and
      the views as well exactly if what it compacts is also closed. */
  lemma CodeStepExact(s: State, t: State, step: Step)
    requires Sound(s) && CodeNext(s, t, step)
    ensures Sound(t) <==> KeepsOut(s, step)
    ensures Faithful(s) ==> (Inv(t) <==> KeepsOut(s, step) && ClosedStep(s, step))
  {
    hide Sound, Faithful, ClosedStep, OutOfGap, FlushPlaced;
    if KeepsOut(s, step) {
      assert Next(s, t, step);
      StepKeeps(s, t, step);
      if Faithful(s) && !ClosedStep(s, step) {
        OpenStepBreaks(s, t, step);
      }
    } else {
      FlushIntoGapBreaks(s, t, step);
    }
  }

  ghost predicate IsCodeRun(run: seq<State>, steps: seq<Step>) {
    && |run| == |steps| + 1
    && Init(run[0])
    && forall i :: 0 <= i < |steps| ==> CodeNext(run[i], run[i + 1], steps[i])
  }

  /** Over whole runs: the structure holds throughout exactly if no flush went into a
      gap, and readers' views do as well exactly if every compaction was also closed. */
  lemma {:induction false} CodeRunExact(run: seq<State>, steps: seq<Step>, n: nat)
    requires IsCodeRun(run, steps) && n < |run|
    ensures (forall i :: 0 <= i <= n ==> Sound(run[i])) <==> (forall i :: 0 <= i < n ==> KeepsOut(run[i], steps[i]))
    ensures (forall i :: 0 <= i <= n ==> Inv(run[i]))
       <==> (forall i :: 0 <= i < n ==> KeepsOut(run[i], steps[i]) && ClosedStep(run[i], steps[i]))
  {
    hide Sound, Faithful, ClosedStep, KeepsOut, CodeNext, Init;
    if n == 0 {
      InitInv(run[0]);
    } else {
      CodeRunExact(run, steps, n - 1);
      if Sound(run[n - 1]) {
        CodeStepExact(run[n - 1], run[n], steps[n - 1]);
      }
    }
  }

  // ---------------------------------------------------------------- boundary files and recency

  lemma UpperClosedIsNewer(levels: Levels, c: Inputs)
    requires VersionOk(levels) && InputsOk(levels, c) && Distinct(LevelEntries(levels)) && UpperClosed(levels, c)
    ensures ShallowerNewer(levels, c)
  {
    hide VersionOk, InputsOk, UpperClosed, Distinct, LevelEntries, Newer;
    forall l, f, g | 0 <= l <= c.level && l < |levels| && f in levels[l] && !IsInput(c, l, f) && g in InputFiles(c)
      ensures Newer(f, g)
    {
      OtherIsNewer(levels, c, l, f, g);
    }
  }

  /** The output that holds the last entry of `g` is newer than what continues `g`. */
  lemma ContinuationTooShallow(levels: Levels, after: Levels, c: Inputs, outputs: Files, f: FileMetaData, g: FileMetaData)
    requires LevelsOk(levels) && InputsIn(levels, c) && Recency(after)
    requires Installed(levels, after, c, outputs) && EntriesOf(InputFiles(c)) <= EntriesOf(outputs)
    requires f in levels[c.level] && f !in c.upper && g in c.upper
    ensures !Continues(f, g)
  {
    hide Recency, Newer, Disjoint, AllOrdered;
    assert FileOk(f) && FileOk(g);
    var b := g.entries[|g.entries| - 1];
    assert b in g.entries && g in InputFiles(c) && b in EntriesOf(outputs);
    var o :| o in outputs && b in o.entries;
    assert StaysOrEnters(levels, c, outputs, c.level + 1, o) && StaysOrEnters(levels, c, outputs, c.level, f);
    FilesNewer(after, c.level, f, o);
    SharedKeyOrder(f, o, b);
  }

  lemma FilesNewer(levels: Levels, l: nat, f: FileMetaData, g: FileMetaData)
    requires Recency(levels) && l + 1 < |levels| && f in levels[l] && g in levels[l + 1]
    ensures Newer(f, g)
  {
  }

  lemma SharedKeyOrder(f: FileMetaData, o: FileMetaData, b: Entry)
    requires FileOk(f) && Newer(f, o) && b in o.entries
    ensures !(Less(b.key, f.smallest) && b.key.user == f.smallest.user)
  {
    assert f.entries[0] in Elements(f.entries) && b in Elements(o.entries);
  }

  /** When all input entries move down, newer entries stay shallower exactly when no
      continuing file is left behind in the upper level. */
  lemma InstallRecencyExact(levels: Levels, after: Levels, c: Inputs, outputs: Files)
    requires VersionOk(levels) && InputsOk(levels, c) && Distinct(LevelEntries(levels))
    requires InstallOk(levels, c, outputs) && Installed(levels, after, c, outputs)
    requires EntriesOf(InputFiles(c)) <= EntriesOf(outputs)
    ensures Recency(after) <==> UpperClosed(levels, c)
  {
    hide VersionOk, InputsOk, InputsIn, InstallOk, Installed, Recency, Continues, LevelsOk, Distinct, LevelEntries;
    VersionParts(levels);
    ChosenInputsIn(levels, c);
    InputsLevel(levels, c);
    if UpperClosed(levels, c) {
      UpperClosedIsNewer(levels, c);
      InstallKeepsRecency(levels, after, c, outputs);
    }
    if Recency(after) {
      NewerIsUpperClosed(levels, after, c, outputs);
    }
  }

  lemma NewerIsUpperClosed(levels: Levels, after: Levels, c: Inputs, outputs: Files)
    requires LevelsOk(levels) && InputsIn(levels, c) && Recency(after)
    requires Installed(levels, after, c, outputs) && EntriesOf(InputFiles(c)) <= EntriesOf(outputs)
    ensures UpperClosed(levels, c)
  {
    hide LevelsOk, InputsIn, Recency, Installed, Continues;
    assert c.level < |levels| by {
      InputsLevel(levels, c);
    }
    forall f, g | f in levels[c.level] && f !in c.upper && g in c.upper
      ensures !Continues(f, g)
    {
      ContinuationTooShallow(levels, after, c, outputs, f, g);
    }
  }

  lemma InputsLevel(levels: Levels, c: Inputs)
    requires InputsIn(levels, c)
    ensures c.level + 1 < |levels|
  {
  }

  /** A trivial move leaves the levels in order, and newer entries shallower exactly when
      the moved file is not continued by one that stays. */
  lemma TrivialMoveExact(levels: Levels, c: Inputs)
    requires VersionOk(levels) && InputsOk(levels, c) && Distinct(LevelEntries(levels))
    requires |c.upper| == 1 && c.lower == []
    ensures LevelsSound(ApplyEdit(levels, InstallEdit(c, c.upper)))
    ensures Recency(ApplyEdit(levels, InstallEdit(c, c.upper))) <==> UpperClosed(levels, c)
  {
    hide VersionOk, LevelsSound, InputsOk, Distinct, LevelEntries, InstallOk, Installed, Continues, OthersNewer, OutputLevelClear;
    hide ApplyEdit, InstallEdit, Recency, LevelsOk, AllOrdered, UniqueNumbers;
    var after := ApplyEdit(levels, InstallEdit(c, c.upper));
    ChosenInputsExact(levels, c);
    VersionParts(levels);
    MoveInstallOk(levels, c);
    InstallMembers(levels, c, c.upper);
    assert InputFiles(c) == c.upper;
    InstallKeepsSound(levels, after, c, c.upper);
    InstallRecencyExact(levels, after, c, c.upper);
  }

  // ---------------------------------------------------------------- a resurrected key

  const MARKER := Entry(InternalKey(1, 5, Deletion), "")
  const OLD_VALUE := Entry(InternalKey(1, 3, Value), "old")
  const MARKER_FILE := FileMetaData(1, 10, MARKER.key, MARKER.key, [MARKER])
  const OLD_FILE := FileMetaData(2, 10, OLD_VALUE.key, OLD_VALUE.key, [OLD_VALUE])

  /** One user key straddles two adjacent files of level one. */
  function StraddlingLevels(): Levels {
    [[], [MARKER_FILE, OLD_FILE], [], [], [], [], []]
  }

  lemma StraddlingLevelsOk()
    ensures VersionOk(StraddlingLevels())
  {
    TwoFilesOk(MARKER_FILE, OLD_FILE);
  }

  /** PickCompaction takes the file with the marker and leaves the other behind. */
  method PickLeavesContinuation(maxFileSize: nat) returns (c: Inputs)
    ensures InputsOk(StraddlingLevels(), c) && c.level == 1 && c.upper == [MARKER_FILE] && c.lower == []
    ensures !UpperClosed(StraddlingLevels(), c)
  {
    StraddlingLevelsOk();
    hide VersionOk, LevelsOk, Covered, AreGrandparents;
    VersionParts(StraddlingLevels());
    var grandparents;
    c, grandparents := PickCompaction(StraddlingLevels(), 1, MARKER_FILE, maxFileSize);
    assert c.lower == [];
    assert Continues(OLD_FILE, MARKER_FILE);
  }

  /** Compacting that choice drops the marker and makes the deleted key readable. */
  lemma MarkerDropResurrects()
    ensures Kept([MARKER], 1, 5, StraddlingLevels(), 1) == []
    ensures Visible({OLD_VALUE} + Elements([MARKER]), 1, 5) == None
    ensures Visible({OLD_VALUE} + Elements(Kept([MARKER], 1, 5, StraddlingLevels(), 1)), 1, 5) == Some("old")
  {
    var levels := StraddlingLevels();
    assert BaseLevelForKey(levels, 1, 1);
    assert Dropped([MARKER], 0, 5, levels, 1);
    assert Kept([MARKER], 0, 5, levels, 1) == [];
    assert Kept([MARKER], 1, 5, levels, 1) == [];
    assert MARKER in [MARKER];
    VisibleIsNewest({OLD_VALUE} + Elements([MARKER]), 1, 5, MARKER);
    VisibleIsNewest({OLD_VALUE} + Elements(Kept([MARKER], 1, 5, levels, 1)), 1, 5, OLD_VALUE);
  }

  // ---------------------------------------------------------------- a table in a gap

  /** A table that meets no input and lands in the output level of a running
      compaction stays apart from an output that spans all inputs exactly when it
      does not lie in a gap between them. */
  lemma GapFlushExact(f: FileMetaData, c: Inputs, o: FileMetaData)
    requires FileOk(f) && FileOk(o) && FilesOk(InputFiles(c)) && InputFiles(c) != []
    requires forall g :: g in InputFiles(c) ==> NoSharedUser(f, g)
    requires Elements(o.entries) == EntriesOf(InputFiles(c))
    ensures Apart(f, o) <==> ClearOf(f, InputFiles(c))
  {
    if Apart(f, o) {
      forall g | g in InputFiles(c)
        ensures if Less(f.largest, o.smallest) then Less(f.largest, g.smallest) else Less(g.largest, f.smallest)
      {
        InputInsideOutput(c, o, g);
        EntryInRange(f, f.entries[0]);
        EntryInRange(g, g.entries[0]);
      }
    }
    if ClearOf(f, InputFiles(c)) {
      SpansInputs(c, o, f);
    }
  }

  lemma InputInsideOutput(c: Inputs, o: FileMetaData, g: FileMetaData)
    requires FileOk(o) && FilesOk(InputFiles(c)) && g in InputFiles(c)
    requires Elements(o.entries) == EntriesOf(InputFiles(c))
    ensures !Less(g.smallest, o.smallest) && !Less(o.largest, g.largest)
  {
    var first, last := g.entries[0], g.entries[|g.entries| - 1];
    assert first in g.entries && last in g.entries;
    assert first in EntriesOf(InputFiles(c)) && last in EntriesOf(InputFiles(c));
    EntryInRange(o, first);
    EntryInRange(o, last);
  }

  lemma SpansInputs(c: Inputs, o: FileMetaData, f: FileMetaData)
    requires FileOk(o) && FilesOk(InputFiles(c))
    requires Elements(o.entries) == EntriesOf(InputFiles(c)) && ClearOf(f, InputFiles(c))
    ensures Apart(f, o)
  {
    var first, last := o.entries[0], o.entries[|o.entries| - 1];
    assert first in Elements(o.entries) && last in Elements(o.entries);
    var g :| g in InputFiles(c) && first in g.entries;
    var h :| h in InputFiles(c) && last in h.entries;
    EntryInRange(g, first);
    EntryInRange(h, last);
  }

  function SingleEntryFile(number: nat, u: UserKey, s: nat): FileMetaData {
    var e := Entry(InternalKey(u, s, Value), "v");
    FileMetaData(number, 10, e.key, e.key, [e])
  }

  /** A manual compaction of the files at 1 and 9 runs at level one while the table
      for 5 is flushed: nothing overlaps it at any level, so it may go to level two,
      where the output is about to span it. */
  lemma FlushIntoGap()
    ensures
      var left, right, flushed := SingleEntryFile(1, 1, 1), SingleEntryFile(2, 9, 2), SingleEntryFile(3, 5, 3);
      var levels: Levels := [[], [left, right], [], [], [], [], []];
      var c := Inputs(1, [left, right], [], 1, 9);
      var o := FileMetaData(4, 20, left.smallest, right.largest, left.entries + right.entries);
      && VersionOk(levels) && InputsOk(levels, c) && BoundaryClosed(levels, c)
      && (forall l :: 0 <= l <= 2 ==> NoneOverlaps(levels[l], flushed.smallest.user, flushed.largest.user))
      && FileOk(o) && EntriesOf([o]) == EntriesOf(InputFiles(c))
      && !Apart(flushed, o)
  {
    hide VersionOk, EntriesOf, BySmallest;
    var left, right := SingleEntryFile(1, 1, 1), SingleEntryFile(2, 9, 2);
    var c := Inputs(1, [left, right], [], 1, 9);
    var o := FileMetaData(4, 20, left.smallest, right.largest, left.entries + right.entries);
    BeforeIsBySmallest(left, right);
    TwoFilesOk(left, right);
    assert left in c.upper && right in c.upper;
    assert InputFiles(c) == [left, right];
    assert ComesBefore([left, right], left, right) by {
      assert [left, right][0] == left && [left, right][1] == right;
    }
    EntriesOfTwo(left, right);
    EntriesOfOne(o);
  }

  lemma BeforeIsBySmallest(f: FileMetaData, g: FileMetaData)
    requires f.smallest.user < g.smallest.user
    ensures BySmallest(f, g)
  {
  }

  lemma TwoFilesOk(left: FileMetaData, right: FileMetaData)
    requires FileOk(left) && FileOk(right) && left.number != right.number
    requires Less(left.largest, right.smallest) && BySmallest(left, right)
    ensures VersionOk([[], [left, right], [], [], [], [], []])
  {
    hide FileOk, BySmallest, Less, VersionOk;
    OneLevelOk([[], [left, right], [], [], [], [], []]);
  }

  /** A version whose only files are in level one. */
  lemma OneLevelOk(levels: Levels)
    requires |levels| == NUM_LEVELS && forall l :: 0 <= l < NUM_LEVELS && l != 1 ==> levels[l] == []
    requires FilesOk(levels[1]) && Disjoint(levels[1]) && Ordered(levels[1]) && DistinctNumbers(levels[1])
    ensures VersionOk(levels)
  {
    hide FileOk, Less, BySmallest, Newer, ShareNothing;
    forall f, g | f in levels[1] && g in levels[1] && f != g
      ensures ShareNothing(f, g)
    {
      DisjointShareNothing(levels[1], f, g);
    }
    assert forall l :: 0 <= l < NUM_LEVELS ==> Ordered(levels[l]);
    assert forall l :: 0 <= l < NUM_LEVELS ==> FilesOk(levels[l]);
    assert forall l :: 0 <= l < NUM_LEVELS ==> Disjoint(levels[l]);
  }

  lemma EntriesOfTwo(a: FileMetaData, b: FileMetaData)
    ensures EntriesOf([a, b]) == Elements(a.entries + b.entries)
  {
    assert a in [a, b] && b in [a, b];
  }

  lemma EntriesOfOne(a: FileMetaData)
    ensures EntriesOf([a]) == Elements(a.entries)
  {
    assert a in [a];
  }
}
