/** The manifest of a run: recovering it at any moment gives the files the engine has. */
module EngineManifest {
  import opened InternalKeys
  import opened Versions
  import opened VersionBuilder
  import opened Compactions
  import opened CompactionInputs
  import opened Engine
  import opened EngineInvariant
  import opened EngineStructure
  import opened Manifest

  /** The file changes that a step logs before it installs the new version. */
  function EditOf(s: State, step: Step): seq<FileEdit> {
    match step
    case Flush(level, fileSize) =>
      if s.imm.None? || s.imm.value == [] then [FileEdit({}, [])]
      else [FileEdit({}, [(level, TableOf(s.imm.value, s.nextFileNumber, fileSize))])]
    case FinishCompaction(_, outputs) =>
      if s.running.Some? then [InstallEdit(s.running.value.inputs, outputs)] else []
    case TrivialMove(c) => [InstallEdit(c, c.upper)]
    case _ => []
  }

  /** All edits logged from moment `i` to moment `j`. */
  function Edits(run: seq<State>, steps: seq<Step>, i: nat, j: nat): seq<FileEdit>
    requires i <= j <= |steps| && |run| == |steps| + 1
  {
    if i == j then [] else Edits(run, steps, i, j - 1) + EditOf(run[j - 1], steps[j - 1])
  }

  // ---------------------------------------------------------------- numbers never come back

  /** The file with number `n` is, or was before, in level `l`. */
  ghost predicate HasNumber(levels: Levels, l: nat, n: nat) {
    l < |levels| && exists f :: f in levels[l] && f.number == n
  }

  ghost predicate Placed(run: seq<State>, i: nat, l: nat, n: nat)
    requires i < |run|
  {
    exists k :: 0 <= k <= i && HasNumber(run[k].levels, l, n)
  }

  /** Numbers that have been placed stay used, are not those of pending outputs, and
      their files only ever move down. */
  ghost predicate NumbersUsed(run: seq<State>, i: nat)
    requires i < |run|
  {
    forall l, n :: Placed(run, i, l, n) ==> Retired(run[i], l, n)
  }

  ghost predicate Retired(s: State, l: nat, n: nat) {
    && n < s.nextFileNumber
    && (s.running.Some? ==> n !in s.running.value.numbers)
    && (forall m: nat :: m < l ==> !HasNumber(s.levels, m, n))
  }

  /** What a step adds to a level. */
  ghost predicate Adds(s: State, step: Step, l: nat, f: FileMetaData) {
    exists e :: e in EditOf(s, step) && (l, f) in e.added
  }

  lemma AddsEdit(s: State, step: Step, e: FileEdit, l: nat, f: FileMetaData)
    requires EditOf(s, step) == [e]
    ensures Adds(s, step, l, f) <==> (l, f) in e.added
  {
    assert e in [e];
  }

  /** A file that a step adds has a new number, the number of a pending output, or
      comes from the level above. */
  lemma AddedNumbers(s: State, t: State, step: Step, l: nat, f: FileMetaData)
    requires Sound(s) && Next(s, t, step) && Adds(s, step, l, f)
    ensures
      || f.number == s.nextFileNumber
      || (s.running.Some? && f.number in s.running.value.numbers)
      || (0 < l <= |s.levels| && f in s.levels[l - 1])
  {
    hide Sound, FlushAllowed, FilesOk, Disjoint, IsMerged, Kept, ApplyEdit;
    var e :| e in EditOf(s, step) && (l, f) in e.added;
    match step
    case Flush(_, _) =>
    case FinishCompaction(_, outputs) =>
      AddedAreOutputs(s.running.value.inputs, outputs, l, f);
    case TrivialMove(c) =>
      AddedAreOutputs(c, c.upper, l, f);
  }

  /** A step leaves the file lists alone, or makes the version of its one edit. */
  lemma StepApplies(s: State, t: State, step: Step)
    requires Sound(s) && Next(s, t, step)
    ensures EditOf(s, step) == [] ==> t.levels == s.levels
    ensures EditOf(s, step) != [] ==>
      |EditOf(s, step)| == 1 && forall l :: 0 <= l < NUM_LEVELS ==>
        t.levels[l] == SaveAt(s.levels[l], ApplyAt(EMPTY_LEVEL, EditOf(s, step)[0], l))
    ensures |t.levels| == |s.levels| == NUM_LEVELS
  {
    LevelCount(s);
    hide Sound, FlushAllowed, InputsOk, OutputsOk, SaveAt, ApplyAt, InstallEdit;
    if step.Flush? && s.imm.value == [] {
      EmptyEditApplies(s.levels);
    }
  }

  /** Each file after a step was in that level before, or is added by the step; and
      what a step adds is there after it. */
  lemma AfterStep(s: State, t: State, step: Step, l: nat, f: FileMetaData)
    requires Sound(s) && Next(s, t, step) && l < |t.levels|
    ensures |t.levels| == |s.levels|
    ensures f in t.levels[l] ==> f in s.levels[l] || Adds(s, step, l, f)
    ensures Adds(s, step, l, f) ==> f in t.levels[l]
  {
    hide Sound, FlushAllowed, InputsOk, OutputsOk, ApplyEdit, InstallEdit, LevelsSound;
    if EditOf(s, step) != [] {
      AddsEdit(s, step, EditOf(s, step)[0], l, f);
    }
    match step
    case Flush(m, size) =>
      SoundParts(s);
      SoundLevels(s.levels);
      if s.imm.value != [] {
        FlushMembers(s.levels, TableOf(s.imm.value, s.nextFileNumber, size), m);
      }
    case FinishCompaction(input, outputs) =>
      SoundParts(s);
      RunningParts(s, s.running.value);
      OutputsInstallOk(s, s.running.value, input, outputs);
      InstallMembers(s.levels, s.running.value.inputs, outputs);
      AddedAreOutputs(s.running.value.inputs, outputs, l, f);
    case TrivialMove(c) =>
      SoundParts(s);
      SoundLevels(s.levels);
      ChosenInputsIn(s.levels, c);
      MoveInstallOk(s.levels, c);
      InstallMembers(s.levels, c, c.upper);
      AddedAreOutputs(c, c.upper, l, f);
    case _ =>
  }

  /** A file found after a step was in that level before, or has a number that was
      free, or was in the level above. */
  lemma HeldAfterStep(s: State, t: State, step: Step, l: nat, n: nat)
    requires Sound(s) && Next(s, t, step) && HasNumber(t.levels, l, n)
    ensures
      || HasNumber(s.levels, l, n)
      || n == s.nextFileNumber
      || (s.running.Some? && n in s.running.value.numbers)
      || (l > 0 && HasNumber(s.levels, l - 1, n))
  {
    hide Sound, Next, EditOf, Adds;
    var f :| f in t.levels[l] && f.number == n;
    AfterStep(s, t, step, l, f);
    if f !in s.levels[l] {
      AddedNumbers(s, t, step, l, f);
    }
  }

  lemma NumbersOfStep(s: State, t: State, step: Step)
    requires Sound(s) && Next(s, t, step)
    ensures s.nextFileNumber <= t.nextFileNumber
    ensures t.running.Some? ==> forall n :: n in t.running.value.numbers ==>
      n == s.nextFileNumber || (s.running.Some? && n in s.running.value.numbers)
  {
    hide Sound, FlushAllowed, InputsOk, OutputsOk, ApplyEdit, InstallEdit, Insert;
  }

  lemma HeldIsCurrent(s: State, l: nat, n: nat)
    requires Sound(s) && HasNumber(s.levels, l, n)
    ensures Retired(s, l, n)
  {
    hide LevelsOk, AllOrdered, FilesApart, MemTablesOk, HistoryOk, SnapshotsOk;
    hide InputsIn, OutputLevelClear, DeeperKnown;
  }

  lemma {:induction false} NumbersStayUsed(run: seq<State>, steps: seq<Step>, i: nat)
    requires IsRun(run, steps) && i < |run|
    ensures NumbersUsed(run, i)
  {
    hide Sound, Next, Init, Retired, HasNumber;
    RunKeepsSound(run, steps, i);
    if i > 0 {
      NumbersStayUsed(run, steps, i - 1);
      RunKeepsSound(run, steps, i - 1);
    }
    forall l, n | Placed(run, i, l, n)
      ensures Retired(run[i], l, n)
    {
      if HasNumber(run[i].levels, l, n) {
        HeldIsCurrent(run[i], l, n);
      } else {
        var k :| 0 <= k <= i && HasNumber(run[k].levels, l, n);
        assert Placed(run, i - 1, l, n);
        RetiredStays(run[i - 1], run[i], steps[i - 1], l, n);
      }
    }
  }

  lemma RetiredStays(s: State, t: State, step: Step, l: nat, n: nat)
    requires Sound(s) && Next(s, t, step) && Retired(s, l, n)
    ensures Retired(t, l, n)
  {
    hide Sound, Next, HasNumber;
    NumbersOfStep(s, t, step);
    forall m: nat | m < l
      ensures !HasNumber(t.levels, m, n)
    {
      if HasNumber(t.levels, m, n) {
        HeldAfterStep(s, t, step, m, n);
      }
    }
  }

  /** A number that a step puts into a level was never there before. */
  lemma AddedIsFresh(run: seq<State>, steps: seq<Step>, i: nat, l: nat, f: FileMetaData)
    requires IsRun(run, steps) && i < |steps| && Adds(run[i], steps[i], l, f)
    ensures !Placed(run, i, l, f.number)
  {
    hide Sound, Next, Init, Adds;
    RunKeepsSound(run, steps, i);
    NumbersStayUsed(run, steps, i);
    AddedNumbers(run[i], run[i + 1], steps[i], l, f);
    if 0 < l <= |run[i].levels| && f in run[i].levels[l - 1] {
      assert HasNumber(run[i].levels, l - 1, f.number);
    }
  }

  lemma AddedIsPlaced(run: seq<State>, steps: seq<Step>, i: nat, l: nat, f: FileMetaData)
    requires IsRun(run, steps) && i < |steps| && Adds(run[i], steps[i], l, f) && l < NUM_LEVELS
    ensures Placed(run, i + 1, l, f.number)
  {
    hide Sound, Next, Init, Adds;
    RunKeepsSound(run, steps, i);
    RunKeepsSound(run, steps, i + 1);
    LevelCount(run[i + 1]);
    AfterStep(run[i], run[i + 1], steps[i], l, f);
    assert HasNumber(run[i + 1].levels, l, f.number);
  }

  /** The file was in some level at some moment up to `j`. */
  ghost predicate Existed(run: seq<State>, j: nat, f: FileMetaData)
    requires j < |run|
  {
    exists k, l :: 0 <= k <= j && 0 <= l < |run[k].levels| && f in run[k].levels[l]
  }

  /** Over a whole run a number stands for one file. */
  lemma {:induction false} OneFilePerNumber(run: seq<State>, steps: seq<Step>, j: nat, f: FileMetaData, g: FileMetaData)
    requires IsRun(run, steps) && j < |run| && Existed(run, j, f) && Existed(run, j, g) && f.number == g.number
    ensures f == g
  {
    hide Next, Init, Sound, Adds, Retired;
    RunKeepsSound(run, steps, j);
    SoundNumbers(run[j]);
    var k, l :| 0 <= k <= j && 0 <= l < |run[k].levels| && f in run[k].levels[l];
    var m, n :| 0 <= m <= j && 0 <= n < |run[m].levels| && g in run[m].levels[n];
    if j > 0 && !(k == m == j) {
      if !Existed(run, j - 1, f) {
        assert k == j;
        NewFileIsNew(run, steps, j - 1, l, f, g);
      } else if !Existed(run, j - 1, g) {
        assert m == j;
        NewFileIsNew(run, steps, j - 1, n, g, f);
      } else {
        OneFilePerNumber(run, steps, j - 1, f, g);
      }
    }
  }

  lemma SoundNumbers(s: State)
    requires Sound(s)
    ensures UniqueNumbers(s.levels) && NumbersBelow(s.levels, s.nextFileNumber)
  {
    hide LevelsOk, AllOrdered, FilesApart, MemTablesOk, HistoryOk, SnapshotsOk, RunningSound;
  }

  /** A file that was nowhere before has a number that was nowhere before. */
  lemma NewFileIsNew(run: seq<State>, steps: seq<Step>, i: nat, l: nat, f: FileMetaData, g: FileMetaData)
    requires IsRun(run, steps) && i < |steps| && l < |run[i + 1].levels| && f in run[i + 1].levels[l]
    requires !Existed(run, i, f) && f.number == g.number && Existed(run, i + 1, g)
    ensures !Existed(run, i, g)
  {
    hide Next, Init, Sound, Adds;
    RunKeepsSound(run, steps, i);
    AfterStep(run[i], run[i + 1], steps[i], l, f);
    WereNowhere(run, i, f);
    AddedNumbers(run[i], run[i + 1], steps[i], l, f);
    if Existed(run, i, g) {
      var n := NumberRetired(run, steps, i, g);
    }
  }

  lemma WereNowhere(run: seq<State>, i: nat, f: FileMetaData)
    requires i < |run| && !Existed(run, i, f)
    ensures forall l :: 0 <= l < |run[i].levels| ==> f !in run[i].levels[l]
  {
  }

  lemma NumberRetired(run: seq<State>, steps: seq<Step>, i: nat, g: FileMetaData) returns (n: nat)
    requires IsRun(run, steps) && i < |run| && Existed(run, i, g)
    ensures Retired(run[i], n, g.number)
  {
    hide Next, Init, Sound, Retired;
    var m;
    m, n :| 0 <= m <= i && 0 <= n < |run[m].levels| && g in run[m].levels[n];
    assert HasNumber(run[m].levels, n, g.number) && Placed(run, i, n, g.number);
    NumbersStayUsed(run, steps, i);
  }

  lemma PlacedStays(run: seq<State>, i: nat, j: nat, l: nat, n: nat)
    requires i <= j < |run| && Placed(run, i, l, n)
    ensures Placed(run, j, l, n)
  {
  }

  // ---------------------------------------------------------------- the manifest of a run

  lemma EditAddsOnce(s: State, t: State, step: Step)
    requires Sound(s) && Next(s, t, step)
    ensures forall e :: e in EditOf(s, step) ==> AddsOnce(e.added)
  {
    hide Sound, FlushAllowed, InputsOk, ApplyEdit, FilesOk, Disjoint, IsMerged, Kept, LevelsSound;
    if step.FinishCompaction? {
      SoundParts(s);
      DistinctPending(s, s.running.value);
    }
  }

  lemma DistinctPending(s: State, r: Running)
    requires RunningSound(s, r)
    ensures forall i, j :: 0 <= i < j < |r.numbers| ==> r.numbers[i] != r.numbers[j]
  {
  }

  ghost predicate AllPlaced(run: seq<State>, edits: seq<FileEdit>, j: nat, l: nat)
    requires j < |run|
  {
    forall k, n :: 0 <= k < |edits| && n in NumbersAt(edits[k].added, l) ==> Placed(run, j, l, n)
  }

  ghost predicate NewlyPlaced(run: seq<State>, e: FileEdit, i: nat, l: nat)
    requires i + 1 < |run|
  {
    forall n :: n in NumbersAt(e.added, l) ==> !Placed(run, i, l, n) && Placed(run, i + 1, l, n)
  }

  /** The edits of a run never put a number into a level twice. */
  lemma {:induction false} EditsAreFresh(run: seq<State>, steps: seq<Step>, i: nat, j: nat, l: nat)
    requires IsRun(run, steps) && i <= j < |run| && l < NUM_LEVELS && |run[i].levels| == NUM_LEVELS
    ensures FreshNumbers(run[i].levels[l], Edits(run, steps, i, j), l)
    ensures AllPlaced(run, Edits(run, steps, i, j), j, l)
  {
    hide Sound, Next, Init, Placed, AddsOnce, EditOf;
    if i < j {
      EditsAreFresh(run, steps, i, j - 1, l);
      var init, last := Edits(run, steps, i, j - 1), EditOf(run[j - 1], steps[j - 1]);
      EditIsFresh(run, steps, j - 1, l, run[i].levels[l], i);
      FreshSnoc(run, run[i].levels[l], init, last, j - 1, l);
    }
  }

  /** The numbers of one step's edit were not placed before it, and are after it. */
  lemma EditIsFresh(run: seq<State>, steps: seq<Step>, i: nat, l: nat, base: Files, b: nat)
    requires IsRun(run, steps) && i < |steps| && l < NUM_LEVELS && b <= i
    requires |run[b].levels| == NUM_LEVELS && base == run[b].levels[l]
    ensures |EditOf(run[i], steps[i])| <= 1
    ensures forall e :: e in EditOf(run[i], steps[i]) ==> AddsOnce(e.added)
    ensures forall e :: e in EditOf(run[i], steps[i]) ==> NewlyPlaced(run, e, i, l)
    ensures forall f :: f in base ==> Placed(run, i, l, f.number)
  {
    hide Sound, Next, Init, Placed, AddsOnce, EditOf;
    RunKeepsSound(run, steps, i);
    StepApplies(run[i], run[i + 1], steps[i]);
    EditAddsOnce(run[i], run[i + 1], steps[i]);
    forall e, n | e in EditOf(run[i], steps[i]) && n in NumbersAt(e.added, l)
      ensures !Placed(run, i, l, n) && Placed(run, i + 1, l, n)
    {
      var p :| p in e.added && p.0 == l && p.1.number == n;
      assert (l, p.1) in e.added && Adds(run[i], steps[i], l, p.1);
      AddedIsFresh(run, steps, i, l, p.1);
      AddedIsPlaced(run, steps, i, l, p.1);
    }
    forall f | f in base
      ensures Placed(run, i, l, f.number)
    {
      BaseIsPlaced(run, b, i, l, f);
    }
  }

  lemma BaseIsPlaced(run: seq<State>, b: nat, i: nat, l: nat, f: FileMetaData)
    requires b <= i < |run| && l < |run[b].levels| && f in run[b].levels[l]
    ensures Placed(run, i, l, f.number)
  {
    assert HasNumber(run[b].levels, l, f.number);
  }

  lemma FreshSnoc(run: seq<State>, base: Files, init: seq<FileEdit>, last: seq<FileEdit>, i: nat, l: nat)
    requires i + 1 < |run| && |last| <= 1
    requires FreshNumbers(base, init, l) && AllPlaced(run, init, i, l)
    requires forall e :: e in last ==> AddsOnce(e.added)
    requires forall e :: e in last ==> NewlyPlaced(run, e, i, l)
    requires forall f :: f in base ==> Placed(run, i, l, f.number)
    ensures FreshNumbers(base, init + last, l) && AllPlaced(run, init + last, i + 1, l)
  {
    hide Placed, AddsOnce;
    var all := init + last;
    forall k, n | 0 <= k < |init| && n in NumbersAt(init[k].added, l)
      ensures Placed(run, i + 1, l, n)
    {
      PlacedStays(run, i, i + 1, l, n);
    }
    if last == [] {
      assert all == init;
    } else {
      var e := last[0];
      assert e in last && all == init + [e] && NewlyPlaced(run, e, i, l);
      forall k, n | 0 <= k < |init| && n in NumbersAt(init[k].added, l)
        ensures n !in NumbersAt(e.added, l)
      {
        assert Placed(run, i, l, n);
      }
    }
  }

  lemma {:induction false} FoldIsRun(run: seq<State>, steps: seq<Step>, i: nat, j: nat, l: nat)
    requires IsRun(run, steps) && i <= j < |run| && l < NUM_LEVELS
    ensures |run[i].levels| == |run[j].levels| == NUM_LEVELS
    ensures FoldAt(run[i].levels[l], Edits(run, steps, i, j), l) == run[j].levels[l]
  {
    hide Sound, Next, Init, EditOf, SaveAt, ApplyAt;
    RunKeepsSound(run, steps, i);
    LevelCount(run[i]);
    if i < j {
      FoldIsRun(run, steps, i, j - 1, l);
      RunKeepsSound(run, steps, j - 1);
      StepApplies(run[j - 1], run[j], steps[j - 1]);
      var init, last := Edits(run, steps, i, j - 1), EditOf(run[j - 1], steps[j - 1]);
      if last == [] {
        assert init + last == init;
      } else {
        assert (init + last)[..|init|] == init;
      }
    }
  }

  /** A manifest begun at any moment of any run, with the record of the version and
      then each edit that the run logs, is recovered at any later moment to exactly
      the files the engine has. */
  lemma RunManifestRecovers(run: seq<State>, steps: seq<Step>, i: nat, j: nat, l: nat)
    requires IsRun(run, steps) && i <= j < |run| && l < NUM_LEVELS
    ensures |run[i].levels| == |run[j].levels| == NUM_LEVELS
    ensures SaveAt([], ReplayAt([FileEdit({}, AllFiles(run[i].levels, NUM_LEVELS))] + Edits(run, steps, i, j), l))
         == run[j].levels[l]
  {
    hide Sound, Next, Init, EditOf, SaveAt, ReplayAt, FoldAt, FreshNumbers, Ordered, DistinctNumbers;
    RunKeepsSound(run, steps, i);
    LevelCount(run[i]);
    EditsAreFresh(run, steps, i, j, l);
    ManifestRecovers(run[i].levels, Edits(run, steps, i, j), l);
    FoldIsRun(run, steps, i, j, l);
  }
}
