/** The engine together with the directory it works in: whatever the engine's steps do to
    versions and memtables, the files that hold them are there. */
module EngineFiles {
  import opened InternalKeys
  import opened Versions
  import opened VersionBuilder
  import opened Compactions
  import opened CompactionInputs
  import E = Engine
  import EI = EngineInvariant
  import ES = EngineStructure
  import O = ObsoleteFiles

  // ---------------------------------------------------------------- versions and their numbers

  ghost function NumbersOf(files: Files): set<nat> {
    set f | f in files :: f.number
  }

  /** File numbers of all tables of a version. */
  ghost function LevelNumbers(levels: Levels): set<nat> {
    set l, f | 0 <= l < |levels| && f in levels[l] :: f.number
  }

  ghost function Sequences(S: set<Entry>): set<nat> {
    set e | e in S :: e.key.sequence
  }

  lemma SequencesSplit(S: set<Entry>, T: set<Entry>)
    ensures Sequences(S + T) == Sequences(S) + Sequences(T)
  {
    forall e | e in S
      ensures e.key.sequence in Sequences(S + T)
    {
      assert e in S + T;
    }
    forall e | e in T
      ensures e.key.sequence in Sequences(S + T)
    {
      assert e in S + T;
    }
  }

  lemma SequencesOfOne(e: Entry)
    ensures Sequences({e}) == {e.key.sequence} && Sequences(Elements([])) == {}
  {
    assert e in {e};
  }

  lemma SomeSequence(entries: seq<Entry>)
    ensures Sequences(Elements(entries)) == {} <==> entries == []
  {
    if entries != [] {
      assert entries[0] in Elements(entries);
      assert entries[0].key.sequence in Sequences(Elements(entries));
    }
  }

  lemma FlushNumbers(levels: Levels, after: Levels, f: FileMetaData, m: nat)
    requires EI.Flushed(levels, after, f, m) && m < |levels|
    ensures LevelNumbers(after) == LevelNumbers(levels) + {f.number}
  {
    forall n | n in LevelNumbers(levels) + {f.number}
      ensures n in LevelNumbers(after)
    {
      if n == f.number {
        assert f in after[m];
      } else {
        var l, g: FileMetaData :| 0 <= l < |levels| && g in levels[l] && g.number == n;
        assert g in after[l];
      }
    }
    forall n | n in LevelNumbers(after)
      ensures n in LevelNumbers(levels) + {f.number}
    {
      var l, g: FileMetaData :| 0 <= l < |after| && g in after[l] && g.number == n;
      assert g in levels[l] || g == f;
    }
  }

  /** Installing outputs takes out the numbers of the inputs and puts in the others. */
  lemma InstallNumbers(levels: Levels, after: Levels, c: Inputs, outputs: Files)
    requires E.UniqueNumbers(levels) && E.InputsIn(levels, c) && EI.Installed(levels, after, c, outputs)
    ensures LevelNumbers(after) == (LevelNumbers(levels) - NumbersOf(InputFiles(c))) + NumbersOf(outputs)
  {
    hide E.AllOrdered;
    forall n | n in LevelNumbers(after)
      ensures n in (LevelNumbers(levels) - NumbersOf(InputFiles(c))) + NumbersOf(outputs)
    {
      var l, g: FileMetaData :| 0 <= l < |after| && g in after[l] && g.number == n;
      assert EI.StaysOrEnters(levels, c, outputs, l, g);
      if g !in outputs {
        OtherNumber(levels, c, l, g);
      }
    }
    forall n | n in LevelNumbers(levels) && n !in NumbersOf(InputFiles(c))
      ensures n in LevelNumbers(after)
    {
      var l, g: FileMetaData :| 0 <= l < |levels| && g in levels[l] && g.number == n;
      assert E.IsInput(c, l, g) ==> g in InputFiles(c);
      assert EI.StaysOrEnters(levels, c, outputs, l, g);
      assert g in after[l];
    }
    forall o | o in outputs
      ensures o.number in LevelNumbers(after)
    {
      assert EI.StaysOrEnters(levels, c, outputs, c.level + 1, o);
      assert o in after[c.level + 1];
    }
  }

  lemma OtherNumber(levels: Levels, c: Inputs, l: nat, g: FileMetaData)
    requires E.UniqueNumbers(levels) && E.InputsIn(levels, c)
    requires l < |levels| && g in levels[l] && !E.IsInput(c, l, g)
    ensures g.number in LevelNumbers(levels) && g.number !in NumbersOf(InputFiles(c))
  {
  }

  lemma InputNumbers(levels: Levels, c: Inputs)
    requires E.InputsIn(levels, c)
    ensures NumbersOf(InputFiles(c)) <= LevelNumbers(levels)
  {
  }

  // ---------------------------------------------------------------- both together

  datatype State = State(engine: E.State, files: O.State)

  datatype Step =
    | Both(engineStep: E.Step, filesStep: O.Step)
    | EngineOnly(engineStep: E.Step)
    | FilesOnly(filesStep: O.Step)

  /** The directory's bookkeeping is that of the engine's state. */
  ghost predicate Rel(s: E.State, o: O.State) {
    && o.current == LevelNumbers(s.levels)
    && o.written == Sequences(s.history) && o.mem == Sequences(Elements(s.mem))
    && (o.imm.Some? <==> s.imm.Some?) && (s.imm.Some? ==> o.imm.value == Sequences(Elements(s.imm.value)))
    && RunningRel(s, o) && FlushRel(s, o)
  }

  ghost predicate RunningRel(s: E.State, o: O.State) {
    && (o.compaction.Some? <==> s.running.Some?)
    && (s.running.Some? ==>
          var r, c := s.running.value, o.compaction.value;
          c.base == LevelNumbers(r.base) && c.inputs == NumbersOf(InputFiles(r.inputs)) && c.outputs == r.numbers)
  }

  /** A flush has its number when its table is begun, the engine when it is installed. */
  ghost predicate FlushRel(s: E.State, o: O.State) {
    && o.nextFileNumber == s.nextFileNumber + (if o.flush.Some? then 1 else 0)
    && (o.flush.Some? ==>
          && s.imm.Some? && o.flush.value.number == s.nextFileNumber
          && (o.flush.value.Logging? ==>
                o.flush.value.version == if s.imm.value == [] then o.current else o.current + {s.nextFileNumber}))
  }

  /** Which steps are one atomic section. */
  ghost predicate Together(s: E.State, e: E.Step, o: O.Step) {
    match o
    case Write(n) => e.Apply? && n == s.lastSequence + s.pending + 1
    case SwitchMemTable => e.SwitchMemTable?
    case FinishFlush => e.Flush?
    case StartCompaction(inputs) => e.StartCompaction? && inputs == NumbersOf(InputFiles(e.inputs))
    case OpenOutput => e.OpenOutput?
    case FinishCompaction => e.FinishCompaction? && s.running.Some? && |e.outputs| == |s.running.value.numbers|
    case _ => false
  }

  predicate Alone(o: O.Step) {
    o.Pin? || o.Unpin? || o.StartFlush? || o.FinishTable? || o.CreateOutput? || o.LogCompaction?
  }

  ghost predicate Next(a: State, b: State, step: Step) {
    match step
    case Both(e, o) =>
      Together(a.engine, e, o) && E.Next(a.engine, b.engine, e) && O.Next(a.files, b.files, o)
    case EngineOnly(e) =>
      && (e.Publish? || e.NewSnapshot? || e.ReleaseSnapshot? || e.TrivialMove?)
      && E.Next(a.engine, b.engine, e) && b.files == a.files
    case FilesOnly(o) =>
      Alone(o) && O.Next(a.files, b.files, o) && b.engine == a.engine
  }

  ghost predicate Inv(a: State) {
    E.Sound(a.engine) && O.Inv(a.files) && Rel(a.engine, a.files)
  }

  // ---------------------------------------------------------------- every step keeps them together

  lemma WriteKeepsRel(a: State, b: State, e: E.Step, o: O.Step)
    requires Inv(a) && Next(a, b, Both(e, o)) && o.Write?
    ensures Rel(b.engine, b.files)
  {
    hide E.Sound, O.Inv, Sequences, LevelNumbers, NumbersOf, E.Insert;
    var s := a.engine;
    var entry := E.NewEntry(s, e.user, e.kind, e.value);
    ES.InsertElements(s.mem, entry);
    SequencesSplit(Elements(s.mem), {entry});
    SequencesSplit(s.history, {entry});
    SequencesOfOne(entry);
  }

  lemma SwitchKeepsRel(a: State, b: State, e: E.Step, o: O.Step)
    requires Inv(a) && Next(a, b, Both(e, o)) && o.SwitchMemTable?
    ensures Rel(b.engine, b.files)
  {
    hide E.Sound, Sequences, LevelNumbers, NumbersOf, O.LogsOk, O.VersionFiles, O.CompactionOk;
    SequencesOfOne(Entry(InternalKey(0, 0, Value), ""));
  }

  lemma FlushKeepsRel(a: State, b: State, e: E.Step, o: O.Step)
    requires Inv(a) && Next(a, b, Both(e, o)) && o.FinishFlush?
    ensures Rel(b.engine, b.files)
  {
    hide E.LevelsSound, O.Inv, E.MemTablesOk, E.HistoryOk, E.RunningSound, E.SnapshotsOk, E.FlushAllowed, ApplyEdit,
         E.NumbersBelow, Sequences, LevelNumbers, NumbersOf, EI.Flushed;
    var s := a.engine;
    if s.imm.value != [] {
      var f := E.TableOf(s.imm.value, s.nextFileNumber, e.fileSize);
      ES.SoundParts(s);
      ES.SoundLevels(s.levels);
      ES.LevelCount(s);
      LevelInRange(s, f, e.level);
      EI.FlushMembers(s.levels, f, e.level);
      FlushNumbers(s.levels, b.engine.levels, f, e.level);
    }
  }

  lemma LevelInRange(s: E.State, f: FileMetaData, level: nat)
    requires E.FlushAllowed(s, f, level)
    ensures level < NUM_LEVELS
  {
  }

  lemma StartKeepsRel(a: State, b: State, e: E.Step, o: O.Step)
    requires Inv(a) && Next(a, b, Both(e, o)) && (o.StartCompaction? || o.OpenOutput?)
    ensures Rel(b.engine, b.files)
  {
    hide E.Sound, O.Inv, InputsOk, Sequences, LevelNumbers, NumbersOf;
  }

  lemma FinishKeepsRel(a: State, b: State, e: E.Step, o: O.Step)
    requires Inv(a) && Next(a, b, Both(e, o)) && o.FinishCompaction?
    ensures Rel(b.engine, b.files)
  {
    hide E.LevelsSound, O.LogsOk, O.VersionFiles, O.FlushOk, E.MemTablesOk, E.HistoryOk, E.RunningSound, E.SnapshotsOk,
         ApplyEdit, E.InstallEdit, E.NumbersBelow, E.OutputsOk, E.InputsIn, Sequences, LevelNumbers, NumbersOf, EI.Installed, EI.InstallOk;
    var s := a.engine;
    var r := s.running.value;
    ES.SoundParts(s);
    ES.SoundLevels(s.levels);
    ES.RunningParts(s, r);
    ES.OutputsInstallOk(s, r, e.input, e.outputs);
    EI.InstallMembers(s.levels, r.inputs, e.outputs);
    InstallNumbers(s.levels, b.engine.levels, r.inputs, e.outputs);
    OutputNumbers(r, e.input, e.outputs, a.files.compaction.value);
  }

  lemma OutputNumbers(r: E.Running, input: seq<Entry>, outputs: Files, c: O.Compaction)
    requires E.OutputsOk(r, input, outputs) && |outputs| == |r.numbers| && c.outputs == r.numbers
    ensures NumbersOf(outputs) == O.Outputs(c)
  {
    forall n | n in O.Outputs(c)
      ensures n in NumbersOf(outputs)
    {
      var i :| 0 <= i < |c.outputs| && c.outputs[i] == n;
      assert outputs[i] in outputs && outputs[i].number == n;
    }
  }

  lemma MoveKeepsRel(a: State, b: State, e: E.Step)
    requires Inv(a) && Next(a, b, EngineOnly(e)) && e.TrivialMove?
    ensures Rel(b.engine, b.files)
  {
    hide E.LevelsSound, O.Inv, E.MemTablesOk, E.HistoryOk, E.RunningSound, E.SnapshotsOk,
         ApplyEdit, E.InstallEdit, E.NumbersBelow, E.InputsIn, InputsOk, Sequences, LevelNumbers, NumbersOf, EI.Installed, EI.InstallOk;
    var s := a.engine;
    var c := e.move;
    ES.SoundParts(s);
    ES.SoundLevels(s.levels);
    ES.ChosenInputsIn(s.levels, c);
    ES.MoveInstallOk(s.levels, c);
    EI.InstallMembers(s.levels, c, c.upper);
    InstallNumbers(s.levels, b.engine.levels, c, c.upper);
    InputNumbers(s.levels, c);
    assert InputFiles(c) == c.upper;
  }

  lemma AloneKeepsRel(a: State, b: State, o: O.Step)
    requires Inv(a) && Next(a, b, FilesOnly(o))
    ensures Rel(b.engine, b.files)
  {
    hide E.Sound, Sequences, LevelNumbers, NumbersOf, O.LogsOk, O.VersionFiles, O.CompactionOk;
    if o.FinishTable? {
      SomeSequence(a.engine.imm.value);
    }
  }

  lemma NextKeepsInv(a: State, b: State, step: Step)
    requires Inv(a) && Next(a, b, step)
    ensures Inv(b)
  {
    hide E.Sound, O.Inv, Rel, E.Next, O.Next;
    match step
    case Both(e, o) =>
      ES.NextKeepsSound(a.engine, b.engine, e);
      O.NextKeepsInv(a.files, b.files, o);
      match o {
        case Write(_) => WriteKeepsRel(a, b, e, o);
        case SwitchMemTable => SwitchKeepsRel(a, b, e, o);
        case FinishFlush => FlushKeepsRel(a, b, e, o);
        case FinishCompaction => FinishKeepsRel(a, b, e, o);
        case StartCompaction(_) => StartKeepsRel(a, b, e, o);
        case OpenOutput => StartKeepsRel(a, b, e, o);
        case _ =>
      }
    case EngineOnly(e) =>
      ES.NextKeepsSound(a.engine, b.engine, e);
      if e.TrivialMove? {
        MoveKeepsRel(a, b, e);
      } else {
        QuietKeepsRel(a, b, e);
      }
    case FilesOnly(o) =>
      O.NextKeepsInv(a.files, b.files, o);
      AloneKeepsRel(a, b, o);
  }

  lemma QuietKeepsRel(a: State, b: State, e: E.Step)
    requires Inv(a) && Next(a, b, EngineOnly(e)) && !e.TrivialMove?
    ensures Rel(b.engine, b.files)
  {
    hide E.Sound, O.Inv, Sequences, LevelNumbers, NumbersOf;
  }

  // ---------------------------------------------------------------- no step of the engine is shut out

  /** What the background thread has done to the directory before the engine's step. */
  predicate Ready(o: O.State, e: E.Step) {
    match e
    case Flush(_, _) => o.flush.Some? && o.flush.value.Logging?
    case StartCompaction(_) => o.flush.None? && o.imm.None?
    case OpenOutput =>
      && o.flush.None? && o.compaction.Some? && o.compaction.value.logging.None?
      && o.compaction.value.created == |o.compaction.value.outputs|
    case FinishCompaction(_, outputs) =>
      && o.flush.None? && o.compaction.Some? && o.compaction.value.logging.Some?
      && |outputs| == |o.compaction.value.outputs|
    case _ => true
  }

  /** What the directory does along with a step of the engine. */
  ghost function FilesStep(s: E.State, e: E.Step): (r: Option<O.Step>)
  {
    match e
    case Apply(_, _, _) => Some(O.Write(s.lastSequence + s.pending + 1))
    case SwitchMemTable => Some(O.SwitchMemTable)
    case Flush(_, _) => Some(O.FinishFlush)
    case StartCompaction(c) => Some(O.StartCompaction(NumbersOf(InputFiles(c))))
    case OpenOutput => Some(O.OpenOutput)
    case FinishCompaction(_, _) => Some(O.FinishCompaction)
    case _ => None
  }

  ghost function FilesAfter(o: O.State, step: O.Step): O.State {
    match step
    case Write(e) =>
      o.(mem := o.mem + {e}, written := o.written + {e},
         logs := o.logs[o.logfileNumber := (if o.logfileNumber in o.logs then o.logs[o.logfileNumber] else {}) + {e}])
    case SwitchMemTable =>
      o.(imm := Some(o.mem), mem := {}, logfileNumber := o.nextFileNumber,
         nextFileNumber := o.nextFileNumber + 1, logs := o.logs[o.nextFileNumber := {}])
    case FinishFlush =>
      if o.flush.Some? && o.flush.value.Logging? && o.imm.Some? then
        O.Swept(o.(current := o.flush.value.version, logNumber := o.flush.value.logNumber,
                   imm := None, flush := None, installed := o.installed + o.imm.value))
      else o
    case StartCompaction(inputs) => o.(compaction := Some(O.Compaction(o.current, inputs, [], 0, None)))
    case OpenOutput =>
      if o.compaction.Some? then
        o.(nextFileNumber := o.nextFileNumber + 1, pending := o.pending + {o.nextFileNumber},
           compaction := Some(o.compaction.value.(outputs := o.compaction.value.outputs + [o.nextFileNumber])))
      else o
    case FinishCompaction =>
      if o.compaction.Some? && o.compaction.value.logging.Some? then
        O.Swept(o.(current := o.compaction.value.logging.value,
                   pending := o.pending - O.Outputs(o.compaction.value), compaction := None))
      else o
    case _ => o
  }

  /** Whatever the engine does next, the directory can go along with once it is ready. */
  lemma FilesFollow(a: State, t: E.State, e: E.Step)
    requires Inv(a) && E.Next(a.engine, t, e) && Ready(a.files, e)
    ensures
      var o := FilesStep(a.engine, e);
      if o.Some? then Next(a, State(t, FilesAfter(a.files, o.value)), Both(e, o.value))
      else Next(a, State(t, a.files), EngineOnly(e))
  {
    hide E.LevelsSound, E.MemTablesOk, E.RunningSound, E.SnapshotsOk, E.NumbersBelow, InputsOk, Sequences, LevelNumbers,
         NumbersOf, O.VersionFiles, O.Swept, O.Next, FilesAfter, E.OutputsOk, E.FlushAllowed;
    var o := FilesStep(a.engine, e);
    if o.Some? {
      assert Together(a.engine, e, o.value);
      FilesGoAlong(a, t, e);
    }
  }

  lemma FilesGoAlong(a: State, t: E.State, e: E.Step)
    requires Inv(a) && E.Next(a.engine, t, e) && Ready(a.files, e) && FilesStep(a.engine, e).Some?
    ensures O.Next(a.files, FilesAfter(a.files, FilesStep(a.engine, e).value), FilesStep(a.engine, e).value)
  {
    hide E.LevelsSound, E.MemTablesOk, E.RunningSound, E.SnapshotsOk, E.NumbersBelow, LevelNumbers, NumbersOf,
         O.VersionFiles, O.Swept, E.OutputsOk, E.FlushAllowed, InputsOk;
    if e.Apply? {
      assert a.engine.lastSequence + a.engine.pending + 1 !in Sequences(a.engine.history);
    } else if e.StartCompaction? {
      ES.SoundParts(a.engine);
      ES.SoundLevels(a.engine.levels);
      ES.ChosenInputsIn(a.engine.levels, e.inputs);
      InputNumbers(a.engine.levels, e.inputs);
    }
  }

  // ---------------------------------------------------------------- whole runs

  ghost predicate Init(a: State) {
    E.Init(a.engine) && O.Init(a.files) && Rel(a.engine, a.files)
  }

  ghost predicate IsRun(run: seq<State>, steps: seq<Step>) {
    && |run| == |steps| + 1
    && Init(run[0])
    && forall i :: 0 <= i < |steps| ==> Next(run[i], run[i + 1], steps[i])
  }

  lemma {:induction false} RunKeepsInv(run: seq<State>, steps: seq<Step>, i: nat)
    requires IsRun(run, steps) && i < |run|
    ensures Inv(run[i])
  {
    hide E.Sound, O.Inv, Rel, Next, E.Init, O.Init;
    if i == 0 {
      ES.InitInv(run[0].engine);
      O.InitInv(run[0].files);
    } else {
      RunKeepsInv(run, steps, i - 1);
      NextKeepsInv(run[i - 1], run[i], steps[i - 1]);
    }
  }

  /** A version that a reader has pinned is one the engine had. */
  lemma {:induction false} ReaderPinned(run: seq<State>, steps: seq<Step>, i: nat, k: nat) returns (j: nat)
    requires IsRun(run, steps) && i < |run| && k < |run[i].files.readers|
    ensures j <= i && run[i].files.readers[k] == LevelNumbers(run[j].engine.levels)
  {
    hide E.Sound, O.Inv, Next, Rel, Init, LevelNumbers, NumbersOf;
    if i == 0 {
      NoReaders(run[0]);
    } else {
      var before, now := run[i - 1].files.readers, run[i].files.readers;
      ReadersStep(run[i - 1], run[i], steps[i - 1]);
      if now == before + [run[i - 1].files.current] && k == |before| {
        j := i - 1;
        RunKeepsInv(run, steps, i - 1);
        CurrentIs(run[i - 1]);
      } else {
        var k' := if now == before || (k < |before| && now[k] == before[k]) then k else k + 1;
        j := ReaderPinned(run, steps, i - 1, k');
      }
    }
  }

  lemma NoReaders(a: State)
    requires Init(a)
    ensures a.files.readers == []
  {
  }

  lemma CurrentIs(a: State)
    requires Inv(a)
    ensures a.files.current == LevelNumbers(a.engine.levels)
  {
  }

  lemma ReadersStep(a: State, b: State, step: Step)
    requires Next(a, b, step)
    ensures
      var before, now := a.files.readers, b.files.readers;
      || now == before
      || now == before + [a.files.current]
      || exists n :: 0 <= n < |before| && now == before[..n] + before[n + 1..]
  {
    hide E.Next;
  }

  /** At every moment of every run the directory holds each table of the current
      version, of a running compaction's inputs and of each version a reader holds; and
      each entry in a memtable is in a log that is there and that a recovery would read. */
  lemma FilesAreThere(run: seq<State>, steps: seq<Step>, i: nat)
    requires IsRun(run, steps) && i < |run|
    ensures forall l, f :: 0 <= l < |run[i].engine.levels| && f in run[i].engine.levels[l] ==> f.number in run[i].files.tables
    ensures run[i].engine.running.Some? ==>
      forall f :: f in InputFiles(run[i].engine.running.value.inputs) ==> f.number in run[i].files.tables
    ensures forall k :: 0 <= k < |run[i].files.readers| ==>
      && run[i].files.readers[k] <= run[i].files.tables
      && exists j: nat :: j <= i && run[i].files.readers[k] == LevelNumbers(run[j].engine.levels)
    ensures forall e :: e in run[i].engine.mem || e in E.ImmEntries(run[i].engine) ==> O.InOlderLog(run[i].files, e.key.sequence)
  {
    hide E.Sound, O.CompactionOk, O.FlushOk, Next, Init;
    var a := run[i];
    RunKeepsInv(run, steps, i);
    assert a.files.current <= a.files.tables;
    if a.engine.running.Some? {
      var r := a.engine.running.value;
      RunningInputs(a);
    }
    forall k | 0 <= k < |a.files.readers|
      ensures a.files.readers[k] <= a.files.tables
      ensures exists j: nat :: j <= i && a.files.readers[k] == LevelNumbers(run[j].engine.levels)
    {
      assert a.files.readers[k] <= O.ReaderFiles(a.files.readers);
      var j := ReaderPinned(run, steps, i, k);
    }
    forall e | e in a.engine.mem || e in E.ImmEntries(a.engine)
      ensures O.InOlderLog(a.files, e.key.sequence)
    {
      MemTableLogged(a, e);
    }
  }

  lemma RunningInputs(a: State)
    requires Inv(a) && a.engine.running.Some?
    ensures NumbersOf(InputFiles(a.engine.running.value.inputs)) <= a.files.current
  {
    hide E.LevelsSound, E.MemTablesOk, E.HistoryOk, E.SnapshotsOk, O.Inv, E.InputsIn, E.NumbersBelow;
    var r := a.engine.running.value;
    ES.RunningParts(a.engine, r);
    InputNumbers(a.engine.levels, r.inputs);
  }

  lemma MemTableLogged(a: State, e: Entry)
    requires Inv(a) && (e in a.engine.mem || e in E.ImmEntries(a.engine))
    ensures O.InOlderLog(a.files, e.key.sequence)
  {
    hide E.Sound, O.CompactionOk, O.FlushOk, O.VersionFiles;
    if e in a.engine.mem {
      assert e in Elements(a.engine.mem);
      assert e.key.sequence in a.files.mem;
    } else {
      assert e in Elements(a.engine.imm.value);
      assert e.key.sequence in a.files.imm.value;
    }
  }
}
