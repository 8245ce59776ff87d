/** The storage engine as a state machine. The steps are the atomic sections of the
    writer, the flush, the compaction and the snapshot calls. One half of the invariant
    says that what is stored is in good order; the other, that it still tells every live
    reader what was written. */
module Engine {
  import opened InternalKeys
  import opened Versions
  import opened VersionBuilder
  import opened Compactions
  import opened CompactionInputs

  /** A compaction between its start and its installation: `base` is the version it
      reads, `numbers` the output files it has opened. */
  datatype Running = Running(inputs: Inputs, smallestSnapshot: nat, base: Levels, numbers: seq<nat>)

  /** `pending` entries of the write in progress are in the memtable but not yet
      published. `history` holds everything ever written; at and above `floor` the
      stored entries still determine every view. */
  datatype State = State(
    mem: seq<Entry>, imm: Option<seq<Entry>>, levels: Levels,
    lastSequence: nat, pending: nat, snapshots: seq<nat>,
    nextFileNumber: nat, running: Option<Running>,
    history: set<Entry>, floor: nat)

  function ImmEntries(s: State): seq<Entry> {
    if s.imm.Some? then s.imm.value else []
  }

  ghost function Stored(s: State): set<Entry> {
    Elements(s.mem) + Elements(ImmEntries(s)) + LevelEntries(s.levels)
  }

  // ---------------------------------------------------------------- the invariant

  ghost predicate UniqueNumbers(levels: Levels) {
    forall l, m, f, g ::
      (0 <= l < |levels| && 0 <= m < |levels| && f in levels[l] && g in levels[m] && f.number == g.number)
      ==> l == m && f == g
  }

  ghost predicate NumbersBelow(levels: Levels, n: nat) {
    forall l, f :: 0 <= l < |levels| && f in levels[l] ==> f.number < n
  }

  ghost predicate AllOrdered(levels: Levels) {
    forall l :: 0 <= l < |levels| ==> Ordered(levels[l])
  }

  ghost predicate ShareNothing(f: FileMetaData, g: FileMetaData) {
    forall e :: e in f.entries ==> e !in g.entries
  }

  /** No entry is stored in two files. */
  ghost predicate FilesApart(levels: Levels) {
    forall l, m, f, g ::
      0 <= l < |levels| && 0 <= m < |levels| && f in levels[l] && g in levels[m] && f != g ==> ShareNothing(f, g)
  }

  /** A version in good order: sorted disjoint levels of different files. */
  ghost predicate LevelsSound(levels: Levels) {
    LevelsOk(levels) && AllOrdered(levels) && UniqueNumbers(levels) && FilesApart(levels)
  }

  /** In addition, newer entries are shallower. */
  ghost predicate VersionOk(levels: Levels) {
    LevelsSound(levels) && Recency(levels)
  }

  ghost predicate AllNewer(A: set<Entry>, B: set<Entry>) {
    forall a, b :: a in A && b in B ==> a.key.sequence > b.key.sequence
  }

  ghost predicate MemTablesOk(s: State) {
    && Sorted(s.mem) && Sorted(ImmEntries(s))
    && AllNewer(Elements(s.mem), Elements(ImmEntries(s)))
    && AllNewer(Elements(s.mem), LevelEntries(s.levels))
    && AllNewer(Elements(ImmEntries(s)), LevelEntries(s.levels))
  }

  ghost predicate OneEntryPerSequence(S: set<Entry>) {
    forall a, b :: a in S && b in S && a.key.sequence == b.key.sequence ==> a == b
  }

  ghost predicate HistoryOk(s: State) {
    && Stored(s) <= s.history
    && OneEntryPerSequence(s.history)
    && (forall e :: e in s.history ==> 0 < e.key.sequence <= s.lastSequence + s.pending)
    && s.lastSequence + s.pending < MAX_SEQUENCE_NUMBER
  }

  ghost predicate SnapshotsOk(s: State) {
    && s.floor <= s.lastSequence
    && (forall i :: 0 <= i < |s.snapshots| ==> s.floor <= s.snapshots[i] <= s.lastSequence)
    && (forall i, j :: 0 <= i < j < |s.snapshots| ==> s.snapshots[i] <= s.snapshots[j])
  }

  ghost predicate IsInput(c: Inputs, l: nat, f: FileMetaData) {
    (l == c.level && f in c.upper) || (l == c.level + 1 && f in c.lower)
  }

  ghost predicate InputsIn(levels: Levels, c: Inputs) {
    && c.level + 1 < |levels| && c.upper != []
    && (forall f :: f in c.upper ==> f in levels[c.level])
    && (forall f :: f in c.lower ==> f in levels[c.level + 1])
  }

  /** Down to the output level, the other files hold nothing older than the inputs. */
  ghost predicate OthersNewer(levels: Levels, c: Inputs) {
    forall l, f, g ::
      (0 <= l <= c.level + 1 && l < |levels| && f in levels[l] && !IsInput(c, l, f) && g in InputFiles(c))
      ==> Newer(f, g)
  }

  /** The part of this that later lookups rely on. */
  ghost predicate ShallowerNewer(levels: Levels, c: Inputs) {
    forall l, f, g ::
      (0 <= l <= c.level && l < |levels| && f in levels[l] && !IsInput(c, l, f) && g in InputFiles(c)) ==> Newer(f, g)
  }

  /** At the output level, the other files lie before or after all of the inputs. */
  ghost predicate ClearOf(f: FileMetaData, files: Files) {
    (forall g :: g in files ==> Less(f.largest, g.smallest)) || (forall g :: g in files ==> Less(g.largest, f.smallest))
  }

  ghost predicate OutputLevelClear(levels: Levels, c: Inputs) {
    c.level + 1 < |levels| ==>
      forall f :: f in levels[c.level + 1] && f !in c.lower ==> ClearOf(f, InputFiles(c))
  }

  ghost predicate NoSharedUser(f: FileMetaData, g: FileMetaData) {
    f.largest.user < g.smallest.user || g.largest.user < f.smallest.user
  }

  /** Deeper files are those the compaction knows of, or share no key with it. */
  ghost predicate DeeperKnown(levels: Levels, r: Running) {
    forall l, f :: r.inputs.level + 2 <= l < |levels| && l < |r.base| && f in levels[l] && f !in r.base[l] ==>
      forall g :: g in InputFiles(r.inputs) ==> NoSharedUser(f, g)
  }

  /** What a running compaction relies on. */
  ghost predicate RunningSound(s: State, r: Running) {
    && LevelsOk(r.base)
    && InputsIn(s.levels, r.inputs)
    && OutputLevelClear(s.levels, r.inputs)
    && DeeperKnown(s.levels, r)
    && r.smallestSnapshot <= s.lastSequence
    && (forall i :: 0 <= i < |s.snapshots| ==> r.smallestSnapshot <= s.snapshots[i])
    && (forall i :: 0 <= i < |r.numbers| ==> r.numbers[i] < s.nextFileNumber)
    && (forall i, j :: 0 <= i < j < |r.numbers| ==> r.numbers[i] != r.numbers[j])
    && (forall i, l, f :: 0 <= i < |r.numbers| && 0 <= l < |s.levels| && f in s.levels[l] ==> f.number != r.numbers[i])
  }

  /** Whatever is compacted. */
  ghost predicate Sound(s: State) {
    && LevelsSound(s.levels) && NumbersBelow(s.levels, s.nextFileNumber)
    && MemTablesOk(s)
    && HistoryOk(s)
    && SnapshotsOk(s)
    && (s.running.Some? ==> RunningSound(s, s.running.value))
  }

  /** As long as no compaction leaves behind a file that continues an input. */
  ghost predicate Faithful(s: State) {
    && Recency(s.levels)
    && SameViews(Stored(s), s.history, s.floor)
    && (s.running.Some? ==> OthersNewer(s.levels, s.running.value.inputs))
  }

  ghost predicate Inv(s: State) {
    Sound(s) && Faithful(s)
  }

  // ---------------------------------------------------------------- the steps

  datatype Step =
    | Apply(user: UserKey, kind: ValueType, value: string)
    | Publish
    | SwitchMemTable
    | Flush(level: nat, fileSize: nat)
    | NewSnapshot
    | ReleaseSnapshot(index: nat)
    | StartCompaction(inputs: Inputs)
    | OpenOutput
    | FinishCompaction(input: seq<Entry>, outputs: Files)
    | TrivialMove(move: Inputs)

  function Insert(mem: seq<Entry>, e: Entry): seq<Entry> {
    var i := SeekIndex(mem, e.key);
    mem[..i] + [e] + mem[i..]
  }

  function NewEntry(s: State, u: UserKey, kind: ValueType, value: string): Entry {
    Entry(InternalKey(u, s.lastSequence + s.pending + 1, kind), value)
  }

  /** The table a memtable is flushed to. */
  function TableOf(entries: seq<Entry>, number: nat, size: nat): FileMetaData
    requires entries != []
  {
    FileMetaData(number, size, entries[0].key, entries[|entries| - 1].key, entries)
  }

  /** Where the code puts a memtable's table (see PickLevelForMemTableOutput). */
  ghost predicate FlushPlaced(levels: Levels, f: FileMetaData, level: nat) {
    && level <= MAX_MEM_COMPACT_LEVEL
    && (level > 0 ==> forall l :: 0 <= l <= level && l < |levels| ==> NoneOverlaps(levels[l], f.smallest.user, f.largest.user))
  }

  /** What the code does not check: while a compaction with a gap between its inputs
      runs, a table put straight into its output level stays out of the gap. */
  ghost predicate OutOfGap(s: State, f: FileMetaData, level: nat) {
    s.running.Some? && s.running.value.inputs.level + 1 == level && !Covered(InputFiles(s.running.value.inputs)) ==>
      ClearOf(f, InputFiles(s.running.value.inputs))
  }

  ghost predicate FlushAllowed(s: State, f: FileMetaData, level: nat) {
    FlushPlaced(s.levels, f, level) && OutOfGap(s, f, level)
  }

  /** `f` continues, right behind `g`, the entries of g's last user key. */
  predicate Continues(f: FileMetaData, g: FileMetaData) {
    Less(g.largest, f.smallest) && g.largest.user == f.smallest.user
  }

  /** No file of the upper level is left behind that continues the last user key of
      an upper input. */
  ghost predicate UpperClosed(levels: Levels, c: Inputs)
    requires c.level < |levels|
  {
    c.level > 0 ==> forall f, g :: f in levels[c.level] && f !in c.upper && g in c.upper ==> !Continues(f, g)
  }

  ghost predicate LowerClosed(levels: Levels, c: Inputs)
    requires c.level + 1 < |levels|
  {
    forall f, g :: f in levels[c.level + 1] && f !in c.lower && g in c.lower ==> !Continues(f, g)
  }

  /** No file is left behind that continues an input of its own level. The code does
      not enforce this. */
  ghost predicate BoundaryClosed(levels: Levels, c: Inputs)
    requires c.level + 1 < |levels|
  {
    UpperClosed(levels, c) && LowerClosed(levels, c)
  }

  function SmallestSnapshot(s: State): nat {
    if s.snapshots == [] then s.lastSequence else s.snapshots[0]
  }

  function InstallEdit(c: Inputs, outputs: Files): FileEdit {
    FileEdit(
      (set f | f in c.upper :: (c.level, f.number)) + (set f | f in c.lower :: (c.level + 1, f.number)),
      seq(|outputs|, i requires 0 <= i < |outputs| => (c.level + 1, outputs[i])))
  }

  /** `input` is the merged stream of the compaction's inputs. */
  ghost predicate IsMerged(input: seq<Entry>, c: Inputs) {
    Sorted(input) && Elements(input) == EntriesOf(InputFiles(c))
  }

  ghost predicate OutputsOk(r: Running, input: seq<Entry>, outputs: Files) {
    && IsMerged(input, r.inputs)
    && Flatten(outputs) == Kept(input, |input|, r.smallestSnapshot, r.base, r.inputs.level)
    && FilesOk(outputs) && Disjoint(outputs)
    && |outputs| <= |r.numbers|
    && forall i :: 0 <= i < |outputs| ==> outputs[i].number == r.numbers[i]
  }

  ghost predicate Next(s: State, t: State, step: Step) {
    match step
    case Apply(u, kind, value) =>
      var e := NewEntry(s, u, kind, value);
      && s.lastSequence + s.pending + 1 < MAX_SEQUENCE_NUMBER
      && t == s.(mem := Insert(s.mem, e), pending := s.pending + 1, history := s.history + {e})
    case Publish =>
      t == s.(lastSequence := s.lastSequence + s.pending, pending := 0)
    case SwitchMemTable =>
      // the new log takes a file number
      && s.imm.None? && s.pending == 0
      && t == s.(mem := [], imm := Some(s.mem), nextFileNumber := s.nextFileNumber + 1)
    case Flush(level, fileSize) =>
      && s.imm.Some?
      && if s.imm.value == [] then t == s.(imm := None, nextFileNumber := s.nextFileNumber + 1)
         else
           var f := TableOf(s.imm.value, s.nextFileNumber, fileSize);
           && FlushAllowed(s, f, level)
           && t == s.(imm := None, nextFileNumber := s.nextFileNumber + 1,
                      levels := ApplyEdit(s.levels, FileEdit({}, [(level, f)])))
    case NewSnapshot =>
      t == s.(snapshots := s.snapshots + [s.lastSequence])
    case ReleaseSnapshot(i) =>
      i < |s.snapshots| && t == s.(snapshots := s.snapshots[..i] + s.snapshots[i + 1..])
    case StartCompaction(c) =>
      && s.running.None? && InputsOk(s.levels, c)
      && t == s.(running := Some(Running(c, SmallestSnapshot(s), s.levels, [])))
    case OpenOutput =>
      && s.running.Some?
      && t == s.(nextFileNumber := s.nextFileNumber + 1,
                 running := Some(s.running.value.(numbers := s.running.value.numbers + [s.nextFileNumber])))
    case FinishCompaction(input, outputs) =>
      && s.running.Some?
      && var r := s.running.value;
      && OutputsOk(r, input, outputs)
      && t == s.(running := None, floor := if r.smallestSnapshot > s.floor then r.smallestSnapshot else s.floor,
                 levels := ApplyEdit(s.levels, InstallEdit(r.inputs, outputs)))
    case TrivialMove(c) =>
      && s.running.None? && InputsOk(s.levels, c)
      && |c.upper| == 1 && c.lower == []
      && t == s.(levels := ApplyEdit(s.levels, InstallEdit(c, c.upper)))
  }

  /** What a step compacts is closed. */
  ghost predicate ClosedStep(s: State, step: Step) {
    && (step.StartCompaction? && step.inputs.level + 1 < |s.levels| ==> BoundaryClosed(s.levels, step.inputs))
    && (step.TrivialMove? && step.move.level + 1 < |s.levels| ==> BoundaryClosed(s.levels, step.move))
  }

  predicate Init(s: State) {
    && s.mem == [] && s.imm.None? && s.levels == seq(NUM_LEVELS, _ => [])
    && s.lastSequence == 0 && s.pending == 0 && s.snapshots == []
    && s.running.None? && s.history == {} && s.floor == 0
  }

  /** A run of the engine from its empty state. */
  ghost predicate IsRun(run: seq<State>, steps: seq<Step>) {
    && |run| == |steps| + 1
    && Init(run[0])
    && forall i :: 0 <= i < |steps| ==> Next(run[i], run[i + 1], steps[i])
  }

  /** A run in which all compactions are closed. */
  ghost predicate IsClosedRun(run: seq<State>, steps: seq<Step>) {
    && IsRun(run, steps)
    && forall i :: 0 <= i < |steps| ==> ClosedStep(run[i], steps[i])
  }
}
