/** Deleting files nobody needs: the sweep itself, and why no run of the engine ever
    loses a file that is still needed. */
module ObsoleteFiles {
  import opened InternalKeys
  import opened Versions

  // ---------------------------------------------------------------- the sweep

  datatype FileName =
    | LogFile(number: nat) | DescriptorFile(number: nat) | TableFile(number: nat) | TempFile(number: nat)
    | CurrentFile | LockFile | InfoLogFile
    | ForeignFile(name: string)

  /** File numbers of the tables of all live versions. */
  ghost predicate InVersions(versions: seq<Levels>, n: nat) {
    exists v, l, f :: 0 <= v < |versions| && 0 <= l < |versions[v]| && f in versions[v][l] && f.number == n
  }

  method AddLiveFiles(versions: seq<Levels>, pending: set<nat>) returns (live: set<nat>)
    ensures forall n :: n in live <==> n in pending || InVersions(versions, n)
  {
    live := pending;
    for v := 0 to |versions|
      invariant forall n :: n in live <==> n in pending || InVersions(versions[..v], n)
    {
      ghost var before := live;
      var levels := versions[v];
      for l := 0 to |levels|
        invariant forall n :: n in live <==> n in before || InVersions([levels[..l]], n)
      {
        ghost var start := live;
        var files := levels[l];
        for i := 0 to |files|
          invariant forall n :: n in live <==> n in start || exists f :: f in files[..i] && f.number == n
        {
          assert files[..i + 1] == files[..i] + [files[i]];
          live := live + {files[i].number};
        }
        assert files[..|files|] == files;
        LevelStep(levels, l);
      }
      assert levels[..|levels|] == levels;
      VersionStep(versions, v);
    }
    assert versions[..|versions|] == versions;
  }

  lemma LevelStep(levels: Levels, l: nat)
    requires l < |levels|
    ensures forall n :: InVersions([levels[..l + 1]], n) <==>
      InVersions([levels[..l]], n) || exists f :: f in levels[l] && f.number == n
  {
    var a, b := [levels[..l]], [levels[..l + 1]];
    forall n
      ensures InVersions(b, n) <==> InVersions(a, n) || exists f :: f in levels[l] && f.number == n
    {
      if InVersions(b, n) {
        var v, k, f: FileMetaData :| 0 <= v < |b| && 0 <= k < |b[v]| && f in b[v][k] && f.number == n;
        assert k < l ==> f in a[v][k];
      }
      if InVersions(a, n) {
        var v, k, f: FileMetaData :| 0 <= v < |a| && 0 <= k < |a[v]| && f in a[v][k] && f.number == n;
        assert f in b[v][k];
      }
      if f: FileMetaData :| f in levels[l] && f.number == n {
        assert f in b[0][l];
      }
    }
  }

  lemma VersionStep(versions: seq<Levels>, v: nat)
    requires v < |versions|
    ensures forall n :: InVersions(versions[..v + 1], n) <==> InVersions(versions[..v], n) || InVersions([versions[v]], n)
  {
    var a, b := versions[..v], versions[..v + 1];
    forall n
      ensures InVersions(b, n) <==> InVersions(a, n) || InVersions([versions[v]], n)
    {
      if InVersions(b, n) {
        var w, l, f: FileMetaData :| 0 <= w < |b| && 0 <= l < |b[w]| && f in b[w][l] && f.number == n;
        if w < v {
          assert f in a[w][l];
        } else {
          assert f in [versions[v]][0][l];
        }
      }
      if InVersions(a, n) {
        var w, l, f: FileMetaData :| 0 <= w < |a| && 0 <= l < |a[w]| && f in a[w][l] && f.number == n;
        assert f in b[w][l];
      }
      if InVersions([versions[v]], n) {
        var w, l, f: FileMetaData :| 0 <= w < 1 && 0 <= l < |[versions[v]][w]| && f in [versions[v]][w][l] && f.number == n;
        assert f in b[v][l];
      }
    }
  }

  /** Numbers that decide what is kept. */
  datatype Numbers = Numbers(log: nat, prevLog: nat, manifest: nat)

  predicate Needed(name: FileName, live: set<nat>, numbers: Numbers) {
    match name
    case LogFile(n) => n >= numbers.log || n == numbers.prevLog
    case DescriptorFile(n) => n >= numbers.manifest
    case TableFile(n) => n in live
    case TempFile(n) => n in live
    case _ => true
  }

  /** The directory has the tables and logs of the state. */
  ghost predicate Holds(directory: seq<FileName>, s: State) {
    && (forall n :: TableFile(n) in directory <==> n in s.tables)
    && (forall n :: LogFile(n) in directory <==> n in s.logs)
  }

  /** What the sweep is given is what the state says. */
  ghost predicate Describes(versions: seq<Levels>, pending: set<nat>, numbers: Numbers, s: State) {
    && (forall n :: InVersions(versions, n) <==> n in VersionFiles(s))
    && pending == s.pending && numbers.log == s.logNumber && numbers.prevLog !in s.logs
  }

  /** Goes through the directory and deletes what is not needed. For the state `s` of the
      engine's files this is the sweep of its steps. */
  method DeleteObsoleteFiles(directory: seq<FileName>, versions: seq<Levels>, pending: set<nat>, numbers: Numbers, ghost s: State)
    returns (kept: seq<FileName>)
    ensures Holds(directory, s) && Describes(versions, pending, numbers, s) ==> Holds(kept, Swept(s))
    ensures forall name :: name in kept <==> name in directory && match name
      case LogFile(n) => n >= numbers.log || n == numbers.prevLog
      case DescriptorFile(n) => n >= numbers.manifest
      case TableFile(n) => n in pending || InVersions(versions, n)
      case TempFile(n) => n in pending || InVersions(versions, n)
      case _ => true
  {
    hide InVersions, VersionFiles;
    var live := AddLiveFiles(versions, pending);
    kept := [];
    for i := 0 to |directory|
      invariant forall name :: name in kept <==> name in directory[..i] && Needed(name, live, numbers)
    {
      assert directory[..i + 1] == directory[..i] + [directory[i]];
      var keep := true;
      match directory[i] {
        case LogFile(n) => keep := n >= numbers.log || n == numbers.prevLog;
        case DescriptorFile(n) => keep := n >= numbers.manifest;
        case TableFile(n) => keep := n in live;
        case TempFile(n) => keep := n in live;
        case _ =>
      }
      if keep {
        kept := kept + [directory[i]];
      }
    }
    assert directory[..|directory|] == directory;
  }

  // ---------------------------------------------------------------- the engine's files

  /** The flush of the immutable memtable into table `number`: its file is being
      built, or the edit that adds it is being written to the manifest. */
  datatype Flush =
    | Building(number: nat)
    | Logging(number: nat, version: set<nat>, logNumber: nat)

  /** A compaction: the version it holds on to, its input tables, the outputs it has
      opened, how many of them have a file, and the version being logged at the end. */
  datatype Compaction = Compaction(
    base: set<nat>, inputs: set<nat>, outputs: seq<nat>, created: nat, logging: Option<set<nat>>)

  /** Versions are the sets of their tables' numbers; entries are their sequence
      numbers. `readers` are versions held by reads and iterators. `installed` are the
      entries that a flush has put into an installed table. */
  datatype State = State(
    tables: set<nat>, logs: map<nat, set<nat>>,
    current: set<nat>, readers: seq<set<nat>>, pending: set<nat>,
    nextFileNumber: nat, logNumber: nat, logfileNumber: nat,
    mem: set<nat>, imm: Option<set<nat>>,
    flush: Option<Flush>, compaction: Option<Compaction>,
    written: set<nat>, installed: set<nat>)

  function ReaderFiles(readers: seq<set<nat>>): set<nat> {
    set i, n | 0 <= i < |readers| && n in readers[i] :: n
  }

  /** Tables of all versions in the list of live versions. */
  function VersionFiles(s: State): set<nat> {
    s.current + ReaderFiles(s.readers) + if s.compaction.Some? then s.compaction.value.base else {}
  }

  /** The state after DeleteObsoleteFiles. */
  function Swept(s: State): State {
    s.(tables := s.tables * (s.pending + VersionFiles(s)),
       logs := map n | n in s.logs && n >= s.logNumber :: s.logs[n])
  }

  datatype Step =
    | Write(entry: nat)
    | SwitchMemTable
    | Pin
    | Unpin(index: nat)
    | StartFlush
    | FinishTable(empty: bool)
    | FinishFlush
    | StartCompaction(inputs: set<nat>)
    | OpenOutput
    | CreateOutput
    | LogCompaction
    | FinishCompaction

  /** The atomic sections. There is one background thread: a flush runs in it alone,
      or in the middle of a compaction, and only it sweeps. */
  ghost predicate Next(s: State, t: State, step: Step) {
    match step
    case Write(e) =>
      && e !in s.written && s.logfileNumber in s.logs
      && t == s.(mem := s.mem + {e}, written := s.written + {e},
                 logs := s.logs[s.logfileNumber := s.logs[s.logfileNumber] + {e}])
    case SwitchMemTable =>
      && s.imm.None?
      && t == s.(imm := Some(s.mem), mem := {}, logfileNumber := s.nextFileNumber,
                 nextFileNumber := s.nextFileNumber + 1, logs := s.logs[s.nextFileNumber := {}])
    case Pin =>
      t == s.(readers := s.readers + [s.current])
    case Unpin(i) =>
      i < |s.readers| && t == s.(readers := s.readers[..i] + s.readers[i + 1..])
    case StartFlush =>
      && s.imm.Some? && s.flush.None?
      && (s.compaction.Some? ==> s.compaction.value.logging.None?)
      && t == s.(nextFileNumber := s.nextFileNumber + 1, pending := s.pending + {s.nextFileNumber},
                 flush := Some(Building(s.nextFileNumber)))
    case FinishTable(empty) =>
      // the number is no longer pending before the edit is logged
      && s.imm.Some? && s.flush.Some? && s.flush.value.Building? && (empty <==> s.imm.value == {})
      && var n := s.flush.value.number;
      && t == s.(pending := s.pending - {n}, tables := if empty then s.tables else s.tables + {n},
                 flush := Some(Logging(n, if empty then s.current else s.current + {n}, s.logfileNumber)))
    case FinishFlush =>
      && s.imm.Some? && s.flush.Some? && s.flush.value.Logging?
      && t == Swept(s.(current := s.flush.value.version, logNumber := s.flush.value.logNumber,
                       imm := None, flush := None, installed := s.installed + s.imm.value))
    case StartCompaction(inputs) =>
      && s.compaction.None? && s.flush.None? && s.imm.None? && inputs <= s.current
      && t == s.(compaction := Some(Compaction(s.current, inputs, [], 0, None)))
    case OpenOutput =>
      && s.compaction.Some? && s.flush.None? && s.compaction.value.logging.None?
      && var c := s.compaction.value;
      && c.created == |c.outputs|
      && t == s.(nextFileNumber := s.nextFileNumber + 1, pending := s.pending + {s.nextFileNumber},
                 compaction := Some(c.(outputs := c.outputs + [s.nextFileNumber])))
    case CreateOutput =>
      && s.compaction.Some? && s.compaction.value.created < |s.compaction.value.outputs|
      && var c := s.compaction.value;
      && t == s.(tables := s.tables + {c.outputs[c.created]}, compaction := Some(c.(created := c.created + 1)))
    case LogCompaction =>
      && s.compaction.Some? && s.flush.None? && s.compaction.value.logging.None?
      && var c := s.compaction.value;
      && c.created == |c.outputs|
      && t == s.(compaction := Some(c.(logging := Some((s.current - c.inputs) + Outputs(c)))))
    case FinishCompaction =>
      && s.compaction.Some? && s.flush.None? && s.compaction.value.logging.Some?
      && var c := s.compaction.value;
      && t == Swept(s.(current := c.logging.value, pending := s.pending - Outputs(c), compaction := None))
  }

  function Outputs(c: Compaction): set<nat> {
    set n | n in c.outputs
  }

  /** An opened database: nothing in progress, old logs hold nothing that is missing. */
  ghost predicate Init(s: State) {
    && s.readers == [] && s.pending == {} && s.imm.None? && s.flush.None? && s.compaction.None?
    && s.current <= s.tables && (forall n :: n in s.tables ==> n < s.nextFileNumber)
    && s.logNumber <= s.logfileNumber < s.nextFileNumber
    && s.logfileNumber in s.logs && s.mem <= s.logs[s.logfileNumber]
    && (forall n :: n in s.logs ==> n <= s.logfileNumber)
    && s.installed + s.mem == s.written
  }

  // ---------------------------------------------------------------- the invariant

  ghost predicate CompactionOk(s: State) {
    s.compaction.Some? ==>
      var c := s.compaction.value;
      && c.created <= |c.outputs|
      && (forall i :: 0 <= i < c.created ==> c.outputs[i] in s.tables)
      && (forall i :: 0 <= i < |c.outputs| ==> c.outputs[i] in s.pending && c.outputs[i] < s.nextFileNumber)
      && (c.logging.Some? ==>
            s.flush.None? && c.created == |c.outputs| && c.logging.value == (s.current - c.inputs) + Outputs(c))
  }

  ghost predicate FlushOk(s: State) {
    s.flush.Some? ==>
      && s.imm.Some?
      && (s.compaction.Some? ==>
            s.compaction.value.logging.None? && s.flush.value.number !in s.compaction.value.outputs)
      && (s.flush.value.Logging? ==>
            && s.flush.value.version <= s.tables
            && s.flush.value.logNumber == s.logfileNumber)
  }

  /** Unflushed entries are in a log that neither the sweep nor a recovery passes over. */
  ghost predicate LogsOk(s: State) {
    && s.logNumber <= s.logfileNumber < s.nextFileNumber
    && (forall n :: n in s.logs ==> n <= s.logfileNumber)
    && s.logfileNumber in s.logs && s.mem <= s.logs[s.logfileNumber]
    && (s.imm.Some? ==> forall e :: e in s.imm.value ==> InOlderLog(s, e))
    && s.written == s.installed + s.mem + if s.imm.Some? then s.imm.value else {}
  }

  ghost predicate InOlderLog(s: State, e: nat) {
    exists n :: n in s.logs && s.logNumber <= n && e in s.logs[n]
  }

  ghost predicate Inv(s: State) {
    && VersionFiles(s) <= s.tables
    && CompactionOk(s) && FlushOk(s) && LogsOk(s)
  }

  lemma SweepKeeps(s: State)
    requires VersionFiles(s) <= s.tables && CompactionOk(s) && LogsOk(s) && s.flush.None?
    ensures Inv(Swept(s))
  {
    hide ReaderFiles;
    var t := Swept(s);
    if s.imm.Some? {
      forall e | e in s.imm.value
        ensures InOlderLog(t, e)
      {
        var n :| n in s.logs && s.logNumber <= n && e in s.logs[n];
        assert n in t.logs && t.logs[n] == s.logs[n];
      }
    }
  }

  lemma FinishFlushKeepsInv(s: State, t: State)
    requires Inv(s) && Next(s, t, FinishFlush)
    ensures Inv(t)
  {
    hide ReaderFiles;
    var m := s.(current := s.flush.value.version, logNumber := s.flush.value.logNumber,
                imm := None, flush := None, installed := s.installed + s.imm.value);
    SweepKeeps(m);
  }

  lemma FinishCompactionKeepsInv(s: State, t: State)
    requires Inv(s) && Next(s, t, FinishCompaction)
    ensures Inv(t)
  {
    hide ReaderFiles;
    var c := s.compaction.value;
    var m := s.(current := c.logging.value, pending := s.pending - Outputs(c), compaction := None);
    forall n | n in Outputs(c)
      ensures n in s.tables
    {
      var i :| 0 <= i < |c.outputs| && c.outputs[i] == n;
    }
    assert LogsOk(m) by {
      if s.imm.Some? {
        forall e | e in s.imm.value
          ensures InOlderLog(m, e)
        {
          assert InOlderLog(s, e);
        }
      }
    }
    SweepKeeps(m);
  }

  lemma WriteKeepsInv(s: State, t: State, step: Step)
    requires Inv(s) && (step.Write? || step.SwitchMemTable?) && Next(s, t, step)
    ensures Inv(t)
  {
    hide ReaderFiles;
    if t.imm.Some? {
      forall e | e in t.imm.value
        ensures InOlderLog(t, e)
      {
        if s.imm.Some? {
          var n :| n in s.logs && s.logNumber <= n && e in s.logs[n];
          assert n in t.logs && e in t.logs[n];
        } else {
          var n := s.logfileNumber;
          assert n in t.logs && e in t.logs[n];
        }
      }
    }
  }

  /** Steps that leave the logs alone. */
  lemma QuietKeepsInv(s: State, t: State, step: Step)
    requires Inv(s) && Next(s, t, step)
    requires !step.Write? && !step.SwitchMemTable? && !step.FinishFlush? && !step.FinishCompaction?
    ensures Inv(t)
  {
    if s.imm.Some? {
      forall e | e in s.imm.value
        ensures InOlderLog(t, e)
      {
        assert InOlderLog(s, e);
      }
    }
    if step.OpenOutput? {
      var c := s.compaction.value;
      assert forall i :: 0 <= i < c.created ==> (c.outputs + [s.nextFileNumber])[i] == c.outputs[i];
    }
  }

  /** Every step keeps what is needed, and a step with a sweep leaves nothing else. */
  lemma NextKeepsInv(s: State, t: State, step: Step)
    requires Inv(s) && Next(s, t, step)
    ensures Inv(t)
    ensures step.FinishFlush? || step.FinishCompaction? ==>
      && t.tables <= t.pending + VersionFiles(t)
      && (forall n :: n in t.logs ==> n >= t.logNumber)
      && (step.FinishFlush? ==> t.logs.Keys == {t.logfileNumber})
  {
    hide Inv, Next;
    if step.FinishFlush? || step.FinishCompaction? {
      SweepIsComplete(s, t, step);
    }
    match step
    case Write(_) => WriteKeepsInv(s, t, step);
    case SwitchMemTable => WriteKeepsInv(s, t, step);
    case FinishFlush => FinishFlushKeepsInv(s, t);
    case FinishCompaction => FinishCompactionKeepsInv(s, t);
    case _ => QuietKeepsInv(s, t, step);
  }

  ghost predicate IsRun(run: seq<State>, steps: seq<Step>) {
    && |run| == |steps| + 1
    && Init(run[0])
    && forall i :: 0 <= i < |steps| ==> Next(run[i], run[i + 1], steps[i])
  }

  lemma InitInv(s: State)
    requires Init(s)
    ensures Inv(s)
  {
  }

  lemma {:induction false} RunKeepsInv(run: seq<State>, steps: seq<Step>, i: nat)
    requires IsRun(run, steps) && i < |run|
    ensures Inv(run[i])
  {
    hide Inv, Next, Init;
    if i == 0 {
      InitInv(run[0]);
    } else {
      RunKeepsInv(run, steps, i - 1);
      NextKeepsInv(run[i - 1], run[i], steps[i - 1]);
    }
  }

  // ---------------------------------------------------------------- nothing needed is ever gone

  /** At every moment of every run the directory holds the tables of every live
      version, the inputs of a running compaction and the outputs it has created, and
      the table that a flush is about to install. */
  lemma TablesStay(run: seq<State>, steps: seq<Step>, i: nat)
    requires IsRun(run, steps) && i < |run|
    ensures run[i].current <= run[i].tables
    ensures forall k :: 0 <= k < |run[i].readers| ==> run[i].readers[k] <= run[i].tables
    ensures run[i].compaction.Some? ==>
      && run[i].compaction.value.inputs <= run[i].tables
      && forall k :: 0 <= k < run[i].compaction.value.created && k < |run[i].compaction.value.outputs| ==>
           run[i].compaction.value.outputs[k] in run[i].tables
    ensures run[i].flush.Some? && run[i].flush.value.Logging? ==> run[i].flush.value.version <= run[i].tables
  {
    RunKeepsInv(run, steps, i);
    InputsHeld(run, steps, i);
    var s := run[i];
    forall k | 0 <= k < |s.readers|
      ensures s.readers[k] <= s.tables
    {
      assert s.readers[k] <= ReaderFiles(s.readers);
    }
  }

  lemma {:induction false} InputsHeld(run: seq<State>, steps: seq<Step>, i: nat)
    requires IsRun(run, steps) && i < |run|
    ensures run[i].compaction.Some? ==> run[i].compaction.value.inputs <= run[i].compaction.value.base
  {
    hide Init;
    if i == 0 {
      InitQuiet(run[0]);
    } else {
      InputsHeld(run, steps, i - 1);
      assert Next(run[i - 1], run[i], steps[i - 1]);
    }
  }

  lemma InitQuiet(s: State)
    requires Init(s)
    ensures s.compaction.None?
  {
  }

  /** At every moment each entry ever written is in an installed table, or in a log
      that is still there and that a recovery would read. */
  lemma EntriesStay(run: seq<State>, steps: seq<Step>, i: nat, e: nat)
    requires IsRun(run, steps) && i < |run| && e in run[i].written
    ensures e in run[i].installed || InOlderLog(run[i], e)
  {
    RunKeepsInv(run, steps, i);
  }

  lemma SweepIsComplete(s: State, t: State, step: Step)
    requires Inv(s) && Next(s, t, step) && (step.FinishFlush? || step.FinishCompaction?)
    ensures t.tables <= t.pending + VersionFiles(t)
    ensures forall n :: n in t.logs ==> n >= t.logNumber
    ensures step.FinishFlush? ==> t.logs.Keys == {t.logfileNumber}
  {
    hide ReaderFiles;
  }
}
