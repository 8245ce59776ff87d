/** Every step of the engine keeps the invariant. */
module EngineInvariant {
  import opened InternalKeys
  import opened Versions
  import opened VersionBuilder
  import opened Compactions
  import opened CompactionInputs
  import opened Engine

  // ---------------------------------------------------------------- installing files into a version

  ghost function RestEntries(levels: Levels, c: Inputs): set<Entry> {
    set l, f, e | 0 <= l < |levels| && f in levels[l] && !IsInput(c, l, f) && e in f.entries :: e
  }

  /** The output files are well formed, hold only input entries, and their numbers
      are taken by no file that stays. */
  ghost predicate InstallOk(levels: Levels, c: Inputs, outputs: Files) {
    && FilesOk(outputs) && Disjoint(outputs)
    && EntriesOf(outputs) <= EntriesOf(InputFiles(c))
    && DistinctNumbers(outputs)
    && forall o, l, f :: o in outputs && 0 <= l < |levels| && f in levels[l] && f.number == o.number
         ==> l == c.level && f in c.upper
  }

  /** `after` is `levels` with the inputs taken out and the outputs put in. */
  ghost predicate Installed(levels: Levels, after: Levels, c: Inputs, outputs: Files) {
    && |after| == |levels|
    && AllOrdered(after)
    && forall l, f :: 0 <= l < |levels| ==> (f in after[l] <==> StaysOrEnters(levels, c, outputs, l, f))
  }

  ghost predicate StaysOrEnters(levels: Levels, c: Inputs, outputs: Files, l: nat, f: FileMetaData)
    requires l < |levels|
  {
    (f in levels[l] && !IsInput(c, l, f)) || (l == c.level + 1 && f in outputs)
  }

  lemma DeletedAreInputs(levels: Levels, c: Inputs, outputs: Files, l: nat, f: FileMetaData)
    requires UniqueNumbers(levels) && InputsIn(levels, c) && l < |levels| && f in levels[l]
    ensures f.number in DeletedAt(InstallEdit(c, outputs).deleted, l) <==> IsInput(c, l, f)
  {
    var deleted := InstallEdit(c, outputs).deleted;
    if (l, f.number) in deleted {
      if l == c.level {
        var g :| g in c.upper && g.number == f.number;
        assert g in levels[l];
      } else {
        var g :| g in c.lower && g.number == f.number;
        assert g in levels[l];
      }
    }
    if IsInput(c, l, f) {
      assert (l, f.number) in deleted;
    }
  }

  lemma AddedAreOutputs(c: Inputs, outputs: Files, l: nat, f: FileMetaData)
    ensures (l, f) in InstallEdit(c, outputs).added <==> l == c.level + 1 && f in outputs
  {
    var added := InstallEdit(c, outputs).added;
    if f in outputs && l == c.level + 1 {
      var i :| 0 <= i < |outputs| && outputs[i] == f;
      assert added[i] == (l, f);
    }
  }

  lemma InstallMembers(levels: Levels, c: Inputs, outputs: Files)
    requires LevelsSound(levels) && InputsIn(levels, c) && InstallOk(levels, c, outputs)
    ensures Installed(levels, ApplyEdit(levels, InstallEdit(c, outputs)), c, outputs)
  {
    var edit := InstallEdit(c, outputs);
    assert forall l, f :: 0 <= l < |levels| && f in levels[l] ==> f.number !in NumbersAt(edit.added, l);
    ApplyEditSpec(levels, edit);
    forall l, f | 0 <= l < |levels|
      ensures InAfter(levels, edit, l, f) <==> StaysOrEnters(levels, c, outputs, l, f)
    {
      if f in levels[l] {
        DeletedAreInputs(levels, c, outputs, l, f);
      }
      AddedAreOutputs(c, outputs, l, f);
    }
  }

  /** An output lies inside the range of the inputs. */
  lemma OutputInRange(c: Inputs, outputs: Files, o: FileMetaData, f: FileMetaData)
    requires FilesOk(outputs) && o in outputs && FilesOk(InputFiles(c))
    requires EntriesOf(outputs) <= EntriesOf(InputFiles(c))
    requires ClearOf(f, InputFiles(c))
    ensures Apart(f, o)
  {
    hide Sorted, Disjoint;
    var first, last := o.entries[0], o.entries[|o.entries| - 1];
    assert first in o.entries && last in o.entries;
    assert first in EntriesOf(outputs) && last in EntriesOf(outputs);
    var g :| g in InputFiles(c) && first in g.entries;
    var h :| h in InputFiles(c) && last in h.entries;
    EntryInRange(g, first);
    EntryInRange(h, last);
  }

  lemma InstallKeepsSound(levels: Levels, after: Levels, c: Inputs, outputs: Files)
    requires LevelsSound(levels) && InputsIn(levels, c) && InstallOk(levels, c, outputs)
    requires OutputLevelClear(levels, c) && Installed(levels, after, c, outputs)
    ensures LevelsSound(after)
    ensures LevelEntries(after) == RestEntries(levels, c) + EntriesOf(outputs)
  {
    hide LevelsOk, AllOrdered, UniqueNumbers, FilesApart, InputsIn, InstallOk, OutputLevelClear, LevelEntries, RestEntries;
    InstallKeepsLevels(levels, after, c, outputs);
    InstallKeepsUnique(levels, after, c, outputs);
    InstallKeepsApart(levels, after, c, outputs);
    InstallEntries(levels, after, c, outputs);
  }

  lemma InstallKeepsApart(levels: Levels, after: Levels, c: Inputs, outputs: Files)
    requires UniqueNumbers(levels) && FilesApart(levels) && InputsIn(levels, c) && InstallOk(levels, c, outputs)
    requires Installed(levels, after, c, outputs)
    ensures FilesApart(after)
  {
    forall l, m, f, g | 0 <= l < |after| && 0 <= m < |after| && f in after[l] && g in after[m] && f != g
      ensures ShareNothing(f, g)
    {
      assert StaysOrEnters(levels, c, outputs, l, f) && StaysOrEnters(levels, c, outputs, m, g);
      InstalledShareNothing(levels, c, outputs, l, m, f, g);
    }
  }

  lemma InstalledShareNothing(levels: Levels, c: Inputs, outputs: Files, l: nat, m: nat, f: FileMetaData, g: FileMetaData)
    requires UniqueNumbers(levels) && FilesApart(levels) && InputsIn(levels, c) && InstallOk(levels, c, outputs)
    requires l < |levels| && m < |levels| && f != g
    requires StaysOrEnters(levels, c, outputs, l, f) && StaysOrEnters(levels, c, outputs, m, g)
    ensures ShareNothing(f, g)
  {
    hide FilesOk, Disjoint, FileOk, ShareNothing, UniqueNumbers;
    var fIn, gIn := f in levels[l] && !IsInput(c, l, f), g in levels[m] && !IsInput(c, m, g);
    if !fIn && !gIn {
      assert f in outputs && g in outputs;
      DisjointShareNothing(outputs, f, g);
    } else if !fIn {
      StaysApart(levels, c, outputs, m, g, f);
    } else if !gIn {
      StaysApart(levels, c, outputs, l, f, g);
    }
  }

  lemma DisjointShareNothing(outputs: Files, f: FileMetaData, g: FileMetaData)
    requires FilesOk(outputs) && Disjoint(outputs) && f in outputs && g in outputs && f != g
    ensures ShareNothing(f, g)
  {
    DisjointIsApart(outputs, f, g);
    forall e | e in f.entries
      ensures e !in g.entries
    {
      ApartShareNothing(f, g, e);
    }
  }

  lemma ApartShareNothing(f: FileMetaData, g: FileMetaData, e: Entry)
    requires FileOk(f) && FileOk(g) && Apart(f, g) && e in f.entries
    ensures e !in g.entries
  {
    if e in g.entries {
      EntryInRange(f, e);
      EntryInRange(g, e);
    }
  }

  /** A file that stays has nothing of the inputs, so nothing of an output. */
  lemma StaysApart(levels: Levels, c: Inputs, outputs: Files, l: nat, f: FileMetaData, o: FileMetaData)
    requires FilesApart(levels) && InputsIn(levels, c) && EntriesOf(outputs) <= EntriesOf(InputFiles(c))
    requires l < |levels| && f in levels[l] && !IsInput(c, l, f) && o in outputs && UniqueNumbers(levels)
    ensures ShareNothing(f, o) && ShareNothing(o, f)
  {
    forall e | e in o.entries
      ensures e !in f.entries
    {
      assert e in EntriesOf(outputs);
      var g :| g in InputFiles(c) && e in g.entries;
      var k := if g in c.upper then c.level else c.level + 1;
      assert g in levels[k];
      assert f != g by {
        assert f == g ==> l == k;
      }
      assert ShareNothing(g, f);
    }
  }

  lemma InstallKeepsUnique(levels: Levels, after: Levels, c: Inputs, outputs: Files)
    requires UniqueNumbers(levels) && InstallOk(levels, c, outputs)
    requires Installed(levels, after, c, outputs)
    ensures UniqueNumbers(after)
  {
  }

  lemma InstallEntries(levels: Levels, after: Levels, c: Inputs, outputs: Files)
    requires InputsIn(levels, c) && Installed(levels, after, c, outputs)
    ensures LevelEntries(after) == RestEntries(levels, c) + EntriesOf(outputs)
  {
    forall e | e in LevelEntries(after)
      ensures e in RestEntries(levels, c) + EntriesOf(outputs)
    {
      var l :| 0 <= l < |after| && e in EntriesOf(after[l]);
      var f: FileMetaData :| f in after[l] && e in f.entries;
      assert StaysOrEnters(levels, c, outputs, l, f);
    }
    forall e | e in RestEntries(levels, c)
      ensures e in LevelEntries(after)
    {
      var l, f :| 0 <= l < |levels| && f in levels[l] && !IsInput(c, l, f) && e in f.entries;
      assert StaysOrEnters(levels, c, outputs, l, f) && f in after[l];
      assert e in EntriesOf(after[l]);
    }
    forall e | e in EntriesOf(outputs)
      ensures e in LevelEntries(after)
    {
      var o :| o in outputs && e in o.entries;
      assert StaysOrEnters(levels, c, outputs, c.level + 1, o) && o in after[c.level + 1];
      assert e in EntriesOf(after[c.level + 1]);
    }
  }

  lemma InstallKeepsLevels(levels: Levels, after: Levels, c: Inputs, outputs: Files)
    requires LevelsOk(levels) && AllOrdered(levels) && InputsIn(levels, c) && InstallOk(levels, c, outputs)
    requires OutputLevelClear(levels, c) && Installed(levels, after, c, outputs)
    ensures LevelsOk(after)
  {
    assert FilesOk(InputFiles(c));
    forall l | 0 <= l < NUM_LEVELS
      ensures FilesOk(after[l])
    {
      assert forall f :: f in after[l] ==> StaysOrEnters(levels, c, outputs, l, f);
    }
    forall l | 0 < l < NUM_LEVELS
      ensures Disjoint(after[l])
    {
      forall f, g | f in after[l] && g in after[l] && f != g
        ensures Apart(f, g)
      {
        InstalledApart(levels, c, outputs, l, f, g);
      }
      ApartIsDisjoint(after[l]);
    }
  }

  lemma InstalledApart(levels: Levels, c: Inputs, outputs: Files, l: nat, f: FileMetaData, g: FileMetaData)
    requires LevelsOk(levels) && FilesOk(InputFiles(c)) && InstallOk(levels, c, outputs)
    requires OutputLevelClear(levels, c) && 0 < l < NUM_LEVELS && f != g
    requires StaysOrEnters(levels, c, outputs, l, f) && StaysOrEnters(levels, c, outputs, l, g)
    ensures Apart(f, g)
  {
    if l == c.level + 1 && f in outputs {
      if g in outputs {
        DisjointIsApart(outputs, f, g);
      } else {
        OutputInRange(c, outputs, f, g);
      }
    } else if l == c.level + 1 && g in outputs {
      OutputInRange(c, outputs, g, f);
    } else {
      DisjointIsApart(levels[l], f, g);
    }
  }

  lemma DisjointIsApart(files: Files, f: FileMetaData, g: FileMetaData)
    requires Disjoint(files) && f in files && g in files && f != g
    ensures Apart(f, g)
  {
    var i :| 0 <= i < |files| && files[i] == f;
    var j :| 0 <= j < |files| && files[j] == g;
  }

  lemma InstallKeepsRecency(levels: Levels, after: Levels, c: Inputs, outputs: Files)
    requires Recency(levels) && InputsIn(levels, c) && InstallOk(levels, c, outputs)
    requires ShallowerNewer(levels, c) && Installed(levels, after, c, outputs)
    ensures Recency(after)
  {
    forall l, m, f, g | 0 <= l < m < |after| && f in after[l] && g in after[m]
      ensures Newer(f, g)
    {
      InstalledNewer(levels, c, outputs, l, m, f, g);
    }
    if |after| > 0 {
      assert forall f :: f in after[0] ==> StaysOrEnters(levels, c, outputs, 0, f);
    }
  }

  lemma InstalledNewer(levels: Levels, c: Inputs, outputs: Files, l: nat, m: nat, f: FileMetaData, g: FileMetaData)
    requires Recency(levels) && InputsIn(levels, c) && InstallOk(levels, c, outputs) && ShallowerNewer(levels, c)
    requires l < m < |levels|
    requires StaysOrEnters(levels, c, outputs, l, f) && StaysOrEnters(levels, c, outputs, m, g)
    ensures Newer(f, g)
  {
    if l == c.level + 1 && f in outputs {
      OutputNewer(levels, c, outputs, f, m, g);
    } else if m == c.level + 1 && g in outputs {
      OutputOlder(levels, c, outputs, l, f, g);
    }
  }

  /** An output stays newer than what lies deeper. */
  lemma OutputNewer(levels: Levels, c: Inputs, outputs: Files, o: FileMetaData, m: nat, g: FileMetaData)
    requires Recency(levels) && InputsIn(levels, c) && EntriesOf(outputs) <= EntriesOf(InputFiles(c))
    requires o in outputs && c.level + 1 < m < |levels| && g in levels[m]
    ensures Newer(o, g)
  {
    forall a, b | a in o.entries && b in g.entries && a.key.user == b.key.user
      ensures a.key.sequence > b.key.sequence
    {
      assert a in EntriesOf(outputs);
      var f :| f in InputFiles(c) && a in f.entries;
      assert Newer(f, g);
    }
  }

  /** What lies above the output level and stays is newer than every output. */
  lemma OutputOlder(levels: Levels, c: Inputs, outputs: Files, l: nat, f: FileMetaData, o: FileMetaData)
    requires ShallowerNewer(levels, c) && InputsIn(levels, c) && EntriesOf(outputs) <= EntriesOf(InputFiles(c))
    requires o in outputs && l <= c.level && f in levels[l] && !IsInput(c, l, f)
    ensures Newer(f, o)
  {
    forall a, b | a in f.entries && b in o.entries && a.key.user == b.key.user
      ensures a.key.sequence > b.key.sequence
    {
      assert b in EntriesOf(outputs);
      var g :| g in InputFiles(c) && b in g.entries;
      assert Newer(f, g);
    }
  }

  /** An edit without files changes nothing. */
  lemma EmptyEditApplies(levels: Levels)
    ensures ApplyEdit(levels, FileEdit({}, [])) == levels
  {
    forall l | 0 <= l < |levels|
      ensures ApplyEdit(levels, FileEdit({}, []))[l] == levels[l]
    {
      assert DeletedAt({}, l) == {};
      assert ApplyAt(EMPTY_LEVEL, FileEdit({}, []), l) == LevelState({}, []);
      DropNothing(levels[l]);
    }
  }

  // ---------------------------------------------------------------- flushing a memtable

  ghost predicate Flushed(levels: Levels, after: Levels, f: FileMetaData, m: nat) {
    && |after| == |levels|
    && AllOrdered(after)
    && forall l, g :: 0 <= l < |levels| ==> (g in after[l] <==> g in levels[l] || (l == m && g == f))
  }

  lemma FlushMembers(levels: Levels, f: FileMetaData, m: nat)
    requires AllOrdered(levels) && NumbersBelow(levels, f.number)
    ensures Flushed(levels, ApplyEdit(levels, FileEdit({}, [(m, f)])), f, m)
  {
    var edit := FileEdit({}, [(m, f)]);
    assert forall l :: NumbersAt(edit.added, l) <= {f.number};
    ApplyEditSpec(levels, edit);
    forall l, g | 0 <= l < |levels|
      ensures InAfter(levels, edit, l, g) <==> g in levels[l] || (l == m && g == f)
    {
    }
  }

  /** Files whose user ranges do not meet share no entry's user key. */
  lemma NoneOverlapsNewer(f: FileMetaData, g: FileMetaData)
    requires FileOk(f) && FileOk(g) && NoSharedUser(f, g)
    ensures Newer(f, g) && Newer(g, f) && Apart(f, g)
  {
    forall a, b | a in f.entries && b in g.entries
      ensures a.key.user != b.key.user
    {
      EntryInRange(f, a);
      EntryInRange(g, b);
    }
  }

  lemma FlushKeepsSound(levels: Levels, after: Levels, f: FileMetaData, m: nat)
    requires LevelsSound(levels) && NumbersBelow(levels, f.number) && FileOk(f) && FlushPlaced(levels, f, m)
    requires AllNewer(Elements(f.entries), LevelEntries(levels))
    requires Flushed(levels, after, f, m)
    ensures LevelsSound(after)
    ensures LevelEntries(after) == LevelEntries(levels) + Elements(f.entries)
  {
    hide LevelsOk, AllOrdered, UniqueNumbers, FilesApart, AllNewer, LevelEntries, NoneOverlaps;
    assert |levels| == NUM_LEVELS by {
      LevelCountOk(levels);
    }
    FlushKeepsLevels(levels, after, f, m);
    FlushKeepsUnique(levels, after, f, m);
    FlushKeepsApart(levels, after, f, m);
    FlushEntries(levels, after, f, m);
  }

  lemma LevelCountOk(levels: Levels)
    requires LevelsOk(levels)
    ensures |levels| == NUM_LEVELS
  {
  }

  lemma FlushKeepsApart(levels: Levels, after: Levels, f: FileMetaData, m: nat)
    requires FilesApart(levels) && AllNewer(Elements(f.entries), LevelEntries(levels)) && Flushed(levels, after, f, m)
    ensures FilesApart(after)
  {
    forall l, k, g, h | 0 <= l < |after| && 0 <= k < |after| && g in after[l] && h in after[k] && g != h
      ensures ShareNothing(g, h)
    {
      if g !in levels[l] {
        NewSharesNothing(levels, f, k, h);
      } else if h !in levels[k] {
        NewSharesNothing(levels, f, l, g);
      }
    }
  }

  lemma NewSharesNothing(levels: Levels, f: FileMetaData, l: nat, g: FileMetaData)
    requires l < |levels| && g in levels[l] && AllNewer(Elements(f.entries), LevelEntries(levels))
    ensures ShareNothing(f, g) && ShareNothing(g, f)
  {
    forall e | e in g.entries
      ensures e !in f.entries
    {
      assert e in EntriesOf(levels[l]) && e in LevelEntries(levels);
      assert e in f.entries ==> e in Elements(f.entries);
    }
  }

  lemma FlushKeepsUnique(levels: Levels, after: Levels, f: FileMetaData, m: nat)
    requires UniqueNumbers(levels) && NumbersBelow(levels, f.number) && Flushed(levels, after, f, m)
    ensures UniqueNumbers(after) && NumbersBelow(after, f.number + 1)
  {
  }

  lemma FlushKeepsLevels(levels: Levels, after: Levels, f: FileMetaData, m: nat)
    requires LevelsOk(levels) && AllOrdered(levels) && FileOk(f) && FlushPlaced(levels, f, m)
    requires Flushed(levels, after, f, m)
    ensures LevelsOk(after)
  {
    forall l | 0 < l < NUM_LEVELS
      ensures Disjoint(after[l])
    {
      ApartIsDisjoint(levels[l]);
      forall g, h | g in after[l] && h in after[l] && g != h
        ensures Apart(g, h)
      {
        if l == m && (g == f || h == f) {
          var o := if g == f then h else g;
          assert o in levels[l] && !Overlaps(o, Some(f.smallest.user), Some(f.largest.user));
          NoneOverlapsNewer(f, o);
        }
      }
      ApartIsDisjoint(after[l]);
    }
  }

  lemma FlushedNewer(levels: Levels, f: FileMetaData, l: nat, g: FileMetaData)
    requires l < |levels| && g in levels[l]
    requires AllNewer(Elements(f.entries), LevelEntries(levels))
    ensures Newer(f, g)
  {
    forall e | e in g.entries
      ensures e in LevelEntries(levels)
    {
      assert e in EntriesOf(levels[l]);
    }
  }

  lemma FlushKeepsRecency(levels: Levels, after: Levels, f: FileMetaData, m: nat)
    requires LevelsOk(levels) && Recency(levels) && NumbersBelow(levels, f.number) && FileOk(f) && FlushPlaced(levels, f, m)
    requires AllNewer(Elements(f.entries), LevelEntries(levels))
    requires Flushed(levels, after, f, m)
    ensures Recency(after)
  {
    forall l, k, g, h | 0 <= l < k < |after| && g in after[l] && h in after[k]
      ensures Newer(g, h)
    {
      if g in levels[l] {
        if h !in levels[k] {
          assert NoneOverlaps(levels[l], f.smallest.user, f.largest.user);
          assert !Overlaps(g, Some(f.smallest.user), Some(f.largest.user));
          NoneOverlapsNewer(f, g);
        }
      } else if h in levels[k] {
        FlushedNewer(levels, f, k, h);
      }
    }
    forall g, h | g in after[0] && h in after[0] && g.number > h.number
      ensures Newer(g, h)
    {
      if h in levels[0] && g == f {
        FlushedNewer(levels, f, 0, h);
      }
    }
  }

  lemma FlushEntries(levels: Levels, after: Levels, f: FileMetaData, m: nat)
    requires m < |levels| && Flushed(levels, after, f, m)
    ensures LevelEntries(after) == LevelEntries(levels) + Elements(f.entries)
  {
    forall e | e in LevelEntries(after)
      ensures e in LevelEntries(levels) + Elements(f.entries)
    {
      var l :| 0 <= l < |after| && e in EntriesOf(after[l]);
      var g: FileMetaData :| g in after[l] && e in g.entries;
      assert g in levels[l] ==> e in EntriesOf(levels[l]);
    }
    forall e | e in LevelEntries(levels)
      ensures e in LevelEntries(after)
    {
      var l :| 0 <= l < |levels| && e in EntriesOf(levels[l]);
      var g: FileMetaData :| g in levels[l] && e in g.entries;
      assert g in after[l] && e in EntriesOf(after[l]);
    }
    forall e | e in f.entries
      ensures e in LevelEntries(after)
    {
      assert f in after[m] && e in EntriesOf(after[m]);
    }
  }

  /** A running compaction does not notice the new table. */
  lemma FlushKeepsRunning(s: State, t: State, f: FileMetaData, m: nat)
    requires Sound(s) && s.running.Some? && t.running == s.running
    requires FileOk(f) && FlushAllowed(s, f, m)
    requires f.number == s.nextFileNumber && t.nextFileNumber == f.number + 1
    requires Flushed(s.levels, t.levels, f, m)
    requires t.lastSequence == s.lastSequence && t.snapshots == s.snapshots
    ensures RunningSound(t, t.running.value)
  {
    hide FilesApart, HistoryOk, MemTablesOk;
    var r := s.running.value;
    FlushKeepsDeeper(s.levels, t.levels, f, m, r);
    assert InputsIn(t.levels, r.inputs);
    if m == r.inputs.level + 1 {
      FlushIsClear(s, f, m, r.inputs);
    }
    assert OutputLevelClear(t.levels, r.inputs);
  }

  /** A table that overlaps no input can only lie between them in a gap. */
  lemma FlushIsClear(s: State, f: FileMetaData, m: nat, c: Inputs)
    requires FileOk(f) && FlushAllowed(s, f, m) && s.running.Some? && c == s.running.value.inputs
    requires InputsIn(s.levels, c) && m == c.level + 1 && LevelsOk(s.levels)
    ensures ClearOf(f, InputFiles(c))
  {
    if Covered(InputFiles(c)) {
      EntryInRange(f, f.entries[0]);
      forall g | g in InputFiles(c)
        ensures NoSharedUser(f, g)
        ensures g.smallest.user <= g.largest.user
      {
        var k := if g in c.upper then c.level else c.level + 1;
        assert NoneOverlaps(s.levels[k], f.smallest.user, f.largest.user);
        assert g in s.levels[k] && !Overlaps(g, Some(f.smallest.user), Some(f.largest.user));
        EntryInRange(g, g.entries[0]);
      }
      assert !Holds(InputFiles(c), f.smallest.user);
    }
  }

  lemma FlushKeepsOthersNewer(levels: Levels, after: Levels, f: FileMetaData, m: nat, c: Inputs)
    requires InputsIn(levels, c) && OthersNewer(levels, c) && Flushed(levels, after, f, m)
    requires AllNewer(Elements(f.entries), LevelEntries(levels))
    ensures OthersNewer(after, c)
  {
    forall l, h, g | 0 <= l <= c.level + 1 && l < |after| && h in after[l] && !IsInput(c, l, h) && g in InputFiles(c)
      ensures Newer(h, g)
    {
      if h !in levels[l] {
        FlushedNewer(levels, f, if g in c.upper then c.level else c.level + 1, g);
      }
    }
  }

  lemma FlushKeepsDeeper(levels: Levels, after: Levels, f: FileMetaData, m: nat, r: Running)
    requires InputsIn(levels, r.inputs) && DeeperKnown(levels, r) && Flushed(levels, after, f, m)
    requires FlushPlaced(levels, f, m)
    ensures DeeperKnown(after, r)
  {
    var c := r.inputs;
    forall l, h, g | c.level + 2 <= l < |after| && l < |r.base| && h in after[l] && h !in r.base[l] && g in InputFiles(c)
      ensures NoSharedUser(h, g)
    {
      if h !in levels[l] {
        var k := if g in c.upper then c.level else c.level + 1;
        assert NoneOverlaps(levels[k], f.smallest.user, f.largest.user);
        assert !Overlaps(g, Some(f.smallest.user), Some(f.largest.user));
      }
    }
  }
}
