/** The merged stream that a compaction reads: its input files, one child iterator
    per level-zero file and one for each other level, seen as one sorted sequence. */
module CompactionStream {
  import opened InternalKeys
  import opened Versions
  import opened VersionBuilder
  import opened CompactionInputs
  import opened Compactions
  import opened Engine
  import opened EngineInvariant
  import opened EngineStructure
  import opened Merger

  // ---------------------------------------------------------------- the children

  /** The child iterators over one level's inputs. */
  function LevelChildren(level: nat, files: Files): seq<seq<Entry>> {
    if files == [] then []
    else if level == 0 then seq(|files|, i requires 0 <= i < |files| => files[i].entries)
    else [Flatten(files)]
  }

  function Children(c: Inputs): seq<seq<Entry>> {
    LevelChildren(c.level, c.upper) + LevelChildren(c.level + 1, c.lower)
  }

  lemma {:induction false} FlattenSorted(files: Files)
    requires FilesOk(files) && Disjoint(files)
    ensures Sorted(Flatten(files))
  {
    if files != [] {
      var k := |files| - 1;
      var init, last := files[..k], files[k];
      assert files == init + [last] && last in files;
      assert forall i :: 0 <= i < k ==> init[i] == files[i] && files[i] in files;
      FlattenSorted(init);
      forall i, j | 0 <= i < |Flatten(init)| && 0 <= j < |last.entries|
        ensures Less(Flatten(init)[i].key, last.entries[j].key)
      {
        EarlierInFlatten(init, last, Flatten(init)[i], last.entries[j]);
      }
      SortedConcat(Flatten(init), last.entries);
    }
  }

  lemma {:induction false} EarlierInFlatten(init: Files, last: FileMetaData, a: Entry, b: Entry)
    requires FilesOk(init) && FileOk(last) && a in Flatten(init) && b in last.entries
    requires forall i :: 0 <= i < |init| ==> Less(init[i].largest, last.smallest)
    ensures Less(a.key, b.key)
  {
    FlattenEntries(init);
    assert a in EntriesOf(init);
    var f :| f in init && a in f.entries;
    EntryInRange(f, a);
    EntryInRange(last, b);
  }

  lemma SortedConcat(a: seq<Entry>, b: seq<Entry>)
    requires Sorted(a) && Sorted(b)
    requires forall i, j :: 0 <= i < |a| && 0 <= j < |b| ==> Less(a[i].key, b[j].key)
    ensures Sorted(a + b)
  {
    hide Less;
  }

  /** Two different files of a version have no entry in common. */
  lemma FilesShareNothing(levels: Levels, l: nat, f: FileMetaData, m: nat, g: FileMetaData, e: Entry)
    requires LevelsSound(levels) && l < |levels| && m < |levels| && f in levels[l] && g in levels[m]
    requires l != m || f != g
    requires e in f.entries
    ensures e !in g.entries
  {
    hide LevelsOk, AllOrdered;
    assert f == g ==> l == m;
    assert ShareNothing(f, g);
  }

  /** The inputs in a good version: what the children need. */
  ghost predicate StreamOk(levels: Levels, c: Inputs) {
    LevelsSound(levels) && InputsOk(levels, c) && OneEntryPerSequence(LevelEntries(levels))
  }

  lemma StreamLower(levels: Levels, c: Inputs)
    requires StreamOk(levels, c)
    ensures c.level + 1 < |levels| && InOrder(levels[c.level], c.upper) && InOrder(levels[c.level + 1], c.lower)
    ensures FilesOk(c.upper) && FilesOk(c.lower)
    ensures Disjoint(c.lower) && (c.level > 0 ==> Disjoint(c.upper))
    ensures forall f :: f in c.upper ==> f in levels[c.level]
    ensures forall f :: f in c.lower ==> f in levels[c.level + 1]
  {
    hide FilesApart, UniqueNumbers, AllOrdered, FileOk, InOrder, Disjoint, OneEntryPerSequence, TakesAll, Overlaps;
    OverlappingInOrder(levels[c.level + 1], Some(c.lo), Some(c.hi));
    InOrderDisjoint(levels[c.level + 1], c.lower);
    if c.level > 0 {
      InOrderDisjoint(levels[c.level], c.upper);
    }
  }

  /** Entry `e` of child `i` comes from a file of that child. */
  ghost predicate FromFile(level: nat, files: Files, i: nat, e: Entry, p: nat) {
    p < |files| && e in files[p].entries && (if level == 0 then p == i else i == 0)
  }

  lemma ChildEntry(level: nat, files: Files, i: nat, e: Entry) returns (p: nat)
    requires i < |LevelChildren(level, files)| && e in LevelChildren(level, files)[i]
    ensures FromFile(level, files, i, e, p)
  {
    if level == 0 {
      p := i;
    } else {
      FlattenEntries(files);
      assert e in Elements(Flatten(files)) && e in EntriesOf(files);
      var f :| f in files && e in f.entries;
      p :| 0 <= p < |files| && files[p] == f;
    }
  }

  /** Files listed in order of a good level are different files. */
  lemma InOrderDiffer(files: Files, part: Files, i: nat, j: nat)
    requires Ordered(files) && InOrder(files, part) && i < |part| && j < |part| && i != j
    ensures part[i] != part[j]
  {
    var a, b := if i < j then i else j, if i < j then j else i;
    assert ComesBefore(files, part[a], part[b]);
  }

  lemma LevelChildrenApart(levels: Levels, l: nat, files: Files, i: nat, j: nat, a: Entry, b: Entry)
    requires LevelsSound(levels) && OneEntryPerSequence(LevelEntries(levels)) && l < |levels|
    requires InOrder(levels[l], files) && forall f :: f in files ==> f in levels[l]
    requires i < |LevelChildren(l, files)| && j < |LevelChildren(l, files)| && i != j
    requires a in LevelChildren(l, files)[i] && b in LevelChildren(l, files)[j]
    ensures a.key != b.key
  {
    hide Less, LevelsOk, FilesApart, InOrder, Ordered;
    SoundLevels(levels);
    var p := ChildEntry(l, files, i, a);
    var q := ChildEntry(l, files, j, b);
    assert files[p] in levels[l] && files[q] in levels[l];
    if a.key == b.key {
      SameKeySameEntry(levels, l, files[p], l, files[q], a, b);
      InOrderDiffer(levels[l], files, p, q);
      FilesShareNothing(levels, l, files[p], l, files[q], a);
    }
  }

  lemma SameKeySameEntry(levels: Levels, l: nat, f: FileMetaData, m: nat, g: FileMetaData, a: Entry, b: Entry)
    requires OneEntryPerSequence(LevelEntries(levels)) && a.key.sequence == b.key.sequence
    requires l < |levels| && f in levels[l] && a in f.entries
    requires m < |levels| && g in levels[m] && b in g.entries
    ensures a == b
  {
    assert a in EntriesOf(levels[l]) && b in EntriesOf(levels[m]);
  }

  /** Above level 0 one iterator runs over all the files. */
  lemma OneChild(level: nat, files: Files)
    requires level > 0
    ensures |LevelChildren(level, files)| <= 1
  {
  }

  lemma {:induction false} ChildrenApart(levels: Levels, c: Inputs)
    requires StreamOk(levels, c)
    ensures KeysApart(Children(c))
  {
    StreamLower(levels, c);
    hide InputsOk, LevelsSound, OneEntryPerSequence, InOrder, FilesOk, LevelChildren;
    var up := |LevelChildren(c.level, c.upper)|;
    forall i, j, a, b | 0 <= i < |Children(c)| && 0 <= j < |Children(c)| && i != j
                        && a in Children(c)[i] && b in Children(c)[j]
      ensures a.key != b.key
    {
      if i < up && j < up {
        LevelChildrenApart(levels, c.level, c.upper, i, j, a, b);
      } else if i >= up && j >= up {
        OneChild(c.level + 1, c.lower);
        assert false;
      } else if i < up {
        LevelsChildrenApart(levels, c, i, j - up, a, b);
      } else {
        LevelsChildrenApart(levels, c, j, i - up, b, a);
      }
    }
  }

  lemma LevelsChildrenApart(levels: Levels, c: Inputs, i: nat, j: nat, a: Entry, b: Entry)
    requires StreamOk(levels, c)
    requires i < |LevelChildren(c.level, c.upper)| && j < |LevelChildren(c.level + 1, c.lower)|
    requires a in LevelChildren(c.level, c.upper)[i] && b in LevelChildren(c.level + 1, c.lower)[j]
    ensures a.key != b.key
  {
    hide InputsOk, LevelsSound, OneEntryPerSequence, InOrder, FilesOk, LevelChildren;
    StreamLower(levels, c);
    var p := ChildEntry(c.level, c.upper, i, a);
    var q := ChildEntry(c.level + 1, c.lower, j, b);
    assert c.upper[p] in c.upper && c.lower[q] in c.lower;
    if a.key == b.key {
      SameKeySameEntry(levels, c.level, c.upper[p], c.level + 1, c.lower[q], a, b);
      FilesShareNothing(levels, c.level, c.upper[p], c.level + 1, c.lower[q], a);
    }
  }

  lemma LevelChildrenSorted(level: nat, files: Files)
    requires FilesOk(files) && (level > 0 ==> Disjoint(files))
    ensures forall i :: 0 <= i < |LevelChildren(level, files)| ==> Sorted(LevelChildren(level, files)[i])
  {
    if level == 0 {
      forall i | 0 <= i < |LevelChildren(level, files)|
        ensures Sorted(LevelChildren(level, files)[i])
      {
        assert files[i] in files && FileOk(files[i]);
      }
    } else {
      FlattenSorted(files);
    }
  }

  lemma LevelChildrenEntries(level: nat, files: Files)
    ensures UnionOf(LevelChildren(level, files)) == EntriesOf(files)
  {
    var children := LevelChildren(level, files);
    forall e | e in EntriesOf(files)
      ensures e in UnionOf(children)
    {
      var f :| f in files && e in f.entries;
      var p :| 0 <= p < |files| && files[p] == f;
      FlattenContains(files, f);
      assert e in children[if level == 0 then p else 0];
    }
    forall e | e in UnionOf(children)
      ensures e in EntriesOf(files)
    {
      var i :| 0 <= i < |children| && e in children[i];
      var p := ChildEntry(level, files, i, e);
      assert files[p] in files;
    }
  }

  lemma UnionConcat(a: seq<seq<Entry>>, b: seq<seq<Entry>>)
    ensures UnionOf(a + b) == UnionOf(a) + UnionOf(b)
  {
    forall e | e in UnionOf(a) + UnionOf(b)
      ensures e in UnionOf(a + b)
    {
      if e in UnionOf(a) {
        var i :| 0 <= i < |a| && e in a[i];
        assert e in (a + b)[i];
      } else {
        var i :| 0 <= i < |b| && e in b[i];
        assert e in (a + b)[|a| + i];
      }
    }
  }

  lemma EntriesConcat(a: Files, b: Files)
    ensures EntriesOf(a + b) == EntriesOf(a) + EntriesOf(b)
  {
  }

  // ---------------------------------------------------------------- the sorted union

  /** Entries that all have their own sequence number can be sorted. */
  lemma {:induction false} SortedUnion(S: set<Entry>) returns (all: seq<Entry>)
    requires OneEntryPerSequence(S)
    ensures Sorted(all) && Elements(all) == S
    decreases S
  {
    all := [];
    if S != {} {
      var e :| e in S;
      all := SortedUnion(S - {e});
      assert forall x :: x in all ==> x in Elements(all);
      InsertSorted(all, e);
      InsertElements(all, e);
      all := Insert(all, e);
    }
  }

  /** The children of a compaction have one sorted union, which is its merged input. */
  lemma StreamUnion(levels: Levels, c: Inputs) returns (all: seq<Entry>)
    requires StreamOk(levels, c)
    ensures IsUnion(Children(c), all) && IsMerged(all, c)
  {
    hide LevelsSound, InputsOk, OneEntryPerSequence, Disjoint, FilesOk, InOrder, LevelChildren, Sorted, KeysApart;
    StreamLower(levels, c);
    var upper, lower := LevelChildren(c.level, c.upper), LevelChildren(c.level + 1, c.lower);
    LevelChildrenSorted(c.level, c.upper);
    LevelChildrenSorted(c.level + 1, c.lower);
    ChildrenApart(levels, c);
    LevelChildrenEntries(c.level, c.upper);
    LevelChildrenEntries(c.level + 1, c.lower);
    UnionConcat(upper, lower);
    EntriesConcat(c.upper, c.lower);
    InputsAreStored(levels, c);
    SubsetOnePerSequence(EntriesOf(InputFiles(c)), LevelEntries(levels));
    all := SortedUnion(EntriesOf(InputFiles(c)));
  }

  lemma SubsetOnePerSequence(S: set<Entry>, T: set<Entry>)
    requires S <= T && OneEntryPerSequence(T)
    ensures OneEntryPerSequence(S)
  {
  }

  lemma InputsAreStored(levels: Levels, c: Inputs)
    requires StreamOk(levels, c)
    ensures EntriesOf(InputFiles(c)) <= LevelEntries(levels)
  {
    hide LevelsSound, InputsOk, OneEntryPerSequence;
    StreamLower(levels, c);
    forall e | e in EntriesOf(InputFiles(c))
      ensures e in LevelEntries(levels)
    {
      var f :| f in InputFiles(c) && e in f.entries;
      if f in c.upper {
        assert e in EntriesOf(levels[c.level]);
      } else {
        assert e in EntriesOf(levels[c.level + 1]);
      }
    }
  }

  // ---------------------------------------------------------------- reading it

  method AddChildren(children: seq<seq<Entry>>, level: nat, files: Files) returns (r: seq<seq<Entry>>)
    ensures r == children + LevelChildren(level, files)
  {
    r := children;
    if files != [] {
      if level == 0 {
        for i := 0 to |files|
          invariant r == children + LevelChildren(level, files)[..i]
        {
          r := r + [files[i].entries];
        }
        assert LevelChildren(level, files)[..|files|] == LevelChildren(level, files);
      } else {
        r := r + [Flatten(files)];
      }
    }
  }

  lemma StandsAt(iter: MergingIterator, k: nat)
    requires iter.Valid() && iter.Stands(k)
    ensures k <= |iter.all| && (iter.current.Some? <==> k < |iter.all|)
    ensures k < |iter.all| ==> iter.CurrentEntry() == iter.all[k]
  {
  }

  /** Reads the iterator from its first entry to its last. */
  method ReadAll(iter: MergingIterator) returns (input: seq<Entry>)
    requires iter.Valid()
    modifies iter, iter.pos
    ensures input == iter.all
  {
    hide *;
    iter.SeekToFirst();
    input := [];
    StandsAt(iter, 0);
    while iter.current.Some?
      invariant iter.Valid() && iter.Stands(|input|)
      invariant |input| <= |iter.all| && input == iter.all[..|input|]
      invariant iter.current.Some? <==> |input| < |iter.all|
      decreases |iter.all| - |input|
    {
      StandsAt(iter, |input|);
      input := input + [iter.CurrentEntry()];
      iter.Next(|input| - 1);
      StandsAt(iter, |input|);
    }
  }

  /** Reads the merged input of a compaction. */
  method ReadMerged(ghost levels: Levels, c: Inputs) returns (input: seq<Entry>)
    requires StreamOk(levels, c)
    ensures IsMerged(input, c)
  {
    hide StreamOk, IsMerged, IsUnion, LevelChildren, Less;
    var children := AddChildren([], c.level, c.upper);
    children := AddChildren(children, c.level + 1, c.lower);
    assert children == Children(c);
    ghost var all := StreamUnion(levels, c);
    var iter := new MergingIterator(children, all);
    input := ReadAll(iter);
  }
}
