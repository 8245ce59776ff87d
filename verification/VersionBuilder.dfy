/** Applying edits to a version: the accumulator that a manifest is replayed
    through, and why replaying everything at once is the same as edit by edit. */
module VersionBuilder {
  import opened InternalKeys
  import opened Versions

  /** The part of an edit that changes the file lists. */
  datatype FileEdit = FileEdit(deleted: set<(nat, nat)>, added: seq<(nat, FileMetaData)>)

  // ---------------------------------------------------------------- the order of a level

  /** By smallest key, ties broken by file number. */
  predicate BySmallest(f: FileMetaData, g: FileMetaData) {
    Less(f.smallest, g.smallest) || (f.smallest == g.smallest && f.number < g.number)
  }

  ghost predicate Ordered(files: Files) {
    forall i, j :: 0 <= i < j < |files| ==> BySmallest(files[i], files[j])
  }

  /** Two ordered lists of the same files are the same list. */
  lemma {:induction false} OrderedDetermined(a: Files, b: Files)
    requires Ordered(a) && Ordered(b)
    requires forall f :: f in a <==> f in b
    ensures a == b
  {
    if a == [] {
      assert forall i :: 0 <= i < |b| ==> b[i] in b;
    } else {
      assert a[0] in b && (b != [] ==> b[0] in a);
      assert a[0] == b[0];
      forall f
        ensures f in a[1..] <==> f in b[1..]
      {
        assert f in a <==> f == a[0] || f in a[1..];
        assert f in b <==> f == b[0] || f in b[1..];
      }
      OrderedDetermined(a[1..], b[1..]);
    }
  }

  /** Insertion into the ordered set of added files: a file that is already there
      stays. */
  function InsertFile(files: Files, f: FileMetaData): (r: Files) {
    if files == [] || BySmallest(f, files[0]) then [f] + files
    else if BySmallest(files[0], f) then [files[0]] + InsertFile(files[1..], f)
    else files
  }

  lemma {:induction false} InsertFileSpec(files: Files, f: FileMetaData)
    requires Ordered(files)
    requires forall g :: g in files ==> g.number != f.number
    ensures Ordered(InsertFile(files, f))
    ensures forall g :: g in InsertFile(files, f) <==> g in files || g == f
  {
    if files == [] || BySmallest(f, files[0]) {
    } else {
      assert files[0] in files;
      var rest := InsertFile(files[1..], f);
      InsertFileSpec(files[1..], f);
      assert files == [files[0]] + files[1..];
      forall j | 0 <= j < |rest|
        ensures BySmallest(files[0], rest[j])
      {
        assert rest[j] in rest;
      }
    }
  }

  /** Merge of the base files with the ordered set of added files. */
  function MergeFiles(base: Files, added: Files): (r: Files)
    ensures forall f :: f in r <==> f in base || f in added
  {
    if added == [] then base
    else if base == [] then added
    else if BySmallest(added[0], base[0]) then
      assert added == [added[0]] + added[1..];
      [added[0]] + MergeFiles(base, added[1..])
    else
      assert base == [base[0]] + base[1..];
      [base[0]] + MergeFiles(base[1..], added)
  }

  function DropDeleted(files: Files, deleted: set<nat>): (r: Files)
    ensures forall f :: f in r <==> f in files && f.number !in deleted
  {
    if files == [] then []
    else
      assert files == files[..|files| - 1] + [files[|files| - 1]];
      var f := files[|files| - 1];
      DropDeleted(files[..|files| - 1], deleted) + (if f.number in deleted then [] else [f])
  }

  lemma {:induction false} MergeOrdered(base: Files, added: Files)
    requires Ordered(base) && Ordered(added)
    requires forall f, g :: f in base && g in added ==> f.number != g.number
    ensures Ordered(MergeFiles(base, added))
  {
    if added == [] || base == [] {
    } else {
      assert base[0] in base && added[0] in added;
      if BySmallest(added[0], base[0]) {
        MergeOrdered(base, added[1..]);
        OrderedCons(added[0], MergeFiles(base, added[1..]));
      } else {
        MergeOrdered(base[1..], added);
        OrderedCons(base[0], MergeFiles(base[1..], added));
      }
    }
  }

  lemma OrderedCons(f: FileMetaData, rest: Files)
    requires Ordered(rest) && forall g :: g in rest ==> BySmallest(f, g)
    ensures Ordered([f] + rest)
  {
    assert forall j :: 0 <= j < |rest| ==> rest[j] in rest;
  }

  lemma {:induction false} DropOrdered(files: Files, deleted: set<nat>)
    requires Ordered(files)
    ensures Ordered(DropDeleted(files, deleted))
  {
    if files != [] {
      var init := files[..|files| - 1];
      DropOrdered(init, deleted);
      var r := DropDeleted(init, deleted);
      forall i | 0 <= i < |r|
        ensures BySmallest(r[i], files[|files| - 1])
      {
        assert r[i] in r;
      }
    }
  }

  // ---------------------------------------------------------------- one level of the accumulator

  datatype LevelState = LevelState(deleted: set<nat>, added: Files)

  type Pending = seq<LevelState>

  const EMPTY_LEVEL := LevelState({}, [])

  function NumbersAt(added: seq<(nat, FileMetaData)>, level: nat): (r: set<nat>) {
    set p | p in added && p.0 == level :: p.1.number
  }

  function DeletedAt(deleted: set<(nat, nat)>, level: nat): (r: set<nat>) {
    set p | p in deleted && p.0 == level :: p.1
  }

  /** Adding files un-deletes their numbers. */
  function AddFiles(s: LevelState, added: seq<(nat, FileMetaData)>, level: nat): LevelState {
    if added == [] then s
    else
      var r := AddFiles(s, added[..|added| - 1], level);
      var (l, f) := added[|added| - 1];
      if l == level then LevelState(r.deleted - {f.number}, InsertFile(r.added, f)) else r
  }

  /** Effect of one edit on what is pending for `level`: deletions first. */
  function ApplyAt(s: LevelState, edit: FileEdit, level: nat): LevelState {
    AddFiles(s.(deleted := s.deleted + DeletedAt(edit.deleted, level)), edit.added, level)
  }

  function SaveAt(base: Files, s: LevelState): Files {
    DropDeleted(MergeFiles(base, s.added), s.deleted)
  }

  /** No number enters a level twice within `added`. */
  ghost predicate AddsOnce(added: seq<(nat, FileMetaData)>) {
    forall i, j :: 0 <= i < j < |added| && added[i].0 == added[j].0 ==> added[i].1.number != added[j].1.number
  }

  lemma {:induction false} AddFilesSpec(s: LevelState, added: seq<(nat, FileMetaData)>, level: nat)
    requires Ordered(s.added) && AddsOnce(added)
    requires forall f :: f in s.added ==> f.number !in NumbersAt(added, level)
    ensures Ordered(AddFiles(s, added, level).added)
    ensures forall f :: f in AddFiles(s, added, level).added <==> f in s.added || (level, f) in added
    ensures AddFiles(s, added, level).deleted == s.deleted - NumbersAt(added, level)
  {
    if added != [] {
      var init, last := added[..|added| - 1], added[|added| - 1];
      assert added == init + [last];
      assert forall p :: p in added <==> p in init || p == last;
      AddFilesSpec(s, init, level);
      if last.0 == level {
        assert NumbersAt(added, level) == NumbersAt(init, level) + {last.1.number};
        assert last.1.number in NumbersAt(added, level);
        InsertFileSpec(AddFiles(s, init, level).added, last.1);
      } else {
        assert NumbersAt(added, level) == NumbersAt(init, level);
      }
    }
  }

  /** What a level holds after `s` is saved on top of `base`. */
  lemma SaveAtSpec(base: Files, s: LevelState)
    requires Ordered(base) && Ordered(s.added)
    requires forall f, g :: f in base && g in s.added ==> f.number != g.number
    ensures Ordered(SaveAt(base, s))
    ensures forall f :: f in SaveAt(base, s) <==> (f in base || f in s.added) && f.number !in s.deleted
  {
    MergeOrdered(base, s.added);
    DropOrdered(MergeFiles(base, s.added), s.deleted);
  }

  // ---------------------------------------------------------------- a whole manifest

  /** What a list of edits leaves pending, starting from nothing. */
  function ReplayAt(edits: seq<FileEdit>, level: nat): LevelState {
    if edits == [] then EMPTY_LEVEL
    else ApplyAt(ReplayAt(edits[..|edits| - 1], level), edits[|edits| - 1], level)
  }

  /** The versions one after the other, each built from the previous one. */
  function FoldAt(base: Files, edits: seq<FileEdit>, level: nat): Files {
    if edits == [] then base
    else SaveAt(FoldAt(base, edits[..|edits| - 1], level), ApplyAt(EMPTY_LEVEL, edits[|edits| - 1], level))
  }

  ghost predicate EachAddsOnce(edits: seq<FileEdit>) {
    forall i :: 0 <= i < |edits| ==> AddsOnce(edits[i].added)
  }

  ghost predicate NoneInBase(base: Files, edits: seq<FileEdit>, level: nat) {
    forall i, f :: 0 <= i < |edits| && f in base ==> f.number !in NumbersAt(edits[i].added, level)
  }

  ghost predicate NeverTwice(edits: seq<FileEdit>, level: nat) {
    forall i, j :: 0 <= i < j < |edits| ==> NumbersAt(edits[i].added, level) !! NumbersAt(edits[j].added, level)
  }

  /** `edits` never put a number into a level that had it before. */
  ghost predicate FreshNumbers(base: Files, edits: seq<FileEdit>, level: nat) {
    EachAddsOnce(edits) && NoneInBase(base, edits, level) && NeverTwice(edits, level)
  }

  lemma {:induction false} ReplayAtSpec(base: Files, edits: seq<FileEdit>, level: nat)
    requires FreshNumbers(base, edits, level)
    ensures Ordered(ReplayAt(edits, level).added)
    ensures forall f :: f in ReplayAt(edits, level).added ==>
      exists i :: 0 <= i < |edits| && f.number in NumbersAt(edits[i].added, level)
  {
    if edits != [] {
      var k := |edits| - 1;
      var init := edits[..k];
      ReplayAtSpec(base, init, level);
      var s := ReplayAt(init, level);
      forall f | f in s.added
        ensures f.number !in NumbersAt(edits[k].added, level)
        ensures exists i :: 0 <= i < k && f.number in NumbersAt(edits[i].added, level)
      {
        var i :| 0 <= i < |init| && f.number in NumbersAt(init[i].added, level);
        assert edits[i] == init[i];
      }
      AddFilesSpec(s.(deleted := s.deleted + DeletedAt(edits[k].deleted, level)), edits[k].added, level);
      forall f | (level, f) in edits[k].added
        ensures f.number in NumbersAt(edits[k].added, level)
      {
      }
    }
  }

  lemma {:induction false} DropNothing(files: Files)
    ensures DropDeleted(files, {}) == files
  {
    if files != [] {
      var k := |files| - 1;
      var init, last := files[..k], files[k];
      DropNothing(init);
      assert files == init + [last];
    }
  }

  /** Pending files are none of the base files. */
  lemma PendingNotInBase(base: Files, edits: seq<FileEdit>, level: nat)
    requires FreshNumbers(base, edits, level)
    ensures forall f, g :: f in base && g in ReplayAt(edits, level).added ==> f.number != g.number
  {
    ReplayAtSpec(base, edits, level);
  }

  /** The last edit adds numbers that were neither in the base nor pending. */
  lemma AddedAreNew(base: Files, edits: seq<FileEdit>, level: nat)
    requires FreshNumbers(base, edits, level) && edits != []
    ensures
      var k := |edits| - 1;
      && FreshNumbers(base, edits[..k], level)
      && forall f :: f in base || f in ReplayAt(edits[..k], level).added
                     ==> f.number !in NumbersAt(edits[k].added, level)
  {
    var k := |edits| - 1;
    ReplayAtSpec(base, edits[..k], level);
    forall f | f in ReplayAt(edits[..k], level).added
      ensures f.number !in NumbersAt(edits[k].added, level)
    {
      var i :| 0 <= i < k && f.number in NumbersAt(edits[..k][i].added, level);
      assert edits[i] == edits[..k][i];
    }
  }

  /** Replaying a manifest through one accumulator gives the file lists of the
      version-by-version history. */
  lemma {:induction false} ReplayIsFold(base: Files, edits: seq<FileEdit>, level: nat)
    requires Ordered(base) && FreshNumbers(base, edits, level)
    ensures SaveAt(base, ReplayAt(edits, level)) == FoldAt(base, edits, level)
    ensures Ordered(FoldAt(base, edits, level))
  {
    if edits == [] {
      assert MergeFiles(base, []) == base;
      DropNothing(base);
    } else {
      var k := |edits| - 1;
      var init, e := edits[..k], edits[k];
      hide BySmallest, InsertFile, MergeFiles, DropDeleted;
      ReplayIsFold(base, init, level);
      ReplayAtSpec(base, init, level);
      ReplayAtSpec(base, edits, level);
      var s, one, all := ReplayAt(init, level), ApplyAt(EMPTY_LEVEL, e, level), ReplayAt(edits, level);
      var before := FoldAt(base, init, level);
      AddedAreNew(base, edits, level);
      PendingNotInBase(base, init, level);
      PendingNotInBase(base, edits, level);
      AddFilesSpec(s.(deleted := s.deleted + DeletedAt(e.deleted, level)), e.added, level);
      AddFilesSpec(EMPTY_LEVEL.(deleted := EMPTY_LEVEL.deleted + DeletedAt(e.deleted, level)), e.added, level);
      SaveAtSpec(base, s);
      SaveAtSpec(before, one);
      SaveAtSpec(base, all);
      OrderedDetermined(SaveAt(base, all), SaveAt(before, one));
    }
  }

  // ---------------------------------------------------------------- one edit on a whole version

  /** The version that one edit makes of `levels`. */
  function ApplyEdit(levels: Levels, edit: FileEdit): (r: Levels)
    ensures |r| == |levels|
  {
    seq(|levels|, l requires 0 <= l < |levels| => SaveAt(levels[l], ApplyAt(EMPTY_LEVEL, edit, l)))
  }

  /** `f` belongs to level `l` once `edit` is applied. */
  ghost predicate InAfter(levels: Levels, edit: FileEdit, l: nat, f: FileMetaData)
    requires l < |levels|
  {
    (f in levels[l] && f.number !in DeletedAt(edit.deleted, l)) || (l, f) in edit.added
  }

  lemma ApplyEditSpec(levels: Levels, edit: FileEdit)
    requires forall l :: 0 <= l < |levels| ==> Ordered(levels[l])
    requires AddsOnce(edit.added)
    requires forall l, f :: 0 <= l < |levels| && f in levels[l] ==> f.number !in NumbersAt(edit.added, l)
    ensures forall l :: 0 <= l < |levels| ==> Ordered(ApplyEdit(levels, edit)[l])
    ensures forall l, f :: 0 <= l < |levels| ==> (f in ApplyEdit(levels, edit)[l] <==> InAfter(levels, edit, l, f))
  {
    forall l | 0 <= l < |levels|
      ensures Ordered(ApplyEdit(levels, edit)[l])
      ensures forall f :: f in ApplyEdit(levels, edit)[l] <==> InAfter(levels, edit, l, f)
    {
      var s := EMPTY_LEVEL.(deleted := EMPTY_LEVEL.deleted + DeletedAt(edit.deleted, l));
      AddFilesSpec(s, edit.added, l);
      forall f | (l, f) in edit.added
        ensures f.number in NumbersAt(edit.added, l)
      {
      }
      SaveAtSpec(levels[l], ApplyAt(EMPTY_LEVEL, edit, l));
    }
  }

  /** Neither file reaches into the other. */
  ghost predicate Apart(f: FileMetaData, g: FileMetaData) {
    Less(f.largest, g.smallest) || Less(g.largest, f.smallest)
  }

  lemma ApartIsDisjoint(files: Files)
    requires FilesOk(files) && Ordered(files)
    ensures Disjoint(files) <==> forall f, g :: f in files && g in files && f != g ==> Apart(f, g)
  {
    forall i, j | 0 <= i < j < |files|
      ensures Less(files[i].largest, files[j].smallest) <==> Apart(files[i], files[j])
    {
      assert files[i] in files && files[j] in files && BySmallest(files[i], files[j]);
      EntryInRange(files[i], files[i].entries[0]);
      EntryInRange(files[j], files[j].entries[0]);
    }
    if forall f, g :: f in files && g in files && f != g ==> Apart(f, g) {
      forall i, j | 0 <= i < j < |files|
        ensures Less(files[i].largest, files[j].smallest)
      {
        assert BySmallest(files[i], files[j]);
        assert files[i] in files && files[j] in files && files[i] != files[j];
      }
    }
  }
}
