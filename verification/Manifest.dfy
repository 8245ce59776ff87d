/** Building versions in place, and recovering one from a manifest: a record of the
    whole version at the time the manifest was begun, then one record per edit. */
module Manifest {
  import opened InternalKeys
  import opened Versions
  import opened VersionBuilder

  lemma {:induction false} DropConcat(a: Files, b: Files, deleted: set<nat>)
    ensures DropDeleted(a + b, deleted) == DropDeleted(a, deleted) + DropDeleted(b, deleted)
  {
    if b == [] {
      assert a + b == a;
    } else {
      var k := |b| - 1;
      assert (a + b)[..|a + b| - 1] == a + b[..k];
      DropConcat(a, b[..k], deleted);
    }
  }

  lemma DropFirst(f: FileMetaData, rest: Files, deleted: set<nat>)
    ensures DropDeleted([f] + rest, deleted) == (if f.number in deleted then [] else [f]) + DropDeleted(rest, deleted)
  {
    hide DropDeleted;
    DropConcat([f], rest, deleted);
    DropOne(f, deleted);
  }

  lemma DropOne(f: FileMetaData, deleted: set<nat>)
    ensures DropDeleted([f], deleted) == if f.number in deleted then [] else [f]
  {
    assert [f][..0] == [];
  }

  ghost predicate LevelsInRange(edit: FileEdit) {
    && (forall p :: p in edit.deleted ==> p.0 < NUM_LEVELS)
    && (forall p :: p in edit.added ==> p.0 < NUM_LEVELS)
  }

  lemma DeletedStep(deleted: set<(nat, nat)>, rest: set<(nat, nat)>, p: (nat, nat))
    requires rest <= deleted && p in rest
    ensures forall l ::
      DeletedAt(deleted - (rest - {p}), l) == DeletedAt(deleted - rest, l) + if l == p.0 then {p.1} else {}
  {
    assert deleted - (rest - {p}) == (deleted - rest) + {p};
  }

  /** Accumulates edits on top of a version. */
  class Builder {
    const base: Levels
    const levels: array<LevelState>

    constructor (base: Levels)
      requires |base| == NUM_LEVELS
      ensures Valid() && fresh(levels) && this.base == base
      ensures forall l :: 0 <= l < NUM_LEVELS ==> levels[l] == EMPTY_LEVEL
    {
      this.base := base;
      levels := new LevelState[NUM_LEVELS](_ => EMPTY_LEVEL);
    }

    ghost predicate Valid() {
      |base| == NUM_LEVELS && levels.Length == NUM_LEVELS
    }

    method DeleteFiles(deleted: set<(nat, nat)>)
      requires Valid() && forall p :: p in deleted ==> p.0 < NUM_LEVELS
      modifies levels
      ensures forall l :: 0 <= l < NUM_LEVELS ==>
        levels[l] == old(levels[l]).(deleted := old(levels[l]).deleted + DeletedAt(deleted, l))
    {
      var rest := deleted;
      while rest != {}
        invariant rest <= deleted
        invariant forall l :: 0 <= l < NUM_LEVELS ==>
          levels[l] == old(levels[l]).(deleted := old(levels[l]).deleted + DeletedAt(deleted - rest, l))
        decreases |rest|
      {
        var p :| p in rest;
        DeletedStep(deleted, rest, p);
        rest := rest - {p};
        levels[p.0] := levels[p.0].(deleted := levels[p.0].deleted + {p.1});
      }
      assert deleted - rest == deleted;
    }

    method AddNewFiles(added: seq<(nat, FileMetaData)>)
      requires Valid() && forall p :: p in added ==> p.0 < NUM_LEVELS
      modifies levels
      ensures forall l :: 0 <= l < NUM_LEVELS ==> levels[l] == AddFiles(old(levels[l]), added, l)
    {
      hide InsertFile;
      for i := 0 to |added|
        invariant forall l :: 0 <= l < NUM_LEVELS ==> levels[l] == AddFiles(old(levels[l]), added[..i], l)
      {
        assert added[..i + 1][..i] == added[..i];
        assert added[i] in added;
        var (level, f) := added[i];
        var s := levels[level];
        levels[level] := LevelState(s.deleted - {f.number}, InsertFile(s.added, f));
      }
      assert added[..|added|] == added;
    }

    /** Deletions first, then additions, which take back a pending deletion. */
    method Apply(edit: FileEdit)
      requires Valid() && LevelsInRange(edit)
      modifies levels
      ensures forall l :: 0 <= l < NUM_LEVELS ==> levels[l] == ApplyAt(old(levels[l]), edit, l)
    {
      hide AddFiles, DeletedAt;
      DeleteFiles(edit.deleted);
      AddNewFiles(edit.added);
    }

    /** The version that the pending changes make of the base. */
    method SaveTo() returns (v: Levels)
      requires Valid()
      ensures |v| == NUM_LEVELS && forall l :: 0 <= l < NUM_LEVELS ==> v[l] == SaveAt(base[l], levels[l])
    {
      v := [];
      for level := 0 to NUM_LEVELS
        invariant |v| == level && forall l :: 0 <= l < level ==> v[l] == SaveAt(base[l], levels[l])
      {
        var files := SaveLevel(base[level], levels[level]);
        v := v + [files];
      }
    }
  }

  method MaybeAddFile(files: Files, f: FileMetaData, deleted: set<nat>) returns (r: Files)
    ensures r == files + Unless(f, deleted)
  {
    r := if f.number in deleted then files else files + [f];
  }

  /** What is still to come of the merge. */
  function Remaining(base: Files, b: nat, added: Files, a: nat, deleted: set<nat>): Files
    requires b <= |base| && a <= |added|
  {
    DropDeleted(MergeFiles(base[b..], added[a..]), deleted)
  }

  function Unless(f: FileMetaData, deleted: set<nat>): Files {
    if f.number in deleted then [] else [f]
  }

  lemma PassBase(files: Files, base: Files, b: nat, added: Files, a: nat, deleted: set<nat>)
    requires b < |base| && a <= |added| && (a < |added| ==> !BySmallest(added[a], base[b]))
    ensures files + Remaining(base, b, added, a, deleted)
         == files + Unless(base[b], deleted) + Remaining(base, b + 1, added, a, deleted)
  {
    hide DropDeleted, BySmallest;
    assert base[b..][1..] == base[b + 1..] && base[b..] == [base[b]] + base[b + 1..];
    DropFirst(base[b], MergeFiles(base[b + 1..], added[a..]), deleted);
  }

  lemma PassAdded(files: Files, base: Files, b: nat, added: Files, a: nat, deleted: set<nat>)
    requires b <= |base| && a < |added| && (b < |base| ==> BySmallest(added[a], base[b]))
    ensures files + Remaining(base, b, added, a, deleted)
         == files + Unless(added[a], deleted) + Remaining(base, b, added, a + 1, deleted)
  {
    hide DropDeleted, BySmallest;
    assert added[a..][1..] == added[a + 1..] && added[a..] == [added[a]] + added[a + 1..];
    assert b == |base| && a + 1 < |added| ==> MergeFiles(base[b..], added[a + 1..]) == added[a + 1..];
    DropFirst(added[a], MergeFiles(base[b..], added[a + 1..]), deleted);
  }

  /** One pass over the base files and the added ones. */
  method SaveLevel(base: Files, s: LevelState) returns (files: Files)
    ensures files == SaveAt(base, s)
  {
    hide Remaining, BySmallest, SaveAt, Unless;
    SaveIsRemaining(base, s);
    files := [];
    var b := 0;
    for a := 0 to |s.added|
      invariant b <= |base|
      invariant SaveAt(base, s) == files + Remaining(base, b, s.added, a, s.deleted)
    {
      var f := s.added[a];
      while b < |base| && !BySmallest(f, base[b])
        invariant b <= |base|
        invariant SaveAt(base, s) == files + Remaining(base, b, s.added, a, s.deleted)
      {
        PassBase(files, base, b, s.added, a, s.deleted);
        files := MaybeAddFile(files, base[b], s.deleted);
        b := b + 1;
      }
      PassAdded(files, base, b, s.added, a, s.deleted);
      files := MaybeAddFile(files, f, s.deleted);
    }
    while b < |base|
      invariant b <= |base|
      invariant SaveAt(base, s) == files + Remaining(base, b, s.added, |s.added|, s.deleted)
    {
      PassBase(files, base, b, s.added, |s.added|, s.deleted);
      files := MaybeAddFile(files, base[b], s.deleted);
      b := b + 1;
    }
    NothingRemains(base, s);
  }

  lemma SaveIsRemaining(base: Files, s: LevelState)
    ensures SaveAt(base, s) == Remaining(base, 0, s.added, 0, s.deleted)
  {
    assert base[0..] == base && s.added[0..] == s.added;
  }

  lemma NothingRemains(base: Files, s: LevelState)
    ensures Remaining(base, |base|, s.added, |s.added|, s.deleted) == []
  {
  }

  /** The part of LogAndApply that makes the next version. */
  method ApplyToVersion(current: Levels, edit: FileEdit) returns (v: Levels)
    requires |current| == NUM_LEVELS && LevelsInRange(edit)
    ensures v == ApplyEdit(current, edit)
  {
    var builder := new Builder(current);
    builder.Apply(edit);
    v := builder.SaveTo();
  }

  const NO_FILES: Levels := seq(NUM_LEVELS, _ => [])

  // ---------------------------------------------------------------- the record of a whole version

  function LevelFiles(files: Files, level: nat): (r: seq<(nat, FileMetaData)>)
    ensures |r| == |files| && forall i :: 0 <= i < |files| ==> r[i] == (level, files[i])
  {
    seq(|files|, i requires 0 <= i < |files| => (level, files[i]))
  }

  /** The files of the first `n` levels. */
  function AllFiles(levels: Levels, n: nat): seq<(nat, FileMetaData)>
    requires n <= |levels|
  {
    if n == 0 then [] else AllFiles(levels, n - 1) + LevelFiles(levels[n - 1], n - 1)
  }

  /** What WriteSnapshot records about the files. */
  method WriteSnapshot(current: Levels) returns (edit: FileEdit)
    requires |current| == NUM_LEVELS
    ensures edit == FileEdit({}, AllFiles(current, NUM_LEVELS))
  {
    var added: seq<(nat, FileMetaData)> := [];
    for level := 0 to NUM_LEVELS
      invariant added == AllFiles(current, level)
    {
      var files := current[level];
      ghost var before := added;
      for i := 0 to |files|
        invariant added == before + LevelFiles(files, level)[..i]
      {
        added := added + [(level, files[i])];
      }
      assert LevelFiles(files, level)[..|files|] == LevelFiles(files, level);
    }
    edit := FileEdit({}, added);
  }

  lemma {:induction false} AllFilesSpec(levels: Levels, n: nat)
    requires n <= |levels|
    ensures forall l, f :: (l, f) in AllFiles(levels, n) <==> 0 <= l < n && f in levels[l]
    ensures (forall l :: 0 <= l < n ==> DistinctNumbers(levels[l])) ==> AddsOnce(AllFiles(levels, n))
  {
    if n > 0 {
      AllFilesSpec(levels, n - 1);
      var init, last := AllFiles(levels, n - 1), LevelFiles(levels[n - 1], n - 1);
      forall l, f
        ensures (l, f) in last <==> l == n - 1 && f in levels[n - 1]
      {
        if l == n - 1 && f in levels[n - 1] {
          var i :| 0 <= i < |levels[n - 1]| && levels[n - 1][i] == f;
          assert last[i] == (l, f);
        }
      }
      if forall l :: 0 <= l < n ==> DistinctNumbers(levels[l]) {
        forall i, j | 0 <= i < j < |init + last| && (init + last)[i].0 == (init + last)[j].0
          ensures (init + last)[i].1.number != (init + last)[j].1.number
        {
          assert i < |init| ==> (init[i].0, init[i].1) in init;
        }
      }
    }
  }

  /** Replaying the record of a version gives its file lists back. */
  lemma SnapshotRestores(levels: Levels, level: nat)
    requires |levels| == NUM_LEVELS && level < NUM_LEVELS
    requires forall l :: 0 <= l < NUM_LEVELS ==> Ordered(levels[l]) && DistinctNumbers(levels[l])
    ensures SaveAt([], ApplyAt(EMPTY_LEVEL, FileEdit({}, AllFiles(levels, NUM_LEVELS)), level)) == levels[level]
  {
    hide BySmallest, MergeFiles, DropDeleted, InsertFile, Ordered, AddsOnce, DistinctNumbers, AddFiles;
    var added := AllFiles(levels, NUM_LEVELS);
    AllFilesSpec(levels, NUM_LEVELS);
    assert DeletedAt({}, level) == {};
    var s := LevelState({}, []);
    EmptyIsOrdered();
    AddFilesSpec(s, added, level);
    var r := AddFiles(s, added, level);
    assert r.deleted == {};
    SaveAtSpec([], r);
    OrderedDetermined(SaveAt([], r), levels[level]);
    assert s == EMPTY_LEVEL.(deleted := EMPTY_LEVEL.deleted + DeletedAt({}, level));
  }

  lemma EmptyIsOrdered()
    ensures Ordered([])
  {
  }

  /** Versions one after the other, from one edit on. */
  lemma {:induction false} FoldFrom(base: Files, first: FileEdit, edits: seq<FileEdit>, level: nat)
    ensures FoldAt(base, [first] + edits, level)
         == FoldAt(SaveAt(base, ApplyAt(EMPTY_LEVEL, first, level)), edits, level)
  {
    hide SaveAt, ApplyAt, AddFiles;
    if edits == [] {
      assert [first] + edits == [first] && [first][..0] == [];
      assert FoldAt(base, [first][..0], level) == base;
    } else {
      var k := |edits| - 1;
      FoldFrom(base, first, edits[..k], level);
      assert ([first] + edits)[..k + 1] == [first] + edits[..k];
    }
  }

  /** A manifest that begins with the record of a version and goes on with edits is
      recovered to what the edits made of that version, one after the other. */
  lemma ManifestRecovers(levels: Levels, edits: seq<FileEdit>, level: nat)
    requires |levels| == NUM_LEVELS && level < NUM_LEVELS
    requires forall l :: 0 <= l < NUM_LEVELS ==> Ordered(levels[l]) && DistinctNumbers(levels[l])
    requires FreshNumbers(levels[level], edits, level)
    ensures SaveAt([], ReplayAt([FileEdit({}, AllFiles(levels, NUM_LEVELS))] + edits, level))
         == FoldAt(levels[level], edits, level)
  {
    hide BySmallest, MergeFiles, DropDeleted, InsertFile, Ordered, DistinctNumbers, SaveAt, FreshNumbers;
    var first := FileEdit({}, AllFiles(levels, NUM_LEVELS));
    EmptyIsOrdered();
    SnapshotIsFresh(levels, edits, level);
    ReplayIsFold([], [first] + edits, level);
    FoldFrom([], first, edits, level);
    SnapshotRestores(levels, level);
  }

  lemma SnapshotIsFresh(levels: Levels, edits: seq<FileEdit>, level: nat)
    requires |levels| == NUM_LEVELS && level < NUM_LEVELS
    requires forall l :: 0 <= l < NUM_LEVELS ==> DistinctNumbers(levels[l])
    requires FreshNumbers(levels[level], edits, level)
    ensures FreshNumbers([], [FileEdit({}, AllFiles(levels, NUM_LEVELS))] + edits, level)
  {
    hide DistinctNumbers, AddsOnce;
    var first := FileEdit({}, AllFiles(levels, NUM_LEVELS));
    var all := [first] + edits;
    AllFilesSpec(levels, NUM_LEVELS);
    assert forall i :: 0 < i < |all| ==> all[i] == edits[i - 1];
    forall n, i | n in NumbersAt(first.added, level) && 0 <= i < |edits|
      ensures n !in NumbersAt(edits[i].added, level)
    {
      var p :| p in first.added && p.0 == level && p.1.number == n;
      assert (p.0, p.1) in first.added;
    }
    forall i, j | 0 <= i < j < |all|
      ensures NumbersAt(all[i].added, level) !! NumbersAt(all[j].added, level)
    {
      if i > 0 {
        assert NumbersAt(edits[i - 1].added, level) !! NumbersAt(edits[j - 1].added, level);
      }
    }
  }

  lemma ApplyOne(s: LevelState, g: FileMetaData)
    requires s.added == []
    ensures ApplyAt(s, FileEdit({}, [(0, g)]), 0) == LevelState(s.deleted - {g.number}, [g])
  {
    assert DeletedAt({}, 0) == {};
    assert s.deleted + {} == s.deleted;
    assert [(0, g)][..0] == [];
    assert AddFiles(s, [(0, g)][..0], 0) == s;
  }

  /** A number that comes back after its deletion breaks the equivalence: replayed at
      once, the old file stays; version by version, it is gone. */
  lemma ReplayNeedsFreshNumbers(f: FileMetaData, g: FileMetaData)
    requires f.number == g.number && f != g
    ensures
      var edits := [FileEdit({(0, f.number)}, []), FileEdit({}, [(0, g)])];
      f in SaveAt([f], ReplayAt(edits, 0)) && f !in FoldAt([f], edits, 0)
  {
    hide AddFiles;
    var e0, e1 := FileEdit({(0, f.number)}, []), FileEdit({}, [(0, g)]);
    var edits := [e0, e1];
    assert edits[..1] == [e0] && [e0][..0] == [];
    ReplayDeletion(f);
    ApplyOne(LevelState({f.number}, []), g);
    ApplyOne(EMPTY_LEVEL, g);
    assert ReplayAt(edits, 0) == LevelState({f.number} - {f.number}, [g]);
  }

  lemma ReplayDeletion(f: FileMetaData)
    ensures ReplayAt([FileEdit({(0, f.number)}, [])], 0) == LevelState({f.number}, [])
    ensures f !in FoldAt([f], [FileEdit({(0, f.number)}, [])], 0)
  {
    var e0 := FileEdit({(0, f.number)}, []);
    assert [e0][..0] == [];
    assert ReplayAt([e0][..0], 0) == EMPTY_LEVEL && FoldAt([f], [e0][..0], 0) == [f];
    assert DeletedAt(e0.deleted, 0) == {f.number};
  }
}
