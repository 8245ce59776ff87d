/** Choosing the files of a compaction. */
module CompactionInputs {
  import opened InternalKeys
  import opened Versions

  /** The files of a compaction, and the user range `[lo, hi]` of the upper ones. */
  datatype Inputs = Inputs(level: nat, upper: Files, lower: Files, lo: UserKey, hi: UserKey)

  ghost predicate IsUserRange(files: Files, lo: UserKey, hi: UserKey) {
    && (forall f :: f in files ==> lo <= f.smallest.user && f.largest.user <= hi)
    && (exists f :: f in files && f.smallest.user == lo)
    && (exists f :: f in files && f.largest.user == hi)
  }

  function InputFiles(c: Inputs): Files {
    c.upper + c.lower
  }

  /** Some file's user range holds `u`. */
  ghost predicate Holds(files: Files, u: UserKey) {
    exists f :: f in files && f.smallest.user <= u <= f.largest.user
  }

  /** There is no gap between the user ranges of the files. */
  ghost predicate Covered(files: Files) {
    forall u, f, g :: f in files && g in files && f.smallest.user <= u <= g.largest.user ==> Holds(files, u)
  }

  /** What choosing the inputs guarantees about them. */
  ghost predicate InputsOk(levels: Levels, c: Inputs) {
    && c.level + 1 < |levels|
    && (forall f :: f in c.upper ==> f in levels[c.level]) && InOrder(levels[c.level], c.upper)
    && IsUserRange(c.upper, c.lo, c.hi)
    && c.lower == Overlapping(levels[c.level + 1], Some(c.lo), Some(c.hi))
    && (c.level == 0 ==> TakesAll(levels[0], c.upper, c.lo, c.hi))
  }

  /** No file meeting the range stays behind. */
  ghost predicate TakesAll(files: Files, taken: Files, lo: UserKey, hi: UserKey) {
    forall f :: f in files && Overlaps(f, Some(lo), Some(hi)) ==> f in taken
  }

  method GetRange(inputs: Files) returns (smallest: InternalKey, largest: InternalKey)
    requires inputs != []
    ensures IsUserRange(inputs, smallest.user, largest.user)
    ensures exists f :: f in inputs && f.smallest == smallest
    ensures exists f :: f in inputs && f.largest == largest
    ensures forall f :: f in inputs ==> !Less(f.smallest, smallest) && !Less(largest, f.largest)
  {
    smallest, largest := inputs[0].smallest, inputs[0].largest;
    ghost var s, l := 0, 0;
    for i := 1 to |inputs|
      invariant 0 <= s < |inputs| && inputs[s].smallest == smallest
      invariant 0 <= l < |inputs| && inputs[l].largest == largest
      invariant forall j :: 0 <= j < i ==> !Less(inputs[j].smallest, smallest) && !Less(largest, inputs[j].largest)
    {
      var f := inputs[i];
      if Less(f.smallest, smallest) {
        smallest, s := f.smallest, i;
      }
      if Less(largest, f.largest) {
        largest, l := f.largest, i;
      }
    }
    assert inputs[s] in inputs && inputs[l] in inputs;
  }

  /** The files of the next level that a compaction of `upper` must take along. */
  method LowerInputs(levels: Levels, level: nat, upper: Files) returns (c: Inputs)
    requires LevelsOk(levels) && level + 1 < NUM_LEVELS
    requires upper != [] && InOrder(levels[level], upper) && forall f :: f in upper ==> f in levels[level]
    requires level == 0 ==> exists lo, hi :: IsUserRange(upper, lo, hi) && TakesAll(levels[0], upper, lo, hi)
    ensures InputsOk(levels, c) && c.level == level && c.upper == upper
    ensures Covered(upper) ==> Covered(InputFiles(c))
  {
    var smallest, largest := GetRange(upper);
    var lower, lo, hi := GetOverlappingInputs(levels[level + 1], level + 1, Some(smallest.user), Some(largest.user));
    RangeUnique(upper, smallest.user, largest.user);
    c := Inputs(level, upper, lower, smallest.user, largest.user);
    if Covered(upper) {
      LowerKeepsCovered(levels[level + 1], c);
    }
  }

  /** Lower files reach into the upper range, so they add no gap. */
  lemma LowerKeepsCovered(files: Files, c: Inputs)
    requires Covered(c.upper) && IsUserRange(c.upper, c.lo, c.hi)
    requires c.lower == Overlapping(files, Some(c.lo), Some(c.hi))
    ensures Covered(InputFiles(c))
  {
    forall u, f, g | f in InputFiles(c) && g in InputFiles(c) && f.smallest.user <= u <= g.largest.user
      ensures Holds(InputFiles(c), u)
    {
      if c.lo <= u <= c.hi {
        var first :| first in c.upper && first.smallest.user == c.lo;
        var last :| last in c.upper && last.largest.user == c.hi;
        assert Holds(c.upper, u);
        var h :| h in c.upper && h.smallest.user <= u <= h.largest.user;
        assert h in InputFiles(c);
      } else {
        var h := if u < c.lo then f else g;
        assert h in c.upper || Overlaps(h, Some(c.lo), Some(c.hi));
        assert h in InputFiles(c) && h.smallest.user <= u <= h.largest.user;
      }
    }
  }

  /** Grows the upper inputs to everything that meets the whole range so far, when
      that costs no further lower file and stays under the size limit. */
  method GrowInputs(levels: Levels, c: Inputs, maxFileSize: nat) returns (r: Inputs)
    requires LevelsOk(levels) && InputsOk(levels, c)
    ensures InputsOk(levels, r) && r.level == c.level
    ensures forall f :: f in c.upper ==> f in r.upper
    ensures r != c ==>
      && |r.lower| == |c.lower| && |r.upper| > |c.upper|
      && TotalFileSize(c.lower) + TotalFileSize(r.upper) < 25 * maxFileSize
    ensures Covered(InputFiles(c)) ==> Covered(InputFiles(r))
  {
    r := c;
    assert exists f :: f in c.upper;
    var allStart, allLimit := GetRange(InputFiles(c));
    var expanded0, lo, hi :=
      GetOverlappingInputs(levels[c.level], c.level, Some(allStart.user), Some(allLimit.user));
    if |expanded0| > |c.upper| && TotalFileSize(c.lower) + TotalFileSize(expanded0) < 25 * maxFileSize {
      ExpansionCovers(levels, c.level, c.upper, c.lower, expanded0, allStart.user, allLimit.user, lo.value, hi.value);
      OverlappingInOrder(levels[c.level], lo, hi);
      var grown := LowerInputs(levels, c.level, expanded0);
      if |grown.lower| == |c.lower| {
        if Covered(InputFiles(c)) {
          GrowKeepsCovered(levels, c, grown, allStart.user, allLimit.user, lo.value, hi.value);
        }
        r := grown;
      }
    }
  }

  /** The range the upper inputs are grown to has no gap. */
  lemma GrownRangeHeld(levels: Levels, c: Inputs, upper: Files, start: UserKey, limit: UserKey,
                       lo: UserKey, hi: UserKey, u: UserKey)
    requires LevelsOk(levels) && InputsOk(levels, c) && Covered(InputFiles(c))
    requires IsUserRange(InputFiles(c), start, limit)
    requires upper == Overlapping(levels[c.level], Some(lo), Some(hi))
    requires c.level > 0 ==> lo == start && hi == limit
    requires c.level == 0 ==> LeastClosed(levels[0], Some(start), Some(limit), Some(lo), Some(hi))
    requires lo <= u <= hi
    ensures Holds(InputFiles(c), u) || Holds(upper, u)
  {
    if start <= u <= limit {
      var f :| f in InputFiles(c) && f.smallest.user == start;
      var g :| g in InputFiles(c) && g.largest.user == limit;
    } else if !Holds(upper, u) {
      assert forall f :: f in upper ==> !(f.smallest.user <= u <= f.largest.user);
      if u < start {
        assert Closed(levels[0], Some(u + 1), Some(hi));
        assert Contains(Some(u + 1), Some(hi), Some(start), Some(limit));
      } else {
        assert Closed(levels[0], Some(lo), Some(u - 1));
        assert Contains(Some(lo), Some(u - 1), Some(start), Some(limit));
      }
    }
  }

  lemma GrowKeepsInputs(levels: Levels, c: Inputs, r: Inputs)
    requires InputsOk(levels, c) && InputsOk(levels, r) && r.level == c.level
    requires forall f :: f in c.upper ==> f in r.upper
    ensures forall f :: f in InputFiles(c) ==> f in InputFiles(r)
  {
    forall f | f in c.lower
      ensures f in InputFiles(r)
    {
      assert f in levels[c.level + 1] && Overlaps(f, Some(c.lo), Some(c.hi));
      assert Overlaps(f, Some(r.lo), Some(r.hi));
    }
  }

  lemma GrowKeepsCovered(levels: Levels, c: Inputs, r: Inputs, start: UserKey, limit: UserKey, lo: UserKey, hi: UserKey)
    requires LevelsOk(levels) && InputsOk(levels, c) && InputsOk(levels, r) && r.level == c.level
    requires Covered(InputFiles(c)) && IsUserRange(InputFiles(c), start, limit)
    requires forall f :: f in c.upper ==> f in r.upper
    requires r.upper == Overlapping(levels[c.level], Some(lo), Some(hi))
    requires c.level > 0 ==> lo == start && hi == limit
    requires c.level == 0 ==> LeastClosed(levels[0], Some(start), Some(limit), Some(lo), Some(hi))
    ensures Covered(InputFiles(r))
  {
    hide LevelsOk, Covered, IsUserRange, LeastClosed, InputsOk;
    GrowKeepsInputs(levels, c, r);
    forall u | lo <= u <= hi
      ensures Holds(InputFiles(r), u)
    {
      GrownRangeHeld(levels, c, r.upper, start, limit, lo, hi, u);
    }
    ReachingKeepsCovered(levels, r, lo, hi);
  }

  /** Inputs that reach into a held range, or into a file that does, leave no gap. */
  lemma ReachingKeepsCovered(levels: Levels, r: Inputs, lo: UserKey, hi: UserKey)
    requires InputsOk(levels, r)
    requires r.upper == Overlapping(levels[r.level], Some(lo), Some(hi))
    requires forall u :: lo <= u <= hi ==> Holds(InputFiles(r), u)
    ensures Covered(InputFiles(r))
  {
    var first :| first in r.upper && first.smallest.user == r.lo;
    var last :| last in r.upper && last.largest.user == r.hi;
    forall u, f, g | f in InputFiles(r) && g in InputFiles(r) && f.smallest.user <= u <= g.largest.user
      ensures Holds(InputFiles(r), u)
    {
      if u < lo {
        var h := if f.largest.user >= u then f else first;
        assert f in r.upper || Overlaps(f, Some(r.lo), Some(r.hi));
        assert h in InputFiles(r) && h.smallest.user <= u <= h.largest.user;
      } else if u > hi {
        var h := if g.smallest.user <= u then g else last;
        assert g in r.upper || Overlaps(g, Some(r.lo), Some(r.hi));
        assert h in InputFiles(r) && h.smallest.user <= u <= h.largest.user;
      }
    }
  }

  /** The files two levels down that the range of all inputs meets. */
  ghost predicate AreGrandparents(levels: Levels, c: Inputs, grandparents: Files) {
    if c.level + 2 < |levels| then
      exists lo, hi :: IsUserRange(InputFiles(c), lo, hi) && grandparents == Overlapping(levels[c.level + 2], Some(lo), Some(hi))
    else grandparents == []
  }

  lemma GrandparentsUnique(levels: Levels, c: Inputs, grandparents: Files)
    requires AreGrandparents(levels, c, grandparents)
    ensures forall g :: AreGrandparents(levels, c, g) ==> g == grandparents
  {
    hide IsUserRange;
    if c.level + 2 < |levels| {
      var lo, hi :| IsUserRange(InputFiles(c), lo, hi) && grandparents == Overlapping(levels[c.level + 2], Some(lo), Some(hi));
      RangeUnique(InputFiles(c), lo, hi);
    }
  }

  /** One file with nothing to merge it with, and not too much below it. */
  ghost predicate IsTrivialMove(levels: Levels, c: Inputs, maxFileSize: nat) {
    && |c.upper| == 1 && c.lower == []
    && forall g :: AreGrandparents(levels, c, g) ==> TotalFileSize(g) <= 10 * maxFileSize
  }

  /** Sets up the lower inputs and the grandparents of a compaction. */
  method SetupOtherInputs(levels: Levels, level: nat, inputs0: Files, maxFileSize: nat)
    returns (c: Inputs, grandparents: Files)
    requires LevelsOk(levels) && level + 1 < NUM_LEVELS
    requires inputs0 != [] && InOrder(levels[level], inputs0) && forall f :: f in inputs0 ==> f in levels[level]
    requires level == 0 ==> exists lo, hi :: IsUserRange(inputs0, lo, hi) && TakesAll(levels[0], inputs0, lo, hi)
    ensures InputsOk(levels, c) && c.level == level
    ensures forall f :: f in inputs0 ==> f in c.upper
    ensures c.upper != inputs0 ==> c.lower != [] && TotalFileSize(c.upper) < 25 * maxFileSize
    ensures AreGrandparents(levels, c, grandparents)
    ensures Covered(inputs0) ==> Covered(InputFiles(c))
  {
    c := LowerInputs(levels, level, inputs0);
    if c.lower != [] {
      c := GrowInputs(levels, c, maxFileSize);
    }
    grandparents := [];
    if level + 2 < NUM_LEVELS {
      assert exists f :: f in c.upper;
      var allStart, allLimit := GetRange(InputFiles(c));
      ghost var lo, hi;
      grandparents, lo, hi :=
        GetOverlappingInputs(levels[level + 2], level + 2, Some(allStart.user), Some(allLimit.user));
    }
  }

  lemma RangeUnique(files: Files, lo: UserKey, hi: UserKey)
    requires IsUserRange(files, lo, hi)
    ensures forall lo', hi' :: IsUserRange(files, lo', hi') ==> lo' == lo && hi' == hi
  {
  }

  /** The grown inputs contain the original ones and, at level zero, still leave no
      overlapping file behind. */
  lemma ExpansionCovers(levels: Levels, level: nat, upper: Files, lower: Files, expanded: Files,
                        allStart: UserKey, allLimit: UserKey, lo: UserKey, hi: UserKey)
    requires LevelsOk(levels) && level + 1 < NUM_LEVELS
    requires forall f :: f in upper ==> f in levels[level]
    requires IsUserRange(upper + lower, allStart, allLimit)
    requires expanded == Overlapping(levels[level], Some(lo), Some(hi))
    requires level > 0 ==> lo == allStart && hi == allLimit
    requires level == 0 ==> LeastClosed(levels[0], Some(allStart), Some(allLimit), Some(lo), Some(hi))
    ensures forall f :: f in upper ==> f in expanded
    ensures level == 0 && expanded != [] ==>
      exists s, l :: IsUserRange(expanded, s, l) && TakesAll(levels[0], expanded, s, l)
  {
    forall f | f in upper
      ensures f in expanded
    {
      assert f in upper + lower && FileOk(f);
      EntryInRange(f, f.entries[0]);
    }
    if level == 0 && expanded != [] {
      ClosedTakesAll(levels[0], expanded, Some(lo), Some(hi));
    }
  }

  /** PickCompaction around a file the policy has chosen. */
  method PickCompaction(levels: Levels, level: nat, picked: FileMetaData, maxFileSize: nat)
    returns (c: Inputs, grandparents: Files)
    requires LevelsOk(levels) && level + 1 < NUM_LEVELS && picked in levels[level]
    ensures InputsOk(levels, c) && c.level == level && picked in c.upper
    ensures Covered(InputFiles(c)) && AreGrandparents(levels, c, grandparents)
    ensures level > 0 && c.lower == [] ==> c.upper == [picked]
  {
    hide Covered, LeastClosed, TakesAll, InputsOk, InOrder, Holds, FileOk, Disjoint, TotalFileSize, AreGrandparents;
    var inputs := [picked];
    OneFile(levels[level], picked);
    if level == 0 {
      var smallest, largest := GetRange(inputs);
      ghost var lo, hi;
      inputs, lo, hi := GetOverlappingInputs(levels[0], 0, Some(smallest.user), Some(largest.user));
      LeastClosedContains(levels[0], Some(smallest.user), Some(largest.user), lo, hi);
      assert picked in [picked] && picked in inputs;
      LevelZeroCovered(levels[0], picked, inputs, lo.value, hi.value);
      ClosedTakesAll(levels[0], inputs, lo, hi);
      OverlappingInOrder(levels[0], lo, hi);
    }
    c, grandparents := SetupOtherInputs(levels, level, inputs, maxFileSize);
  }

  lemma LeastClosedContains(files: Files, begin: Option<UserKey>, end: Option<UserKey>,
                            lo: Option<UserKey>, hi: Option<UserKey>)
    requires LeastClosed(files, begin, end, lo, hi)
    ensures Contains(lo, hi, begin, end) && Closed(files, lo, hi)
  {
  }

  lemma OneFile(files: Files, f: FileMetaData)
    requires FilesOk(files) && f in files
    ensures InOrder(files, [f]) && Covered([f]) && f.smallest.user <= f.largest.user
  {
    EntryInRange(f, f.entries[0]);
    assert f in [f];
  }

  /** The least closed range around one level-zero file has no gap. */
  lemma LevelZeroCovered(files: Files, picked: FileMetaData, inputs: Files, lo: UserKey, hi: UserKey)
    requires FilesOk(files) && picked in inputs
    requires inputs == Overlapping(files, Some(lo), Some(hi))
    requires LeastClosed(files, Some(picked.smallest.user), Some(picked.largest.user), Some(lo), Some(hi))
    ensures Covered(inputs)
  {
    forall u | lo <= u <= hi
      ensures Holds(inputs, u)
    {
      if !Holds(inputs, u) {
        assert forall f :: f in inputs ==> !(f.smallest.user <= u <= f.largest.user);
        if u < picked.smallest.user {
          assert Closed(files, Some(u + 1), Some(hi));
          assert Contains(Some(u + 1), Some(hi), Some(picked.smallest.user), Some(picked.largest.user));
        } else {
          assert Closed(files, Some(lo), Some(u - 1));
          assert Contains(Some(lo), Some(u - 1), Some(picked.smallest.user), Some(picked.largest.user));
        }
      }
    }
  }

  /** The files of a closed range leave no overlapping file behind. */
  lemma ClosedTakesAll(files: Files, inputs: Files, lo: Option<UserKey>, hi: Option<UserKey>)
    requires FilesOk(files) && inputs != []
    requires inputs == Overlapping(files, lo, hi) && Closed(files, lo, hi)
    ensures exists s, l :: IsUserRange(inputs, s, l) && TakesAll(files, inputs, s, l)
  {
    var s, l := UserRange(inputs);
    assert TakesAll(files, inputs, s, l);
  }

  lemma {:induction false} UserRange(files: Files) returns (lo: UserKey, hi: UserKey)
    requires files != []
    ensures IsUserRange(files, lo, hi)
  {
    var f := files[0];
    assert files == [f] + files[1..];
    if |files| == 1 {
      lo, hi := f.smallest.user, f.largest.user;
    } else {
      lo, hi := UserRange(files[1..]);
      lo := if f.smallest.user < lo then f.smallest.user else lo;
      hi := if f.largest.user > hi then f.largest.user else hi;
    }
  }

  /** A level-zero range only grows if some file meets it to begin with. */
  lemma GrowthNeedsOverlap(files: Files, level: nat, begin: Option<UserKey>, end: Option<UserKey>,
                           lo: Option<UserKey>, hi: Option<UserKey>)
    requires Overlapping(files, lo, hi) != []
    requires level > 0 ==> lo == begin && hi == end
    requires level == 0 ==> LeastClosed(files, begin, end, lo, hi)
    ensures exists f :: f in files && Overlaps(f, begin, end)
  {
    var g := Overlapping(files, lo, hi)[0];
    assert g in Overlapping(files, lo, hi);
    if level == 0 && !Overlaps(g, begin, end) && Closed(files, begin, end) {
      assert Contains(begin, end, begin, end);
    }
  }

  /** The files that a manual compaction of `[begin, end]` is asked for: all that meet the
      range, which at level zero is widened until it is closed, and deeper down only the
      first of them, up to the one with which they reach the size limit. */
  ghost predicate IsAsked(files: Files, level: nat, begin: Option<UserKey>, end: Option<UserKey>, limit: nat, asked: Files) {
    exists lo, hi ::
      var meeting := Overlapping(files, lo, hi);
      if level == 0 then LeastClosed(files, begin, end, lo, hi) && asked == meeting
      else lo == begin && hi == end && IsCut(meeting, limit, asked)
  }

  ghost predicate IsCut(files: Files, limit: nat, cut: Files) {
    && cut != [] && cut <= files
    && (|cut| > 1 ==> TotalFileSize(cut[..|cut| - 1]) < limit)
    && (cut == files || TotalFileSize(cut) >= limit)
  }

  /** The inputs are what was asked for, possibly grown within the size limit. */
  ghost predicate TakesAsked(levels: Levels, c: Inputs, begin: Option<UserKey>, end: Option<UserKey>, maxFileSize: nat)
    requires c.level < |levels|
  {
    exists asked ::
      && IsAsked(levels[c.level], c.level, begin, end, maxFileSize, asked)
      && (forall f :: f in asked ==> f in c.upper)
      && (c.upper != asked ==> c.lower != [] && TotalFileSize(c.upper) < 25 * maxFileSize)
  }

  /** CompactRange: a manual compaction of `[begin, end]`, cut off above level zero
      once it is big enough. */
  method CompactRange(levels: Levels, level: nat, begin: Option<UserKey>, end: Option<UserKey>, maxFileSize: nat)
    returns (r: Option<(Inputs, Files)>)
    requires LevelsOk(levels) && level + 1 < NUM_LEVELS
    ensures r.Some? ==> InputsOk(levels, r.value.0) && r.value.0.level == level
    ensures r.Some? ==> TakesAsked(levels, r.value.0, begin, end, maxFileSize)
    ensures r.Some? ==> AreGrandparents(levels, r.value.0, r.value.1)
    ensures r.None? <==> forall f :: f in levels[level] ==> !Overlaps(f, begin, end)
  {
    hide IsAsked, IsCut, InputsOk, AreGrandparents, LeastClosed, TakesAll, Covered, TotalFileSize, Overlaps, ComesBefore;
    var inputs, lo, hi := GetOverlappingInputs(levels[level], level, begin, end);
    if inputs == [] {
      NothingAsked(levels[level], level, begin, end, lo, hi);
      return None;
    }
    GrowthNeedsOverlap(levels[level], level, begin, end, lo, hi);
    OverlappingInOrder(levels[level], lo, hi);
    if level > 0 {
      ghost var chosen := inputs;
      inputs := TruncateInputs(inputs, maxFileSize);
      CutIsPart(chosen, maxFileSize, inputs);
    } else {
      ClosedTakesAll(levels[0], inputs, lo, hi);
    }
    AskedIs(levels[level], level, begin, end, maxFileSize, inputs, lo, hi);
    var c, grandparents := SetupOtherInputs(levels, level, inputs, maxFileSize);
    r := Some((c, grandparents));
  }

  lemma NothingAsked(files: Files, level: nat, begin: Option<UserKey>, end: Option<UserKey>,
                     lo: Option<UserKey>, hi: Option<UserKey>)
    requires Overlapping(files, lo, hi) == []
    requires if level == 0 then LeastClosed(files, begin, end, lo, hi) else lo == begin && hi == end
    ensures forall f :: f in files ==> !Overlaps(f, begin, end)
  {
    assert forall f :: f in files && Overlaps(f, lo, hi) ==> f in Overlapping(files, lo, hi);
  }

  lemma AskedIs(files: Files, level: nat, begin: Option<UserKey>, end: Option<UserKey>, limit: nat, asked: Files,
                lo: Option<UserKey>, hi: Option<UserKey>)
    requires
      var meeting := Overlapping(files, lo, hi);
      if level == 0 then LeastClosed(files, begin, end, lo, hi) && asked == meeting
      else lo == begin && hi == end && IsCut(meeting, limit, asked)
    ensures IsAsked(files, level, begin, end, limit, asked)
  {
    hide LeastClosed, IsCut, Overlapping;
  }

  lemma CutIsPart(files: Files, limit: nat, cut: Files)
    requires IsCut(files, limit, cut)
    ensures cut != [] && |cut| <= |files| && forall i :: 0 <= i < |cut| ==> cut[i] == files[i]
  {
  }

  /** The first files, up to and including the one that reaches the size limit. */
  method TruncateInputs(inputs: Files, limit: nat) returns (r: Files)
    requires inputs != []
    ensures IsCut(inputs, limit, r)
  {
    var total := 0;
    for i := 0 to |inputs|
      invariant total == TotalFileSize(inputs[..i])
      invariant i > 0 ==> total < limit
    {
      TotalSnoc(inputs, i);
      total := total + inputs[i].fileSize;
      if total >= limit {
        r := inputs[..i + 1];
        assert r[..|r| - 1] == inputs[..i];
        return;
      }
    }
    r := inputs;
    assert inputs[..|inputs|] == inputs;
    TotalSnoc(inputs, |inputs| - 1);
  }

  lemma {:induction false} TotalSnoc(files: Files, i: nat)
    requires i < |files|
    ensures TotalFileSize(files[..i + 1]) == TotalFileSize(files[..i]) + files[i].fileSize
  {
    if i > 0 {
      TotalSnoc(files[1..], i - 1);
      assert files[..i + 1][1..] == files[1..][..i] && files[..i][1..] == files[1..][..i - 1];
    }
  }
}
