/** A compaction: which entries of the merged input survive, and why dropping the
    others changes no reader's view. */
module Compactions {
  import opened InternalKeys
  import opened Versions

  // ---------------------------------------------------------------- the drop rule

  /** No file two or more levels below `level` covers `u`. */
  ghost predicate BaseLevelForKey(levels: Levels, level: nat, u: UserKey) {
    forall l, f :: level + 2 <= l < |levels| && f in levels[l] ==> !(f.smallest.user <= u <= f.largest.user)
  }

  /** Entry `i` of the merged input is hidden by its predecessor, or is a deletion
      marker with nothing left to delete. */
  ghost predicate Dropped(input: seq<Entry>, i: nat, smallest: nat, levels: Levels, level: nat)
    requires i < |input|
  {
    || (i > 0 && input[i - 1].key.user == input[i].key.user && input[i - 1].key.sequence <= smallest)
    || (&& input[i].key.kind.Deletion?
        && input[i].key.sequence <= smallest
        && BaseLevelForKey(levels, level, input[i].key.user))
  }

  /** The survivors among the first `n` entries. */
  ghost function Kept(input: seq<Entry>, n: nat, smallest: nat, levels: Levels, level: nat): seq<Entry>
    requires n <= |input|
  {
    if n == 0 then []
    else Kept(input, n - 1, smallest, levels, level)
         + if Dropped(input, n - 1, smallest, levels, level) then [] else [input[n - 1]]
  }

  lemma {:induction false} KeptElements(input: seq<Entry>, n: nat, smallest: nat, levels: Levels, level: nat)
    requires n <= |input|
    ensures forall e :: e in Kept(input, n, smallest, levels, level) <==>
              exists i :: 0 <= i < n && input[i] == e && !Dropped(input, i, smallest, levels, level)
  {
    if n > 0 {
      KeptElements(input, n - 1, smallest, levels, level);
    }
  }

  /** The other entries of the database, seen from a compaction: those for a key
      whose deletion markers may go must all be newer than the input's. */
  ghost predicate RestIsSafe(rest: set<Entry>, input: seq<Entry>, levels: Levels, level: nat) {
    forall r, e :: r in rest && e in input && r.key.user == e.key.user && BaseLevelForKey(levels, level, e.key.user)
      ==> r.key.sequence > e.key.sequence
  }

  /** The input's newest readable entry for `u` is a marker that the rule drops, and
      the rest of the database holds an older value that it was hiding. */
  ghost predicate Resurrects(input: seq<Entry>, rest: set<Entry>, smallest: nat, levels: Levels, level: nat, u: UserKey) {
    exists i :: 0 <= i < |input|
      && Newest(rest + Elements(input), u, smallest, input[i])
      && input[i].key.kind.Deletion? && BaseLevelForKey(levels, level, u)
      && Visible(rest, u, smallest).Some?
  }

  /** A marker that is dropped leaves the reader with what the rest tells him. */
  lemma DroppedMarkerView(input: seq<Entry>, rest: set<Entry>, smallest: nat, levels: Levels, level: nat,
                          i: nat, u: UserKey, s: nat)
    requires Sorted(input) && Distinct(rest + Elements(input)) && smallest <= s && i < |input|
    requires Newest(rest + Elements(input), u, s, input[i]) && Dropped(input, i, smallest, levels, level)
    ensures input[i].key.kind.Deletion? && BaseLevelForKey(levels, level, u)
    ensures Newest(rest + Elements(input), u, smallest, input[i])
    ensures Visible(rest + Elements(Kept(input, |input|, smallest, levels, level)), u, s) == Visible(rest, u, smallest)
  {
    hide BaseLevelForKey, Visible, Distinct, Sorted;
    var kept := Kept(input, |input|, smallest, levels, level);
    KeptElements(input, |input|, smallest, levels, level);
    NotHidden(input, rest, smallest, i, u, s);
    forall x | x in kept
      ensures !Candidate(x, u, s)
    {
      if Candidate(x, u, s) {
        var j :| 0 <= j < |input| && input[j] == x && !Dropped(input, j, smallest, levels, level);
        NewestIsUnique(rest + Elements(input), u, s, input[i], input[j]);
        NothingBelowMarker(input, i, j, smallest, levels, level);
      }
    }
    SubsetIsDistinct(rest, rest + Elements(input));
    SubsetIsDistinct(rest + Elements(kept), rest + Elements(input));
    assert forall x :: x in rest && Candidate(x, u, s) ==> Candidate(x, u, smallest);
    SameCandidates(rest + Elements(kept), s, rest, smallest, u);
  }

  lemma NewestIsUnique(S: set<Entry>, u: UserKey, s: nat, e: Entry, x: Entry)
    requires Distinct(S) && Newest(S, u, s, e) && x in S && Candidate(x, u, s)
    ensures x == e || x.key.sequence < e.key.sequence
  {
  }

  lemma SubsetIsDistinct(S: set<Entry>, T: set<Entry>)
    requires S <= T && Distinct(T)
    ensures Distinct(S)
  {
  }

  /** Compaction changes the view of `u` at or above the smallest snapshot only if
      it resurrects `u`. */
  lemma KeptViewOf(input: seq<Entry>, rest: set<Entry>, smallest: nat, levels: Levels, level: nat,
                   u: UserKey, s: nat)
    requires Sorted(input) && Distinct(rest + Elements(input)) && smallest <= s
    requires !Resurrects(input, rest, smallest, levels, level, u)
    ensures Visible(rest + Elements(Kept(input, |input|, smallest, levels, level)), u, s)
         == Visible(rest + Elements(input), u, s)
  {
    hide Visible, Distinct, Sorted, Dropped;
    var before := rest + Elements(input);
    var after := rest + Elements(Kept(input, |input|, smallest, levels, level));
    KeptElements(input, |input|, smallest, levels, level);
    SubsetIsDistinct(after, before);
    if !HasCandidate(before, u, s) {
      VisibleWithoutCandidate(before, u, s);
      VisibleWithoutCandidate(after, u, s);
      return;
    }
    var e := NewestExists(before, u, s);
    VisibleIsNewest(before, u, s, e);
    if e in after {
      VisibleIsNewest(after, u, s, e);
      return;
    }
    var i :| 0 <= i < |input| && input[i] == e;
    assert Dropped(input, i, smallest, levels, level);
    DroppedMarkerView(input, rest, smallest, levels, level, i, u, s);
  }

  /** The views at and above the smallest snapshot all stay the same exactly when no
      key is resurrected. */
  lemma KeptViewsExact(input: seq<Entry>, rest: set<Entry>, smallest: nat, levels: Levels, level: nat)
    requires Sorted(input) && Distinct(rest + Elements(input))
    ensures SameViews(rest + Elements(Kept(input, |input|, smallest, levels, level)), rest + Elements(input), smallest)
       <==> (forall u :: !Resurrects(input, rest, smallest, levels, level, u))
  {
    hide Visible, Distinct, Sorted, Kept, Resurrects;
    forall u, s: nat | smallest <= s && !Resurrects(input, rest, smallest, levels, level, u)
      ensures Visible(rest + Elements(Kept(input, |input|, smallest, levels, level)), u, s)
           == Visible(rest + Elements(input), u, s)
    {
      KeptViewOf(input, rest, smallest, levels, level, u, s);
    }
    forall u | Resurrects(input, rest, smallest, levels, level, u)
      ensures Visible(rest + Elements(Kept(input, |input|, smallest, levels, level)), u, smallest)
           != Visible(rest + Elements(input), u, smallest)
    {
      ResurrectedView(input, rest, smallest, levels, level, u);
    }
  }

  lemma ResurrectedView(input: seq<Entry>, rest: set<Entry>, smallest: nat, levels: Levels, level: nat, u: UserKey)
    requires Sorted(input) && Distinct(rest + Elements(input))
    requires Resurrects(input, rest, smallest, levels, level, u)
    ensures Visible(rest + Elements(Kept(input, |input|, smallest, levels, level)), u, smallest).Some?
    ensures Visible(rest + Elements(input), u, smallest).None?
  {
    hide Visible, Distinct, Sorted, BaseLevelForKey;
    var i :| 0 <= i < |input| && Newest(rest + Elements(input), u, smallest, input[i])
             && input[i].key.kind.Deletion? && BaseLevelForKey(levels, level, u)
             && Visible(rest, u, smallest).Some?;
    VisibleIsNewest(rest + Elements(input), u, smallest, input[i]);
    DroppedMarkerView(input, rest, smallest, levels, level, i, u, smallest);
  }

  /** Compaction changes no view at or above the smallest snapshot. */
  lemma KeptKeepsViews(input: seq<Entry>, rest: set<Entry>, smallest: nat, levels: Levels, level: nat,
                       u: UserKey, s: nat)
    requires Sorted(input)
    requires Distinct(rest + Elements(input))
    requires RestIsSafe(rest, input, levels, level)
    requires smallest <= s
    ensures Visible(rest + Elements(Kept(input, |input|, smallest, levels, level)), u, s)
         == Visible(rest + Elements(input), u, s)
  {
    hide Visible, Distinct, Sorted, BaseLevelForKey, Kept;
    if Resurrects(input, rest, smallest, levels, level, u) {
      var i :| 0 <= i < |input| && Newest(rest + Elements(input), u, smallest, input[i])
               && BaseLevelForKey(levels, level, u) && Visible(rest, u, smallest).Some?;
      forall x | x in rest
        ensures !Candidate(x, u, smallest)
      {
        assert input[i] in input && (x in rest + Elements(input));
      }
      VisibleWithoutCandidate(rest, u, smallest);
      assert false;
    }
    KeptViewOf(input, rest, smallest, levels, level, u, s);
  }

  /** The newest entry at `s` cannot be hidden by its predecessor. */
  lemma NotHidden(input: seq<Entry>, rest: set<Entry>, smallest: nat, i: nat, u: UserKey, s: nat)
    requires Sorted(input) && Distinct(rest + Elements(input)) && smallest <= s && i < |input|
    requires Newest(rest + Elements(input), u, s, input[i])
    ensures !(i > 0 && input[i - 1].key.user == input[i].key.user && input[i - 1].key.sequence <= smallest)
  {
    if i > 0 && input[i - 1].key.user == input[i].key.user && input[i - 1].key.sequence <= smallest {
      var p := input[i - 1];
      assert Less(p.key, input[i].key);
      assert p in rest + Elements(input) && Candidate(p, u, s);
    }
  }

  /** Behind a marker at or below the smallest snapshot, every entry of its key is hidden. */
  lemma NothingBelowMarker(input: seq<Entry>, i: nat, j: nat, smallest: nat, levels: Levels, level: nat)
    requires Sorted(input) && i < |input| && j < |input|
    requires input[i].key.user == input[j].key.user && input[i].key.sequence <= smallest
    requires input[j].key.sequence < input[i].key.sequence
    ensures Dropped(input, j, smallest, levels, level)
  {
    assert i < j;
    assert i < j - 1 ==> Less(input[i].key, input[j - 1].key);
    assert Less(input[j - 1].key, input[j].key);
  }

  // ---------------------------------------------------------------- the compaction object

  function SizeBetween(files: Files, from: nat, to: nat): nat
    requires from <= to <= |files|
  {
    if from == to then 0 else SizeBetween(files, from, to - 1) + files[to - 1].fileSize
  }

  class Compaction {
    const level: nat
    const levels: Levels         // the files of the input version
    const grandparents: Files
    const maxFileSize: nat
    const levelPtrs: array<nat>
    var grandparentIndex: nat
    var seenKey: bool
    var overlappedBytes: nat

    constructor (level: nat, levels: Levels, grandparents: Files, maxFileSize: nat)
      requires level + 1 < NUM_LEVELS && LevelsOk(levels)
      ensures Valid() && fresh(levelPtrs)
      ensures this.level == level && this.levels == levels && this.grandparents == grandparents
      ensures this.maxFileSize == maxFileSize
      ensures AtStart()
      ensures grandparentIndex == 0 && !seenKey && overlappedBytes == 0
    {
      this.level, this.levels, this.grandparents, this.maxFileSize := level, levels, grandparents, maxFileSize;
      levelPtrs := new nat[NUM_LEVELS](_ => 0);
      grandparentIndex, seenKey, overlappedBytes := 0, false, 0;
    }

    ghost predicate PointersOk()
      reads levelPtrs
    {
      && level + 1 < NUM_LEVELS && LevelsOk(levels)
      && levelPtrs.Length == NUM_LEVELS
      && forall l :: level + 2 <= l < NUM_LEVELS ==> levelPtrs[l] <= |levels[l]|
    }

    ghost predicate Valid()
      reads this, levelPtrs
    {
      PointersOk() && grandparentIndex <= |grandparents|
    }

    ghost predicate AtStart()
      requires PointersOk()
      reads levelPtrs
    {
      forall l :: level + 2 <= l < NUM_LEVELS ==> levelPtrs[l] == 0
    }

    /** Every file a level pointer has passed lies wholly before `u`. */
    ghost predicate PointersBehind(u: UserKey)
      requires PointersOk()
      reads levelPtrs
    {
      forall l, j :: level + 2 <= l < NUM_LEVELS && 0 <= j < levelPtrs[l] ==> levels[l][j].largest.user < u
    }

    /** The moving pointers give the answer of a scan over all deeper files, as long
        as keys are asked for in order. */
    method IsBaseLevelForKey(u: UserKey) returns (r: bool)
      requires Valid() && PointersBehind(u)
      modifies levelPtrs
      ensures Valid() && PointersBehind(u)
      ensures r <==> BaseLevelForKey(levels, level, u)
    {
      for lvl := level + 2 to NUM_LEVELS
        invariant Valid() && PointersBehind(u)
        invariant forall l, f :: level + 2 <= l < lvl && f in levels[l] ==> !(f.smallest.user <= u <= f.largest.user)
      {
        var files := levels[lvl];
        while levelPtrs[lvl] < |files|
          invariant Valid() && PointersBehind(u)
          decreases |files| - levelPtrs[lvl]
        {
          var f := files[levelPtrs[lvl]];
          if u <= f.largest.user {
            if u >= f.smallest.user {
              assert f in files;
              return false;
            }
            break;
          }
          levelPtrs[lvl] := levelPtrs[lvl] + 1;
        }
        forall f | f in files
          ensures !(f.smallest.user <= u <= f.largest.user)
        {
          var p := levelPtrs[lvl];
          var j :| 0 <= j < |files| && files[j] == f;
          if j > p {
            assert files[p] in files && Less(files[p].largest, f.smallest);
            EntryInRange(files[p], files[p].entries[0]);
          }
        }
      }
      r := true;
    }

    /** Cut the output when the grandparent files passed since the last cut, counted
        from the first key on, exceed the limit. */
    method ShouldStopBefore(key: InternalKey) returns (r: bool)
      requires Valid()
      modifies this`grandparentIndex, this`seenKey, this`overlappedBytes
      ensures Valid() && seenKey
      ensures old(grandparentIndex) <= grandparentIndex
      ensures forall i :: old(grandparentIndex) <= i < grandparentIndex ==> Less(grandparents[i].largest, key)
      ensures grandparentIndex < |grandparents| ==> !Less(grandparents[grandparentIndex].largest, key)
      ensures
        var total := old(overlappedBytes)
                     + (if old(seenKey) then SizeBetween(grandparents, old(grandparentIndex), grandparentIndex) else 0);
        && r == (total > 10 * maxFileSize)
        && overlappedBytes == if r then 0 else total
    {
      while grandparentIndex < |grandparents| && Less(grandparents[grandparentIndex].largest, key)
        invariant Valid()
        invariant old(grandparentIndex) <= grandparentIndex
        invariant seenKey == old(seenKey)
        invariant forall i :: old(grandparentIndex) <= i < grandparentIndex ==> Less(grandparents[i].largest, key)
        invariant overlappedBytes == old(overlappedBytes)
                  + (if seenKey then SizeBetween(grandparents, old(grandparentIndex), grandparentIndex) else 0)
      {
        if seenKey {
          overlappedBytes := overlappedBytes + grandparents[grandparentIndex].fileSize;
        }
        grandparentIndex := grandparentIndex + 1;
      }
      seenKey := true;
      if overlappedBytes > 10 * maxFileSize {
        overlappedBytes := 0;
        r := true;
      } else {
        r := false;
      }
    }
  }

  // ---------------------------------------------------------------- the compaction loop

  function Flatten(files: Files): seq<Entry> {
    if files == [] then [] else Flatten(files[..|files| - 1]) + files[|files| - 1].entries
  }

  /** One output table under construction. */
  datatype Output = Output(number: nat, smallest: InternalKey, largest: InternalKey, entries: seq<Entry>)

  ghost predicate OutputOk(b: Option<Output>) {
    b.Some? ==>
      && b.value.entries != []
      && b.value.smallest == b.value.entries[0].key
      && b.value.largest == b.value.entries[|b.value.entries| - 1].key
  }

  function Building(b: Option<Output>): seq<Entry> {
    if b.Some? then b.value.entries else []
  }

  function Finished(b: Output, size: nat): FileMetaData {
    FileMetaData(b.number, size, b.smallest, b.largest, b.entries)
  }

  lemma {:induction false} FlattenDisjoint(files: Files)
    requires FilesOk(files) && Sorted(Flatten(files))
    ensures Disjoint(files)
  {
    if files != [] {
      var k := |files| - 1;
      var init, last, all := files[..k], files[k], Flatten(files);
      assert files == init + [last] && last in files;
      assert forall i :: 0 <= i < |Flatten(init)| ==> Flatten(init)[i] == all[i];
      FlattenDisjoint(init);
      forall i | 0 <= i < k
        ensures Less(files[i].largest, last.smallest)
      {
        assert init[i] in files && init[i] in init;
        FlattenContains(init, init[i]);
        var e := init[i].entries[|init[i].entries| - 1];
        assert e in init[i].entries && e in Flatten(init);
        var j :| 0 <= j < |Flatten(init)| && Flatten(init)[j] == e;
        assert all[|Flatten(init)|] == last.entries[0];
      }
      forall i, j | 0 <= i < j < |files|
        ensures Less(files[i].largest, files[j].smallest)
      {
        assert j < k ==> init[j] == files[j] && init[i] == files[i];
      }
    }
  }

  lemma {:induction false} FlattenContains(files: Files, f: FileMetaData)
    requires f in files
    ensures forall e :: e in f.entries ==> e in Flatten(files)
  {
    var k := |files| - 1;
    assert files == files[..k] + [files[k]];
    if f in files[..k] {
      FlattenContains(files[..k], f);
    }
  }

  lemma {:induction false} FlattenEntries(files: Files)
    ensures Elements(Flatten(files)) == EntriesOf(files)
  {
    if files != [] {
      var k := |files| - 1;
      assert files == files[..k] + [files[k]];
      FlattenEntries(files[..k]);
      forall e
        ensures e in EntriesOf(files) <==> e in EntriesOf(files[..k]) || e in files[k].entries
      {
      }
    }
  }

  lemma SortedSuffix(a: seq<Entry>, b: seq<Entry>)
    requires Sorted(a + b)
    ensures Sorted(b)
  {
    assert forall i :: 0 <= i < |b| ==> b[i] == (a + b)[|a| + i];
  }

  ghost predicate Bounded(entries: seq<Entry>) {
    forall e :: e in entries ==> e.key.sequence <= MAX_SEQUENCE_NUMBER
  }

  /** The tables a compaction has written and the one it is writing. */
  class CompactionState {
    const newFileNumbers: seq<nat>
    var outputs: Files
    var builder: Option<Output>

    constructor (newFileNumbers: seq<nat>)
      ensures Valid() && Contents() == [] && builder.None? && outputs == []
      ensures this.newFileNumbers == newFileNumbers
    {
      this.newFileNumbers := newFileNumbers;
      outputs, builder := [], None;
    }

    ghost function Contents(): seq<Entry>
      reads this
    {
      Flatten(outputs) + Building(builder)
    }

    function Opened(): nat
      reads this
    {
      |outputs| + if builder.Some? then 1 else 0
    }

    ghost predicate Valid()
      reads this
    {
      && OutputOk(builder)
      && FilesOk(outputs)
      && Sorted(Contents()) && Bounded(Contents())
      && Opened() <= |newFileNumbers|
      && (forall i :: 0 <= i < |outputs| ==> outputs[i].number == newFileNumbers[i])
      && (builder.Some? ==> builder.value.number == newFileNumbers[|outputs|])
    }

    method FinishCompactionOutputFile(size: nat)
      requires Valid() && builder.Some?
      modifies this
      ensures Valid() && builder.None? && Opened() == old(Opened())
      ensures outputs == old(outputs) + [Finished(old(builder).value, size)]
      ensures Contents() == old(Contents())
    {
      SortedSuffix(Flatten(outputs), builder.value.entries);
      var finished := outputs + [Finished(builder.value, size)];
      assert finished[..|outputs|] == outputs;
      outputs, builder := finished, None;
    }

    /** Opens an output when there is none. */
    method Add(e: Entry)
      requires Valid() && e.key.sequence <= MAX_SEQUENCE_NUMBER
      requires forall x :: x in Contents() ==> Less(x.key, e.key)
      requires Opened() < |newFileNumbers|
      modifies this`builder
      ensures Valid() && builder.Some? && Opened() <= old(Opened()) + 1
      ensures Contents() == old(Contents()) + [e]
    {
      if builder.None? {
        builder := Some(Output(newFileNumbers[|outputs|], e.key, e.key, [e]));
      } else {
        builder := Some(builder.value.(largest := e.key, entries := builder.value.entries + [e]));
      }
      assert Contents() == old(Contents()) + [e];
      SortedSnoc(old(Contents()), e);
    }

    /** Closes the last output; what was written is then in well-formed tables. */
    method Close(size: nat) returns (r: Files)
      requires Valid()
      modifies this
      ensures Flatten(r) == old(Contents())
      ensures FilesOk(r) && Disjoint(r)
      ensures |r| <= |newFileNumbers| && forall i :: 0 <= i < |r| ==> r[i].number == newFileNumbers[i]
    {
      if builder.Some? {
        FinishCompactionOutputFile(size);
      }
      r := outputs;
      assert Contents() == Flatten(r);
      FlattenDisjoint(r);
    }

    /** Closes the output again when it is big enough. */
    method AddAndCut(e: Entry, size: nat, maxFileSize: nat)
      requires Valid() && e.key.sequence <= MAX_SEQUENCE_NUMBER
      requires forall x :: x in Contents() ==> Less(x.key, e.key)
      requires Opened() < |newFileNumbers|
      modifies this
      ensures Valid() && Opened() <= old(Opened()) + 1
      ensures Contents() == old(Contents()) + [e]
      ensures builder.None? <==> size >= maxFileSize
    {
      Add(e);
      if size >= maxFileSize {
        FinishCompactionOutputFile(size);
      }
    }
  }

  lemma SortedSnoc(entries: seq<Entry>, e: Entry)
    requires Sorted(entries) && forall x :: x in entries ==> Less(x.key, e.key)
    ensures Sorted(entries + [e])
  {
    forall i | 0 <= i < |entries|
      ensures Less(entries[i].key, e.key)
    {
      assert entries[i] in entries;
    }
  }

  /** Survivors come before the entries still to be read. */
  lemma KeptBefore(input: seq<Entry>, i: nat, smallest: nat, levels: Levels, level: nat)
    requires Sorted(input) && i < |input|
    ensures forall x :: x in Kept(input, i, smallest, levels, level) ==> Less(x.key, input[i].key)
  {
    KeptElements(input, i, smallest, levels, level);
  }

  /** What the loop remembers about the entry before entry `i`. */
  ghost predicate Remembers(c: Compaction, input: seq<Entry>, i: nat,
                            currentUserKey: UserKey, hasCurrentUserKey: bool, lastSequenceForKey: nat)
    requires i <= |input| && c.PointersOk()
    reads c.levelPtrs
  {
    if i == 0 then !hasCurrentUserKey && c.AtStart()
    else
      && hasCurrentUserKey
      && currentUserKey == input[i - 1].key.user
      && lastSequenceForKey == input[i - 1].key.sequence
      && c.PointersBehind(currentUserKey)
  }

  method ShouldDrop(c: Compaction, input: seq<Entry>, i: nat, smallestSnapshot: nat,
                    currentUserKey: UserKey, hasCurrentUserKey: bool, lastSequenceForKey: nat)
    returns (drop: bool, userKey: UserKey)
    requires Sorted(input) && i < |input| && smallestSnapshot < MAX_SEQUENCE_NUMBER
    requires c.Valid() && Remembers(c, input, i, currentUserKey, hasCurrentUserKey, lastSequenceForKey)
    modifies c.levelPtrs
    ensures c.Valid() && Remembers(c, input, i + 1, userKey, true, input[i].key.sequence)
    ensures drop == Dropped(input, i, smallestSnapshot, c.levels, c.level)
  {
    var e := input[i];
    var last := lastSequenceForKey;
    if !hasCurrentUserKey || e.key.user != currentUserKey {
      last := MAX_SEQUENCE_NUMBER;
    }
    userKey := e.key.user;
    assert i > 0 ==> Less(input[i - 1].key, e.key);
    assert c.PointersBehind(e.key.user);
    drop := false;
    if last <= smallestSnapshot {
      drop := true;
    } else if e.key.kind.Deletion? && e.key.sequence <= smallestSnapshot {
      drop := c.IsBaseLevelForKey(e.key.user);
    }
  }

  method CutBefore(c: Compaction, compact: CompactionState, key: InternalKey, size: nat)
    requires c.Valid() && compact.Valid()
    modifies c`grandparentIndex, c`seenKey, c`overlappedBytes, compact
    ensures c.Valid() && compact.Valid()
    ensures compact.Contents() == old(compact.Contents()) && compact.Opened() == old(compact.Opened())
  {
    var stop := c.ShouldStopBefore(key);
    if stop && compact.builder.Some? {
      compact.FinishCompactionOutputFile(size);
    }
  }

  /** One turn of the loop: entry `i` is cut, judged, and kept or dropped. */
  method CompactEntry(c: Compaction, compact: CompactionState, input: seq<Entry>, i: nat, smallestSnapshot: nat,
                      size: nat, sizeAfter: nat,
                      currentUserKey: UserKey, hasCurrentUserKey: bool, lastSequenceForKey: nat)
    returns (userKey: UserKey, newSize: nat)
    requires Sorted(input) && Bounded(input) && i < |input| && smallestSnapshot < MAX_SEQUENCE_NUMBER
    requires c.Valid() && compact.Valid() && compact.Opened() <= i < |compact.newFileNumbers|
    requires compact.Contents() == Kept(input, i, smallestSnapshot, c.levels, c.level)
    requires Remembers(c, input, i, currentUserKey, hasCurrentUserKey, lastSequenceForKey)
    modifies c`grandparentIndex, c`seenKey, c`overlappedBytes, c.levelPtrs, compact
    ensures c.Valid() && compact.Valid() && compact.Opened() <= i + 1
    ensures compact.Contents() == Kept(input, i + 1, smallestSnapshot, c.levels, c.level)
    ensures Remembers(c, input, i + 1, userKey, true, input[i].key.sequence)
  {
    hide LevelsOk, Dropped, Sorted, FileOk;
    CutBefore(c, compact, input[i].key, size);
    var drop;
    drop, userKey := ShouldDrop(c, input, i, smallestSnapshot, currentUserKey, hasCurrentUserKey, lastSequenceForKey);
    newSize := size;
    if !drop {
      KeptBefore(input, i, smallestSnapshot, c.levels, c.level);
      newSize := sizeAfter;
      compact.AddAndCut(input[i], sizeAfter, c.maxFileSize);
    }
  }

  /** The compaction loop writes exactly the survivors, in order, into well-formed
      disjoint tables, wherever the outputs are cut. `sizeAfter[i]` is the size the
      table builder reports once entry `i` is in it. */
  method DoCompactionWork(c: Compaction, input: seq<Entry>, smallestSnapshot: nat,
                          newFileNumbers: seq<nat>, sizeAfter: seq<nat>) returns (outputs: Files)
    requires c.Valid() && c.AtStart()
    requires Sorted(input) && Bounded(input) && |newFileNumbers| == |sizeAfter| == |input|
    requires smallestSnapshot < MAX_SEQUENCE_NUMBER
    modifies c, c.levelPtrs
    ensures Flatten(outputs) == Kept(input, |input|, smallestSnapshot, c.levels, c.level)
    ensures FilesOk(outputs) && Disjoint(outputs)
    ensures |outputs| <= |newFileNumbers|
    ensures forall i :: 0 <= i < |outputs| ==> outputs[i].number == newFileNumbers[i]
  {
    hide LevelsOk, Dropped, Sorted, Bounded, FileOk, Disjoint;
    var compact := new CompactionState(newFileNumbers);
    var currentUserKey, hasCurrentUserKey := 0, false;
    var lastSequenceForKey := MAX_SEQUENCE_NUMBER;
    var size: nat := 0;
    for i := 0 to |input|
      invariant c.Valid() && compact.Valid() && compact.Opened() <= i
      invariant compact.Contents() == Kept(input, i, smallestSnapshot, c.levels, c.level)
      invariant Remembers(c, input, i, currentUserKey, hasCurrentUserKey, lastSequenceForKey)
    {
      currentUserKey, size := CompactEntry(c, compact, input, i, smallestSnapshot, size, sizeAfter[i],
                                           currentUserKey, hasCurrentUserKey, lastSequenceForKey);
      hasCurrentUserKey, lastSequenceForKey := true, input[i].key.sequence;
    }
    outputs := compact.Close(size);
  }
}
