/** Versions: the tables of each level, and the searches over their key ranges. */
module Versions {
  import opened InternalKeys

  const NUM_LEVELS := 7
  const MAX_MEM_COMPACT_LEVEL := 2

  /** A table: its metadata and, in `entries`, what the file of that number holds. */
  datatype FileMetaData = FileMetaData(
    number: nat, fileSize: nat, smallest: InternalKey, largest: InternalKey, entries: seq<Entry>)

  type Files = seq<FileMetaData>
  type Levels = seq<Files>

  /** The metadata describes a non-empty table. */
  ghost predicate FileOk(f: FileMetaData) {
    && f.entries != []
    && Sorted(f.entries)
    && f.smallest == f.entries[0].key
    && f.largest == f.entries[|f.entries| - 1].key
    && forall e :: e in f.entries ==> e.key.sequence <= MAX_SEQUENCE_NUMBER
  }

  ghost predicate FilesOk(files: Files) {
    forall f :: f in files ==> FileOk(f)
  }

  /** Sorted and disjoint in the internal key order, as levels above zero must be. */
  ghost predicate Disjoint(files: Files) {
    forall i, j :: 0 <= i < j < |files| ==> Less(files[i].largest, files[j].smallest)
  }

  ghost function EntriesOf(files: Files): set<Entry> {
    set f, e | f in files && e in f.entries :: e
  }

  /** The first entry is at the start of the user range and the last at its end. */
  lemma EntryInRange(f: FileMetaData, e: Entry)
    requires FileOk(f) && e in f.entries
    ensures f.smallest.user <= e.key.user <= f.largest.user
    ensures !Less(e.key, f.smallest) && !Less(f.largest, e.key)
  {
    var i :| 0 <= i < |f.entries| && f.entries[i] == e;
    assert i > 0 ==> Less(f.entries[0].key, e.key);
    assert i < |f.entries| - 1 ==> Less(e.key, f.entries[|f.entries| - 1].key);
  }

  // ---------------------------------------------------------------- FindFile

  /** Index of the first file whose largest key is at or after `key`. */
  method FindFile(files: Files, key: InternalKey) returns (right: nat)
    requires FilesOk(files) && Disjoint(files)
    ensures right <= |files|
    ensures forall i :: 0 <= i < right ==> Less(files[i].largest, key)
    ensures forall i :: right <= i < |files| ==> !Less(files[i].largest, key)
  {
    var left := 0;
    right := |files|;
    while left < right
      invariant 0 <= left <= right <= |files|
      invariant forall i :: 0 <= i < left ==> Less(files[i].largest, key)
      invariant forall i :: right <= i < |files| ==> !Less(files[i].largest, key)
    {
      var mid := (left + right) / 2;
      LargestIncreasing(files, mid);
      if Less(files[mid].largest, key) {
        left := mid + 1;
      } else {
        right := mid;
      }
    }
  }

  lemma LargestIncreasing(files: Files, m: nat)
    requires FilesOk(files) && Disjoint(files) && m < |files|
    ensures forall i :: 0 <= i < m ==> Less(files[i].largest, files[m].largest)
    ensures forall i :: m < i < |files| ==> Less(files[m].largest, files[i].largest)
  {
    forall i | 0 <= i < |files|
      ensures !Less(files[i].largest, files[i].smallest)
    {
      assert files[i] in files;
      EntryInRange(files[i], files[i].entries[0]);
    }
    assert forall i :: 0 <= i < m ==> Less(files[i].largest, files[m].smallest);
    assert forall i :: m < i < |files| ==> Less(files[m].largest, files[i].smallest);
  }

  // ---------------------------------------------------------------- user key ranges

  predicate AfterFile(userKey: Option<UserKey>, f: FileMetaData) {
    userKey.Some? && userKey.value > f.largest.user
  }

  predicate BeforeFile(userKey: Option<UserKey>, f: FileMetaData) {
    userKey.Some? && userKey.value < f.smallest.user
  }

  /** The user range of `f` meets `[lo, hi]`; a missing bound is infinite. */
  predicate Overlaps(f: FileMetaData, lo: Option<UserKey>, hi: Option<UserKey>) {
    !AfterFile(lo, f) && !BeforeFile(hi, f)
  }

  /** The binary search over disjoint sorted files and the linear scan over
      arbitrary files answer the same question. */
  method SomeFileOverlapsRange(disjointSortedFiles: bool, files: Files,
                               smallest: Option<UserKey>, largest: Option<UserKey>) returns (r: bool)
    requires FilesOk(files)
    requires disjointSortedFiles ==> Disjoint(files)
    requires smallest.Some? && largest.Some? ==> smallest.value <= largest.value
    ensures r <==> exists f :: f in files && Overlaps(f, smallest, largest)
  {
    if !disjointSortedFiles {
      for i := 0 to |files|
        invariant forall j :: 0 <= j < i ==> !Overlaps(files[j], smallest, largest)
      {
        if AfterFile(smallest, files[i]) || BeforeFile(largest, files[i]) {
        } else {
          assert files[i] in files && Overlaps(files[i], smallest, largest);
          return true;
        }
      }
      return false;
    }
    var index := 0;
    if smallest.Some? {
      var small := InternalKey(smallest.value, MAX_SEQUENCE_NUMBER, VALUE_TYPE_FOR_SEEK);
      index := FindFile(files, small);
      SeekKeyIsFirst(files, smallest.value);
    }
    if index >= |files| {
      return false;
    }
    var f := files[index];
    assert f in files && !AfterFile(smallest, f);
    r := !BeforeFile(largest, f);
    if !r {
      EntryInRange(f, f.entries[0]);
      forall g | g in files
        ensures !Overlaps(g, smallest, largest)
      {
        var i :| 0 <= i < |files| && files[i] == g;
        if i < index {
          assert Less(g.largest, InternalKey(smallest.value, MAX_SEQUENCE_NUMBER, VALUE_TYPE_FOR_SEEK));
        } else {
          assert i > index ==> Less(f.largest, g.smallest);
        }
      }
    }
  }

  /** The seek key with the largest tag precedes every entry of its user key. */
  lemma SeekKeyIsFirst(files: Files, u: UserKey)
    requires FilesOk(files)
    ensures forall f :: f in files ==>
      (Less(f.largest, InternalKey(u, MAX_SEQUENCE_NUMBER, VALUE_TYPE_FOR_SEEK)) <==> f.largest.user < u)
  {
    forall f | f in files
      ensures f.largest.sequence <= MAX_SEQUENCE_NUMBER
    {
      assert f.entries[|f.entries| - 1] in f.entries;
    }
  }

  // ---------------------------------------------------------------- GetOverlappingInputs

  /** The files meeting `[lo, hi]`, in the order of the level. */
  function Overlapping(files: Files, lo: Option<UserKey>, hi: Option<UserKey>): (r: Files)
    ensures forall f :: f in r <==> f in files && Overlaps(f, lo, hi)
  {
    if files == [] then []
    else
      var init := Overlapping(files[..|files| - 1], lo, hi);
      var f := files[|files| - 1];
      assert files == files[..|files| - 1] + [f];
      if Overlaps(f, lo, hi) then init + [f] else init
  }

  /** `part` lists files of `files`, each at most once and in the same order. */
  ghost predicate InOrder(files: Files, part: Files) {
    forall i, j :: 0 <= i < j < |part| ==> ComesBefore(files, part[i], part[j])
  }

  ghost predicate ComesBefore(files: Files, f: FileMetaData, g: FileMetaData) {
    exists p, q :: 0 <= p < q < |files| && files[p] == f && files[q] == g
  }

  lemma {:induction false} OverlappingInOrder(files: Files, lo: Option<UserKey>, hi: Option<UserKey>)
    ensures InOrder(files, Overlapping(files, lo, hi))
  {
    hide Overlaps, ComesBefore;
    if files != [] {
      var k := |files| - 1;
      var init := Overlapping(files[..k], lo, hi);
      OverlappingInOrder(files[..k], lo, hi);
      forall i, j | 0 <= i < j < |init|
        ensures ComesBefore(files, init[i], init[j])
      {
        InPrefixBefore(files, k, init[i], init[j]);
      }
      forall i | 0 <= i < |init|
        ensures ComesBefore(files, init[i], files[k])
      {
        assert init[i] in Overlapping(files[..k], lo, hi);
        BeforeTheLast(files, init[i]);
      }
    }
  }

  lemma InPrefixBefore(files: Files, k: nat, f: FileMetaData, g: FileMetaData)
    requires k <= |files| && ComesBefore(files[..k], f, g)
    ensures ComesBefore(files, f, g)
  {
    var p, q :| 0 <= p < q < k && files[..k][p] == f && files[..k][q] == g;
    assert files[p] == f && files[q] == g;
  }

  lemma BeforeTheLast(files: Files, f: FileMetaData)
    requires files != [] && f in files[..|files| - 1]
    ensures ComesBefore(files, f, files[|files| - 1])
  {
    var p :| 0 <= p < |files| - 1 && files[p] == f;
  }

  lemma InOrderDisjoint(files: Files, part: Files)
    requires Disjoint(files) && InOrder(files, part)
    ensures Disjoint(part)
  {
  }

  /** `[lo', hi']` contains `[lo, hi]` and is unbounded where it is. */
  predicate Contains(lo': Option<UserKey>, hi': Option<UserKey>, lo: Option<UserKey>, hi: Option<UserKey>) {
    && (lo'.Some? <==> lo.Some?) && (hi'.Some? <==> hi.Some?)
    && (lo.Some? ==> lo'.value <= lo.value)
    && (hi.Some? ==> hi.value <= hi'.value)
  }

  predicate Within(f: FileMetaData, lo: Option<UserKey>, hi: Option<UserKey>) {
    && (lo.Some? ==> lo.value <= f.smallest.user)
    && (hi.Some? ==> f.largest.user <= hi.value)
  }

  /** Every file that meets the range lies inside it. */
  ghost predicate Closed(files: Files, lo: Option<UserKey>, hi: Option<UserKey>) {
    forall f :: f in files && Overlaps(f, lo, hi) ==> Within(f, lo, hi)
  }

  /** The least closed range around `[begin, end]`. */
  ghost predicate LeastClosed(files: Files, begin: Option<UserKey>, end: Option<UserKey>,
                              lo: Option<UserKey>, hi: Option<UserKey>)
  {
    && Contains(lo, hi, begin, end)
    && Closed(files, lo, hi)
    && forall lo', hi' :: Contains(lo', hi', begin, end) && Closed(files, lo', hi') ==> Contains(lo', hi', lo, hi)
  }

  /** Above level zero, the files meeting the range. At level zero the range first
      grows to the least one that contains every file meeting it; the restarts stop
      because each of them takes a file out of the set still sticking out. */
  method GetOverlappingInputs(files: Files, level: nat, begin: Option<UserKey>, end: Option<UserKey>)
    returns (inputs: Files, ghost lo: Option<UserKey>, ghost hi: Option<UserKey>)
    ensures inputs == Overlapping(files, lo, hi)
    ensures level > 0 ==> lo == begin && hi == end
    ensures level == 0 ==> LeastClosed(files, begin, end, lo, hi)
  {
    inputs := [];
    var userBegin, userEnd := begin, end;
    var i := 0;
    while i < |files|
      invariant 0 <= i <= |files|
      invariant Contains(userBegin, userEnd, begin, end)
      invariant level > 0 ==> userBegin == begin && userEnd == end
      invariant inputs == Overlapping(files[..i], userBegin, userEnd)
      invariant level == 0 ==> Closed(files[..i], userBegin, userEnd)
      invariant forall lo', hi' :: Contains(lo', hi', begin, end) && Closed(files, lo', hi')
                                   ==> Contains(lo', hi', userBegin, userEnd)
      decreases set j | 0 <= j < |files| && BeforeStart(files[j], userBegin),
                set j | 0 <= j < |files| && PastEnd(files[j], userEnd),
                |files| - i
    {
      var f := files[i];
      assert files[..i + 1][..i] == files[..i];
      ghost var sticksOut := set j | 0 <= j < |files| && BeforeStart(files[j], userBegin);
      ghost var sticksPast := set j | 0 <= j < |files| && PastEnd(files[j], userEnd);
      ghost var at := i;
      i := i + 1;
      if AfterFile(userBegin, f) || BeforeFile(userEnd, f) {
      } else {
        inputs := inputs + [f];
        if level == 0 {
          forall lo', hi' | Contains(lo', hi', begin, end) && Closed(files, lo', hi')
            ensures Within(f, lo', hi')
          {
            assert Contains(lo', hi', userBegin, userEnd) && f in files && Overlaps(f, lo', hi');
          }
          if userBegin.Some? && f.smallest.user < userBegin.value {
            assert at in sticksOut;
            userBegin := Some(f.smallest.user);
            inputs := [];
            i := 0;
            assert at !in set j | 0 <= j < |files| && BeforeStart(files[j], userBegin);
          } else if userEnd.Some? && f.largest.user > userEnd.value {
            assert at in sticksPast;
            userEnd := Some(f.largest.user);
            inputs := [];
            i := 0;
            assert at !in set j | 0 <= j < |files| && PastEnd(files[j], userEnd);
          }
        }
      }
    }
    assert files[..i] == files;
    lo, hi := userBegin, userEnd;
  }

  predicate BeforeStart(f: FileMetaData, lo: Option<UserKey>) {
    lo.Some? && f.smallest.user < lo.value
  }

  predicate PastEnd(f: FileMetaData, hi: Option<UserKey>) {
    hi.Some? && f.largest.user > hi.value
  }

  // ---------------------------------------------------------------- where a flushed memtable goes

  function TotalFileSize(files: Files): nat {
    if files == [] then 0 else files[0].fileSize + TotalFileSize(files[1..])
  }

  ghost predicate LevelsOk(levels: Levels) {
    && |levels| == NUM_LEVELS
    && (forall l :: 0 <= l < NUM_LEVELS ==> FilesOk(levels[l]))
    && (forall l :: 0 < l < NUM_LEVELS ==> Disjoint(levels[l]))
  }

  ghost predicate NoneOverlaps(files: Files, lo: UserKey, hi: UserKey) {
    forall f :: f in files ==> !Overlaps(f, Some(lo), Some(hi))
  }

  /** Whether a table may go one level further down than `level`: nothing there meets
      its range, and what does in the level after that is not too much to rewrite. */
  ghost predicate MaySink(levels: Levels, level: nat, smallest: UserKey, largest: UserKey, maxFileSize: nat)
    requires level + 1 < |levels|
  {
    && NoneOverlaps(levels[level + 1], smallest, largest)
    && (level + 2 < |levels| ==>
          TotalFileSize(Overlapping(levels[level + 2], Some(smallest), Some(largest))) <= 10 * maxFileSize)
  }

  /** The deepest level that a memtable's table may sink to, one level at a time. */
  ghost predicate IsPickedLevel(levels: Levels, smallest: UserKey, largest: UserKey, maxFileSize: nat, level: nat)
    requires |levels| == NUM_LEVELS
  {
    && level <= MAX_MEM_COMPACT_LEVEL
    && (level > 0 ==> NoneOverlaps(levels[0], smallest, largest))
    && (forall l :: 0 <= l < level ==> MaySink(levels, l, smallest, largest, maxFileSize))
    && (level < MAX_MEM_COMPACT_LEVEL && NoneOverlaps(levels[0], smallest, largest) ==>
          !MaySink(levels, level, smallest, largest, maxFileSize))
  }

  lemma OnePickedLevel(levels: Levels, smallest: UserKey, largest: UserKey, maxFileSize: nat, a: nat, b: nat)
    requires |levels| == NUM_LEVELS
    requires IsPickedLevel(levels, smallest, largest, maxFileSize, a) && IsPickedLevel(levels, smallest, largest, maxFileSize, b)
    ensures a == b
  {
    hide MaySink;
  }

  /** `maxFileSize` is the option that scales the grandparent limit. */
  method PickLevelForMemTableOutput(levels: Levels, smallest: UserKey, largest: UserKey, maxFileSize: nat)
    returns (level: nat)
    requires LevelsOk(levels) && smallest <= largest
    ensures level <= MAX_MEM_COMPACT_LEVEL
    ensures forall l: nat :: IsPickedLevel(levels, smallest, largest, maxFileSize, l) <==> l == level
    ensures level > 0 ==> forall l :: 0 <= l <= level ==> NoneOverlaps(levels[l], smallest, largest)
  {
    level := 0;
    var overlap := SomeFileOverlapsRange(false, levels[0], Some(smallest), Some(largest));
    if !overlap {
      while level < MAX_MEM_COMPACT_LEVEL
        invariant level <= MAX_MEM_COMPACT_LEVEL
        invariant forall l :: 0 <= l <= level ==> NoneOverlaps(levels[l], smallest, largest)
        invariant forall l :: 0 <= l < level ==> MaySink(levels, l, smallest, largest, maxFileSize)
      {
        overlap := SomeFileOverlapsRange(true, levels[level + 1], Some(smallest), Some(largest));
        if overlap {
          break;
        }
        if level + 2 < NUM_LEVELS {
          var overlaps, _, _ := GetOverlappingInputs(levels[level + 2], level + 2, Some(smallest), Some(largest));
          if TotalFileSize(overlaps) > 10 * maxFileSize {
            break;
          }
        }
        level := level + 1;
      }
    }
    forall l: nat | IsPickedLevel(levels, smallest, largest, maxFileSize, l)
      ensures l == level
    {
      OnePickedLevel(levels, smallest, largest, maxFileSize, l, level);
    }
  }

  // ---------------------------------------------------------------- lookup through the levels

  ghost predicate Newer(f: FileMetaData, g: FileMetaData) {
    NewerThan(Elements(f.entries), Elements(g.entries))
  }

  /** Shallower levels hold the newer entries of each user key, and within level
      zero so do the files with the larger numbers. */
  ghost predicate Recency(levels: Levels) {
    && (forall l, m, f, g :: 0 <= l < m < |levels| && f in levels[l] && g in levels[m] ==> Newer(f, g))
    && (|levels| > 0 ==> NewerByNumber(levels[0]))
  }

  ghost predicate NewerByNumber(files: Files) {
    forall f, g :: f in files && g in files && f.number > g.number ==> Newer(f, g)
  }

  ghost predicate DistinctNumbers(files: Files) {
    forall i, j :: 0 <= i < j < |files| ==> files[i].number != files[j].number
  }

  ghost function LevelEntries(levels: Levels): set<Entry> {
    set l, e | 0 <= l < |levels| && e in EntriesOf(levels[l]) :: e
  }

  /** `r` is the newest entry for `u` at `s` in `S`, or says that there is none. */
  ghost predicate IsLookup(S: set<Entry>, u: UserKey, s: nat, r: Option<Entry>) {
    match r
    case Some(e) => Newest(S, u, s, e)
    case None => !HasCandidate(S, u, s)
  }

  /** Insertion by decreasing number. */
  function InsertNewestFirst(sorted: Files, f: FileMetaData): (r: Files)
    ensures forall g :: g in r <==> g in sorted || g == f
  {
    if sorted == [] || f.number > sorted[0].number then [f] + sorted
    else
      assert sorted == [sorted[0]] + sorted[1..];
      [sorted[0]] + InsertNewestFirst(sorted[1..], f)
  }

  ghost predicate NewestFirst(files: Files) {
    forall i, j :: 0 <= i < j < |files| ==> files[i].number > files[j].number
  }

  lemma {:induction false} InsertKeepsOrder(sorted: Files, f: FileMetaData)
    requires NewestFirst(sorted)
    requires forall g :: g in sorted ==> g.number != f.number
    ensures NewestFirst(InsertNewestFirst(sorted, f))
  {
    if sorted == [] || f.number > sorted[0].number {
    } else {
      InsertKeepsOrder(sorted[1..], f);
      var rest := InsertNewestFirst(sorted[1..], f);
      forall j | 0 <= j < |rest|
        ensures sorted[0].number > rest[j].number
      {
        assert rest[j] in rest;
      }
    }
  }

  /** The level-zero files that may hold `u`, newest first. */
  method Level0Candidates(files: Files, u: UserKey) returns (tmp: Files)
    requires DistinctNumbers(files)
    ensures NewestFirst(tmp)
    ensures forall f :: f in tmp <==> f in files && f.smallest.user <= u <= f.largest.user
  {
    tmp := [];
    for i := 0 to |files|
      invariant NewestFirst(tmp)
      invariant forall f :: f in tmp <==> f in files[..i] && f.smallest.user <= u <= f.largest.user
    {
      assert files[..i + 1] == files[..i] + [files[i]];
      if u >= files[i].smallest.user && u <= files[i].largest.user {
        InsertKeepsOrder(tmp, files[i]);
        tmp := InsertNewestFirst(tmp, files[i]);
      }
    }
    assert files[..|files|] == files;
  }

  /** Binary search in a disjoint level reaches the only file that can answer. */
  lemma LevelLookup(files: Files, u: UserKey, s: nat, index: nat)
    requires FilesOk(files) && Disjoint(files)
    requires index <= |files|
    requires forall i :: 0 <= i < index ==> Less(files[i].largest, LookupKey(u, s))
    requires forall i :: index <= i < |files| ==> !Less(files[i].largest, LookupKey(u, s))
    ensures IsLookup(EntriesOf(files), u, s,
                     if index < |files| && u >= files[index].smallest.user
                     then Find(files[index].entries, u, s) else None)
  {
    forall f, x | f in files && x in f.entries && Candidate(x, u, s)
      ensures index < |files| && u >= files[index].smallest.user && Find(files[index].entries, u, s).Some?
      ensures x.key.sequence <= Find(files[index].entries, u, s).value.key.sequence
    {
      EntryInRange(f, x);
      var i :| 0 <= i < |files| && files[i] == f;
      assert i >= index;
      var g := files[index];
      assert g in files;
      FindIsNewest(g.entries, u, s);
      if i > index {
        assert Less(g.largest, f.smallest);
        var last := g.entries[|g.entries| - 1];
        assert last in g.entries && Candidate(last, u, s);
      }
    }
    if index < |files| {
      assert files[index] in files;
      FindIsNewest(files[index].entries, u, s);
    }
  }

  /** The newest entry of the first layer that has one is the newest of all. */
  lemma FirstLayerWins(above: set<Entry>, layer: set<Entry>, below: set<Entry>, u: UserKey, s: nat, r: Option<Entry>)
    requires !HasCandidate(above, u, s)
    requires IsLookup(layer, u, s, r)
    requires NewerThan(layer, below)
    ensures r.Some? ==> Newest(above + layer + below, u, s, r.value)
    ensures r.None? ==> !HasCandidate(above + layer, u, s)
  {
  }

  /** Version::Get finds a visible entry whenever there is one; where shallower files are
      newer, it is the newest. */
  method Get(levels: Levels, u: UserKey, s: nat) returns (r: Option<Entry>)
    requires LevelsOk(levels) && DistinctNumbers(levels[0])
    ensures r.Some? ==> r.value in LevelEntries(levels) && Candidate(r.value, u, s)
    ensures r.None? ==> !HasCandidate(LevelEntries(levels), u, s)
    ensures Recency(levels) ==> IsLookup(LevelEntries(levels), u, s, r)
  {
    hide Recency, IsLookup, Disjoint, FilesOk, NewerThan;
    for level := 0 to NUM_LEVELS
      invariant !HasCandidate(LevelEntries(levels[..level]), u, s)
    {
      var files := levels[level];
      if level == 0 {
        var tmp := Level0Candidates(files, u);
        r := SearchNewestFirst(files, tmp, u, s);
      } else {
        var index := FindFile(files, LookupKey(u, s));
        LevelLookup(files, u, s, index);
        r := if index < |files| && u >= files[index].smallest.user
             then Find(files[index].entries, u, s) else None;
        LookupParts(EntriesOf(files), u, s, r);
      }
      LayersSplit(levels, level);
      if Recency(levels) {
        ByNumber(levels);
        LayersOrder(levels, level);
        FirstLayerLookup(LevelEntries(levels[..level]), EntriesOf(files), LevelEntries(levels[level + 1..]), u, s, r);
      }
      if r.Some? {
        return;
      }
    }
    assert levels[..NUM_LEVELS] == levels;
    if Recency(levels) {
      NoneIsLookup(LevelEntries(levels), u, s);
    }
    r := None;
  }

  lemma NoneIsLookup(S: set<Entry>, u: UserKey, s: nat)
    requires !HasCandidate(S, u, s)
    ensures IsLookup(S, u, s, None)
  {
  }

  lemma LookupParts(S: set<Entry>, u: UserKey, s: nat, r: Option<Entry>)
    requires IsLookup(S, u, s, r)
    ensures r.Some? ==> r.value in S && Candidate(r.value, u, s)
    ensures r.None? ==> !HasCandidate(S, u, s)
  {
  }

  lemma FirstLayerLookup(above: set<Entry>, layer: set<Entry>, below: set<Entry>, u: UserKey, s: nat, r: Option<Entry>)
    requires !HasCandidate(above, u, s) && IsLookup(layer, u, s, r) && NewerThan(layer, below)
    ensures r.Some? ==> IsLookup(above + layer + below, u, s, r)
  {
    FirstLayerWins(above, layer, below, u, s, r);
  }

  lemma ByNumber(levels: Levels)
    requires Recency(levels) && |levels| > 0
    ensures NewerByNumber(levels[0])
  {
  }

  lemma LayersSplit(levels: Levels, l: nat)
    requires l < |levels|
    ensures LevelEntries(levels) == LevelEntries(levels[..l]) + EntriesOf(levels[l]) + LevelEntries(levels[l + 1..])
    ensures LevelEntries(levels[..l + 1]) == LevelEntries(levels[..l]) + EntriesOf(levels[l])
  {
    assert forall i :: 0 <= i < |levels| ==>
      levels[i] == if i < l then levels[..l][i] else if i == l then levels[l] else levels[l + 1..][i - l - 1];
  }

  lemma LayersOrder(levels: Levels, l: nat)
    requires l < |levels| && Recency(levels)
    ensures NewerThan(EntriesOf(levels[l]), LevelEntries(levels[l + 1..]))
  {
    forall a, b | a in EntriesOf(levels[l]) && b in LevelEntries(levels[l + 1..]) && a.key.user == b.key.user
      ensures a.key.sequence > b.key.sequence
    {
      var f :| f in levels[l] && a in f.entries;
      var m :| l < m < |levels| && b in EntriesOf(levels[m]);
      var g :| g in levels[m] && b in g.entries;
      assert Newer(f, g);
    }
  }

  /** Search of the level-zero candidates from the newest file to the oldest. */
  method SearchNewestFirst(files: Files, tmp: Files, u: UserKey, s: nat) returns (r: Option<Entry>)
    requires FilesOk(files)
    requires NewestFirst(tmp)
    requires forall f :: f in tmp <==> f in files && f.smallest.user <= u <= f.largest.user
    ensures r.Some? ==> r.value in EntriesOf(files) && Candidate(r.value, u, s)
    ensures r.None? ==> !HasCandidate(EntriesOf(files), u, s)
    ensures NewerByNumber(files) ==> IsLookup(EntriesOf(files), u, s, r)
  {
    for i := 0 to |tmp|
      invariant forall j :: 0 <= j < i ==> !HasCandidate(Elements(tmp[j].entries), u, s)
    {
      var f := tmp[i];
      assert f in tmp;
      FindIsNewest(f.entries, u, s);
      r := Find(f.entries, u, s);
      if r.Some? {
        if NewerByNumber(files) {
          NewestOfAll(files, tmp, u, s, i, r.value);
        }
        return;
      }
    }
    r := None;
    forall g, x | g in files && x in g.entries
      ensures !Candidate(x, u, s)
    {
      EntryInRange(g, x);
      assert Candidate(x, u, s) ==> g in tmp;
    }
  }

  /** The newest file that has a visible entry has the newest one. */
  lemma NewestOfAll(files: Files, tmp: Files, u: UserKey, s: nat, i: nat, e: Entry)
    requires FilesOk(files) && NewerByNumber(files) && NewestFirst(tmp) && i < |tmp|
    requires forall f :: f in tmp <==> f in files && f.smallest.user <= u <= f.largest.user
    requires forall j :: 0 <= j < i ==> !HasCandidate(Elements(tmp[j].entries), u, s)
    requires Newest(Elements(tmp[i].entries), u, s, e)
    ensures Newest(EntriesOf(files), u, s, e)
  {
    var f := tmp[i];
    assert f in tmp;
    forall g, x | g in files && x in g.entries && Candidate(x, u, s)
      ensures x.key.sequence <= e.key.sequence
    {
      EntryInRange(g, x);
      var j :| 0 <= j < |tmp| && tmp[j] == g;
      assert j >= i;
      assert j > i ==> Newer(f, g);
    }
  }
}
