/** The manifest of a run as the bytes of a log file: cut at any byte by a crash, it is
    recovered to the file lists that the engine had at some moment. */
module ManifestBytes {
  import opened InternalKeys
  import opened Bytes
  import opened Coding
  import opened Versions
  import opened VersionBuilder
  import opened Manifest
  import opened CompactionInputs
  import opened Engine
  import opened EngineStructure
  import opened EngineManifest
  import opened VersionEdits
  import T = TableEntries
  import K = TableKeys
  import L = Logs

  // ---------------------------------------------------------------- the record of an edit

  /** The numbers that LogAndApply puts into every record. */
  datatype Header = Header(logNumber: nat, prevLogNumber: nat, nextFileNumber: nat, lastSequence: nat)

  predicate HeaderFits(h: Header) {
    h.logNumber < TWO_64 && h.prevLogNumber < TWO_64 && h.nextFileNumber < TWO_64 && h.lastSequence < TWO_64
  }

  /** The key's encoding can be read back. */
  ghost predicate ReadsBack(k: InternalKey, encodeKey: InternalKey -> Data, storage: Storage) {
    |encodeKey(k)| < TWO_32 && storage.keyOf(encodeKey(k)) == k
  }

  /** The table with this number holds the file's entries, and its bounds can be recorded. */
  ghost predicate FileOnDisk(f: FileMetaData, encodeKey: InternalKey -> Data, storage: Storage) {
    && f.number < TWO_64 && f.fileSize < TWO_64 && storage.contents(f.number) == f.entries
    && ReadsBack(f.smallest, encodeKey, storage) && ReadsBack(f.largest, encodeKey, storage)
  }

  ghost predicate EditOnDisk(fe: FileEdit, encodeKey: InternalKey -> Data, storage: Storage) {
    && (forall p :: p in fe.added ==> p.0 < NUM_LEVELS && FileOnDisk(p.1, encodeKey, storage))
    && (forall p :: p in fe.deleted ==> p.0 < NUM_LEVELS && p.1 < TWO_64)
  }

  function RecordOf(p: (nat, FileMetaData), encodeKey: InternalKey -> Data): (nat, FileRecord) {
    (p.0, FileRecord(p.1.number, p.1.fileSize, encodeKey(p.1.smallest), encodeKey(p.1.largest)))
  }

  function NewFilesOf(added: seq<(nat, FileMetaData)>, encodeKey: InternalKey -> Data): (r: seq<(nat, FileRecord)>)
    ensures |r| == |added|
  {
    seq(|added|, i requires 0 <= i < |added| => RecordOf(added[i], encodeKey))
  }

  lemma {:induction false} InsertKeepsSorted(s: seq<(nat, nat)>, p: (nat, nat))
    requires PairsSorted(s)
    ensures PairsSorted(InsertPair(s, p))
    ensures forall q :: q in InsertPair(s, p) <==> q in s || q == p
  {
    InsertPairElements(s, p);
    if s != [] && !PairLess(p, s[0]) && PairLess(s[0], p) {
      InsertKeepsSorted(s[1..], p);
      var r := InsertPair(s[1..], p);
      forall i | 0 <= i < |r|
        ensures PairLess(s[0], r[i])
      {
        assert r[i] in r;
        if r[i] != p {
          var j :| 0 <= j < |s[1..]| && s[1..][j] == r[i];
          assert s[j + 1] == r[i];
        }
      }
    }
  }

  /** The ordered set of some pairs. */
  lemma {:induction false} SortPairs(pairs: set<(nat, nat)>) returns (s: seq<(nat, nat)>)
    ensures PairsSorted(s) && forall p :: p in s <==> p in pairs
  {
    s := [];
    if pairs != {} {
      var p :| p in pairs;
      s := SortPairs(pairs - {p});
      InsertKeepsSorted(s, p);
      s := InsertPair(s, p);
    }
  }

  /** `e` is a record of the file changes `fe`. */
  ghost predicate IsRecord(e: Edit, fe: FileEdit, storage: Storage) {
    Fits(e) && FileEditOf(e, storage) == fe
  }

  /** Every edit of files that are on disk has a record, whatever its header. */
  lemma RecordExists(fe: FileEdit, comparator: Option<Data>, header: Option<Header>, encodeKey: InternalKey -> Data, storage: Storage)
    returns (e: Edit)
    requires EditOnDisk(fe, encodeKey, storage)
    requires (comparator.Some? ==> |comparator.value| < TWO_32) && (header.Some? ==> HeaderFits(header.value))
    ensures IsRecord(e, fe, storage) && e.comparator == comparator && HasHeader(e, header)
  {
    var deleted := SortPairs(fe.deleted);
    var newFiles := NewFilesOf(fe.added, encodeKey);
    e := if header.None? then Edit(comparator, None, None, None, None, [], deleted, newFiles)
         else Edit(comparator, Some(header.value.logNumber), Some(header.value.prevLogNumber),
                   Some(header.value.nextFileNumber), Some(header.value.lastSequence), [], deleted, newFiles);
    PartsFit(deleted, newFiles, fe, encodeKey, storage);
    HeaderItemsFit(e);
    assert (set p | p in deleted) == fe.deleted;
    assert FileEditOf(e, storage).added == fe.added;
  }

  ghost predicate HasHeader(e: Edit, header: Option<Header>) {
    match header
    case None => e.logNumber.None? && e.prevLogNumber.None? && e.nextFileNumber.None? && e.lastSequence.None?
    case Some(h) =>
      && e.logNumber == Some(h.logNumber) && e.prevLogNumber == Some(h.prevLogNumber)
      && e.nextFileNumber == Some(h.nextFileNumber) && e.lastSequence == Some(h.lastSequence)
  }

  lemma PartsFit(deleted: seq<(nat, nat)>, newFiles: seq<(nat, FileRecord)>, fe: FileEdit, encodeKey: InternalKey -> Data, storage: Storage)
    requires EditOnDisk(fe, encodeKey, storage) && newFiles == NewFilesOf(fe.added, encodeKey)
    requires forall p :: p in deleted <==> p in fe.deleted
    ensures AllFit(DeletedItems(deleted)) && AllFit(NewItems(newFiles))
    ensures forall i :: 0 <= i < |newFiles| ==> (newFiles[i].0, FileOf(newFiles[i].1, storage)) == fe.added[i]
  {
    forall i | 0 <= i < |deleted|
      ensures ItemFits(DeletedItems(deleted)[i])
    {
      assert deleted[i] in deleted;
    }
    forall i | 0 <= i < |newFiles|
      ensures ItemFits(NewItems(newFiles)[i]) && (newFiles[i].0, FileOf(newFiles[i].1, storage)) == fe.added[i]
    {
      assert fe.added[i] in fe.added;
    }
  }

  lemma HeaderItemsFit(e: Edit)
    requires (e.comparator.Some? ==> |e.comparator.value| < TWO_32) && e.compactPointers == []
    requires (e.logNumber.Some? ==> e.logNumber.value < TWO_64) && (e.prevLogNumber.Some? ==> e.prevLogNumber.value < TWO_64)
    requires e.nextFileNumber.Some? ==> e.nextFileNumber.value < TWO_64
    requires e.lastSequence.Some? ==> e.lastSequence.value < TWO_64
    requires AllFit(DeletedItems(e.deletedFiles)) && AllFit(NewItems(e.newFiles))
    ensures AllFit(Items(e))
  {
    hide DeletedItems, NewItems, PointerItems;
    assert PointerItems(e.compactPointers) == [];
  }

  // ---------------------------------------------------------------- the manifest of a run

  /** The file changes of the whole manifest: the version at moment `i`, then every edit. */
  function AllEdits(run: seq<State>, steps: seq<Step>, i: nat, j: nat): seq<FileEdit>
    requires i <= j <= |steps| && |run| == |steps| + 1 && |run[i].levels| == NUM_LEVELS
  {
    [FileEdit({}, AllFiles(run[i].levels, NUM_LEVELS))] + Edits(run, steps, i, j)
  }

  /** The records of that manifest: only the first has a comparator, all others a header. */
  ghost predicate IsManifest(edits: seq<Edit>, changes: seq<FileEdit>, headers: seq<Header>, comparator: Data, storage: Storage) {
    && |edits| == |changes| == |headers| + 1
    && edits[0].comparator == Some(comparator) && HasHeader(edits[0], None)
    && (forall k :: 0 <= k < |edits| ==> IsRecord(edits[k], changes[k], storage))
    && forall k :: 1 <= k < |edits| ==> edits[k].comparator == None && HasHeader(edits[k], Some(headers[k - 1]))
  }

  lemma {:induction false} ManifestExists(changes: seq<FileEdit>, headers: seq<Header>, comparator: Data,
                                          encodeKey: InternalKey -> Data, storage: Storage) returns (edits: seq<Edit>)
    requires |changes| == |headers| + 1 && |comparator| < TWO_32
    requires forall k :: 0 <= k < |changes| ==> EditOnDisk(changes[k], encodeKey, storage)
    requires forall k :: 0 <= k < |headers| ==> HeaderFits(headers[k])
    ensures IsManifest(edits, changes, headers, comparator, storage)
    decreases |headers|
  {
    hide IsRecord, EditOnDisk;
    if headers == [] {
      var e := RecordExists(changes[0], Some(comparator), None, encodeKey, storage);
      edits := [e];
    } else {
      var k := |headers| - 1;
      var init := ManifestExists(changes[..k + 1], headers[..k], comparator, encodeKey, storage);
      var e := RecordExists(changes[k + 1], None, Some(headers[k]), encodeKey, storage);
      edits := init + [e];
    }
  }

  /** Each step logs at most one edit, so the first edits are those up to some moment. */
  lemma {:induction false} EditsUpTo(run: seq<State>, steps: seq<Step>, i: nat, j: nat, n: nat) returns (k: nat)
    requires IsRun(run, steps) && i <= j < |run| && n <= |Edits(run, steps, i, j)|
    ensures i <= k <= j && Edits(run, steps, i, k) == Edits(run, steps, i, j)[..n]
    ensures n == |Edits(run, steps, i, j)| ==> k == j
  {
    hide Next, Init, EditOf;
    k := j;
    if n < |Edits(run, steps, i, j)| {
      RunKeepsSound(run, steps, j - 1);
      OneEdit(run[j - 1], steps[j - 1]);
      k := EditsUpTo(run, steps, i, j - 1, n);
    } else {
      assert Edits(run, steps, i, j)[..n] == Edits(run, steps, i, j);
    }
  }

  lemma OneEdit(s: State, step: Step)
    ensures |EditOf(s, step)| <= 1
  {
  }

  // ---------------------------------------------------------------- every run has a manifest

  /** A byte string of the given rank. */
  ghost function Unrank(keys: set<Data>, rank: UserKey): Data {
    if exists x :: x in keys && T.Rank(keys, x) == rank then
      var x :| x in keys && T.Rank(keys, x) == rank; x
    else []
  }

  /** The internal key as the code stores it: the user key's bytes and the tag. */
  ghost function EncodeKey(keys: set<Data>, k: InternalKey): Data {
    K.InternalKey(Unrank(keys, k.user), Tag(k))
  }

  ghost function DecodeKey(keys: set<Data>, d: Data): InternalKey {
    if K.IsInternalKey(d) then T.KeyIn(keys, d) else InternalKey(0, 0, Deletion)
  }

  lemma KeyInverse(keys: set<Data>, k: InternalKey, x: Data)
    requires x in keys && |x| + 8 < TWO_32 && k.user == T.Rank(keys, x) && k.sequence <= MAX_SEQUENCE_NUMBER
    ensures |EncodeKey(keys, k)| < TWO_32 && DecodeKey(keys, EncodeKey(keys, k)) == k
  {
    hide K.Tag, T.Smaller, T.Rank, Fixed;
    assert exists y :: y in keys && T.Rank(keys, y) == k.user;
    T.RankOrder(keys, Unrank(keys, k.user), x);
    assert Unrank(keys, k.user) == x;
    K.InternalKeyTag(x, Tag(k));
  }

  ghost function ContentsOf(run: seq<State>, j: nat, number: nat): seq<Entry>
    requires j < |run|
  {
    if exists f :: Existed(run, j, f) && f.number == number then
      var f :| Existed(run, j, f) && f.number == number; f.entries
    else []
  }

  /** The tables that a run has written up to moment `j`. */
  ghost function StorageOf(run: seq<State>, j: nat, keys: set<Data>): Storage
    requires j < |run|
  {
    Storage((d: Data) => DecodeKey(keys, d), (n: nat) => ContentsOf(run, j, n))
  }

  /** The file's numbers fit, and its bounds are keys that are known as bytes. */
  ghost predicate FileFits(f: FileMetaData, keys: set<Data>) {
    && f.number < TWO_64 && f.fileSize < TWO_64
    && KeyKnown(f.smallest, keys) && KeyKnown(f.largest, keys)
  }

  ghost predicate KeyKnown(k: InternalKey, keys: set<Data>) {
    k.sequence <= MAX_SEQUENCE_NUMBER && exists x :: x in keys && |x| + 8 < TWO_32 && k.user == T.Rank(keys, x)
  }

  ghost predicate RunFits(run: seq<State>, j: nat, keys: set<Data>)
    requires j < |run|
  {
    forall f :: Existed(run, j, f) ==> FileFits(f, keys)
  }

  lemma ExistedOnDisk(run: seq<State>, steps: seq<Step>, j: nat, keys: set<Data>, f: FileMetaData)
    requires IsRun(run, steps) && j < |run| && Existed(run, j, f) && RunFits(run, j, keys)
    ensures FileOnDisk(f, k => EncodeKey(keys, k), StorageOf(run, j, keys))
  {
    hide Next, Init, Existed, EncodeKey, DecodeKey;
    var g :| Existed(run, j, g) && g.number == f.number && ContentsOf(run, j, f.number) == g.entries;
    OneFilePerNumber(run, steps, j, f, g);
    assert FileFits(f, keys);
    var x :| x in keys && |x| + 8 < TWO_32 && f.smallest.user == T.Rank(keys, x);
    KeyInverse(keys, f.smallest, x);
    var y :| y in keys && |y| + 8 < TWO_32 && f.largest.user == T.Rank(keys, y);
    KeyInverse(keys, f.largest, y);
  }

  /** Which step logged an edit of the manifest. */
  lemma {:induction false} EditFrom(run: seq<State>, steps: seq<Step>, i: nat, j: nat, n: nat) returns (k: nat)
    requires i <= j <= |steps| && |run| == |steps| + 1 && n < |Edits(run, steps, i, j)|
    ensures i <= k < j && Edits(run, steps, i, j)[n] in EditOf(run[k], steps[k])
  {
    hide EditOf;
    var before := |Edits(run, steps, i, j - 1)|;
    if n < before {
      k := EditFrom(run, steps, i, j - 1, n);
    } else {
      k := j - 1;
      assert Edits(run, steps, i, j)[n] == EditOf(run[k], steps[k])[n - before];
    }
  }

  /** What a step logs is about files of the run. */
  lemma StepEditExisted(run: seq<State>, steps: seq<Step>, k: nat, e: FileEdit)
    requires IsRun(run, steps) && k < |steps| && e in EditOf(run[k], steps[k])
    ensures forall p :: p in e.added ==> p.0 < NUM_LEVELS && Existed(run, k + 1, p.1)
    ensures forall p :: p in e.deleted ==> p.0 < NUM_LEVELS && exists f :: Existed(run, k, f) && f.number == p.1
  {
    hide Next, Init, Sound, Existed, EditOf;
    RunKeepsSound(run, steps, k);
    RunKeepsSound(run, steps, k + 1);
    LevelCount(run[k + 1]);
    AddedLevels(run[k], run[k + 1], steps[k], e);
    forall p | p in e.added
      ensures p.0 < NUM_LEVELS && Existed(run, k + 1, p.1)
    {
      assert (p.0, p.1) in e.added && Adds(run[k], steps[k], p.0, p.1);
      AfterStep(run[k], run[k + 1], steps[k], p.0, p.1);
      ItExisted(run, k + 1, p.0, p.1);
    }
    forall p | p in e.deleted
      ensures p.0 < NUM_LEVELS && exists f :: Existed(run, k, f) && f.number == p.1
    {
      var f := DeletedFrom(run[k], run[k + 1], steps[k], e, p);
      ItExisted(run, k, p.0, f);
    }
  }

  lemma ItExisted(run: seq<State>, k: nat, l: nat, f: FileMetaData)
    requires k < |run| && l < |run[k].levels| && f in run[k].levels[l]
    ensures Existed(run, k, f)
  {
  }

  lemma AddedLevels(s: State, t: State, step: Step, e: FileEdit)
    requires Sound(s) && Next(s, t, step) && e in EditOf(s, step)
    ensures forall p :: p in e.added ==> p.0 < NUM_LEVELS
  {
    LevelCount(s);
    hide LevelsSound, MemTablesOk, HistoryOk, SnapshotsOk, NumbersBelow, FilesOk, Disjoint, IsMerged, ApplyEdit;
  }

  /** An edit that deletes is that of a compaction or a move. */
  lemma DeletingEdit(s: State, t: State, step: Step, e: FileEdit) returns (c: Inputs, outputs: Files)
    requires Sound(s) && Next(s, t, step) && e in EditOf(s, step) && e.deleted != {}
    ensures e == InstallEdit(c, outputs) && InputsIn(s.levels, c)
  {
    hide LevelsSound, MemTablesOk, HistoryOk, SnapshotsOk, NumbersBelow, FilesOk, Disjoint, IsMerged, ApplyEdit,
         InstallEdit, OutputsOk, FlushAllowed, InputsIn, InputsOk, RunningSound;
    if step.FinishCompaction? {
      c, outputs := s.running.value.inputs, step.outputs;
      SoundParts(s);
      RunningParts(s, s.running.value);
    } else {
      c, outputs := step.move, step.move.upper;
      SoundParts(s);
      SoundLevels(s.levels);
      ChosenInputsIn(s.levels, c);
    }
  }

  lemma DeletedFrom(s: State, t: State, step: Step, e: FileEdit, p: (nat, nat)) returns (f: FileMetaData)
    requires Sound(s) && Next(s, t, step) && e in EditOf(s, step) && p in e.deleted
    ensures p.0 < |s.levels| == NUM_LEVELS && f in s.levels[p.0] && f.number == p.1
  {
    hide Sound, Next, EditOf;
    LevelCount(s);
    var c, outputs := DeletingEdit(s, t, step, e);
    f :| (f in c.upper && p == (c.level, f.number)) || (f in c.lower && p == (c.level + 1, f.number));
  }

  /** For every stretch of every run whose numbers fit and whose keys are finitely many byte
      strings there are tables and records that make up its manifest, with any headers. */
  lemma RunHasManifest(run: seq<State>, steps: seq<Step>, i: nat, j: nat, headers: seq<Header>, comparator: Data, keys: set<Data>)
    returns (edits: seq<Edit>)
    requires IsRun(run, steps) && i <= j < |run| && RunFits(run, j, keys)
    requires |headers| == |Edits(run, steps, i, j)| && (forall k :: 0 <= k < |headers| ==> HeaderFits(headers[k]))
    requires |comparator| < TWO_32
    ensures |run[i].levels| == NUM_LEVELS
    ensures IsManifest(edits, AllEdits(run, steps, i, j), headers, comparator, StorageOf(run, j, keys))
  {
    hide Next, Init, Sound, Existed, EditOf, FileOnDisk, FileFits, Edits, AllFiles, StorageOf, EncodeKey;
    RunKeepsSound(run, steps, i);
    LevelCount(run[i]);
    var storage := StorageOf(run, j, keys);
    var changes := AllEdits(run, steps, i, j);
    forall n | 0 <= n < |changes|
      ensures EditOnDisk(changes[n], k => EncodeKey(keys, k), storage)
    {
      EditStored(run, steps, i, j, keys, n);
    }
    edits := ManifestExists(changes, headers, comparator, k => EncodeKey(keys, k), storage);
  }

  lemma EditStored(run: seq<State>, steps: seq<Step>, i: nat, j: nat, keys: set<Data>, n: nat)
    requires IsRun(run, steps) && i <= j < |run| && RunFits(run, j, keys) && |run[i].levels| == NUM_LEVELS
    requires n < |AllEdits(run, steps, i, j)|
    ensures EditOnDisk(AllEdits(run, steps, i, j)[n], k => EncodeKey(keys, k), StorageOf(run, j, keys))
  {
    hide Next, Init, Existed, EditOf, FileOnDisk, Edits, AllFiles, StorageOf, EncodeKey;
    var e := AllEdits(run, steps, i, j)[n];
    if n == 0 {
      AllFilesSpec(run[i].levels, NUM_LEVELS);
      forall p | p in e.added
        ensures p.0 < NUM_LEVELS && FileOnDisk(p.1, k => EncodeKey(keys, k), StorageOf(run, j, keys))
      {
        assert (p.0, p.1) in AllFiles(run[i].levels, NUM_LEVELS);
        ItExisted(run, i, p.0, p.1);
        StillExisted(run, i, j, p.1);
        ExistedOnDisk(run, steps, j, keys, p.1);
      }
    } else {
      var k := EditFrom(run, steps, i, j, n - 1);
      StepEditExisted(run, steps, k, e);
      forall p | p in e.added
        ensures p.0 < NUM_LEVELS && FileOnDisk(p.1, k => EncodeKey(keys, k), StorageOf(run, j, keys))
      {
        StillExisted(run, k + 1, j, p.1);
        ExistedOnDisk(run, steps, j, keys, p.1);
      }
      forall p | p in e.deleted
        ensures p.0 < NUM_LEVELS && p.1 < TWO_64
      {
        var f :| Existed(run, k, f) && f.number == p.1;
        StillExisted(run, k, j, f);
        assert FileFits(f, keys);
      }
    }
  }

  lemma StillExisted(run: seq<State>, k: nat, j: nat, f: FileMetaData)
    requires k <= j < |run| && Existed(run, k, f)
    ensures Existed(run, j, f)
  {
  }

  // ---------------------------------------------------------------- a crash

  function EncodeAll(edits: seq<Edit>): (r: seq<Data>)
    ensures |r| == |edits|
  {
    seq(|edits|, i requires 0 <= i < |edits| => EncodeItems(Items(edits[i])))
  }

  method EncodeRecords(edits: seq<Edit>) returns (records: seq<Data>)
    ensures records == EncodeAll(edits)
  {
    hide EncodeItems, Items;
    records := [];
    for i := 0 to |edits|
      invariant records == EncodeAll(edits)[..i]
    {
      var record := EncodeRecord(edits[i]);
      records := records + [record];
    }
  }

  /** Through the object that is written to the log. */
  method EncodeRecord(e: Edit) returns (record: Data)
    ensures record == EncodeItems(Items(e))
  {
    hide EncodeItems, Items;
    var edit := new VersionEdit();
    edit.comparator, edit.logNumber, edit.prevLogNumber := e.comparator, e.logNumber, e.prevLogNumber;
    edit.nextFileNumber, edit.lastSequence := e.nextFileNumber, e.lastSequence;
    edit.compactPointers, edit.deletedFiles, edit.newFiles := e.compactPointers, e.deletedFiles, e.newFiles;
    assert edit.Value() == e;
    record := edit.EncodeTo([]);
    assert [] + EncodeItems(Items(e)) == EncodeItems(Items(e));
  }

  /** The last header counts. */
  lemma {:induction false} LastHeader(edits: seq<Edit>, changes: seq<FileEdit>, headers: seq<Header>, comparator: Data, storage: Storage)
    requires IsManifest(edits, changes, headers, comparator, storage)
    ensures headers == [] ==> Last(edits, NextFileOf) == None
    ensures headers != [] ==>
      var h := headers[|headers| - 1];
      && Last(edits, NextFileOf) == Some(h.nextFileNumber)
      && Last(edits, LastSequenceOf) == Some(h.lastSequence)
      && Last(edits, LogOf) == Some(h.logNumber)
      && Last(edits, PrevLogOf) == Some(h.prevLogNumber)
  {
    hide IsRecord;
    if headers == [] {
      assert edits[..0] == [];
      assert Last(edits[..0], NextFileOf) == None;
    }
  }

  /** The first records are those of a manifest that ended there. */
  lemma ManifestPrefix(edits: seq<Edit>, changes: seq<FileEdit>, headers: seq<Header>, comparator: Data, storage: Storage, n: nat)
    requires IsManifest(edits, changes, headers, comparator, storage) && 0 < n <= |edits|
    ensures IsManifest(edits[..n], changes[..n], headers[..n - 1], comparator, storage)
    ensures EncodeAll(edits)[..n] == EncodeAll(edits[..n]) && Records(EncodeAll(edits[..n]), edits[..n], comparator)
    ensures FileEdits(edits[..n], storage) == changes[..n]
  {
    hide Fits, EncodeItems, Items, FileEditOf;
    forall k | 0 <= k < n
      ensures Fits(edits[k]) && FileEditOf(edits[k], storage) == changes[k]
    {
      assert IsRecord(edits[k], changes[k], storage);
    }
  }

  /** Writes the manifest of a run, loses everything behind the cut, and recovers from
      what is left: if at least one edit is whole, to the file lists of the moment up to
      which all edits are whole, and to the numbers that the last of them has. A whole
      manifest gives those that the run ended with. */
  method CrashAndRecover(edits: seq<Edit>, cut: nat, comparator: Data, storage: Storage,
                         ghost headers: seq<Header>, ghost run: seq<State>, ghost steps: seq<Step>, ghost i: nat, ghost j: nat)
    returns (r: Option<Recovered>, ghost n: nat, ghost k: nat)
    requires IsRun(run, steps) && i <= j < |run| && |run[i].levels| == NUM_LEVELS
    requires IsManifest(edits, AllEdits(run, steps, i, j), headers, comparator, storage)
    ensures n <= |edits| && i <= k <= j && (n == |edits| ==> k == j)
    ensures L.EndOf(0, EncodeAll(edits)[..n], true) <= cut
    ensures n < |edits| ==> cut < L.EndOf(0, EncodeAll(edits)[..n + 1], true)
    ensures r.Some? <==> |edits| > 1 && L.EndOf(0, EncodeAll(edits)[..2], true) <= cut
    ensures r.Some? && L.EndOf(0, EncodeAll(edits), true) <= cut ==> r.value.version == run[j].levels
    ensures r.Some? ==>
      && n > 1
      && |Edits(run, steps, i, k)| == n - 1 && n - 1 <= |headers| && r.value.version == run[k].levels
      && var h := headers[n - 2];
         && r.value.nextFileNumber == h.nextFileNumber + 1 && r.value.lastSequence == h.lastSequence
         && r.value.logNumber == h.logNumber && r.value.prevLogNumber == h.prevLogNumber
  {
    hide Next, Init, IsManifest, L.EndOf, Edits, SaveAt, ReplayAt, Records, HasHeader, FileEditOf, Fits, EncodeItems, Items, AllFiles;
    assert |edits| == |AllEdits(run, steps, i, j)| == |headers| + 1 by {
      ManifestSize(edits, AllEdits(run, steps, i, j), headers, comparator, storage);
    }
    var records := EncodeRecords(edits);
    var back, reports := L.WriteCutRead(records, 0, cut);
    n := |back|;
    assert back == EncodeAll(edits)[..n];
    k := j;
    if n > 0 {
      k := EditsUpTo(run, steps, i, j, n - 1);
      ManifestPrefix(edits, AllEdits(run, steps, i, j), headers, comparator, storage, n);
      assert AllEdits(run, steps, i, j)[..n] == AllEdits(run, steps, i, k);
      LastHeader(edits[..n], AllEdits(run, steps, i, k), headers[..n - 1], comparator, storage);
    } else {
      NoRecords(comparator);
    }
    RecordsReadBack(back, edits[..n], comparator);
    r := Recover(back, comparator, storage);
    WholeRecords(EncodeAll(edits), n, cut);
    if n > 1 {
      Recovers(run, steps, i, k, r.value.version);
    }
  }

  /** What ends before the cut is among the `n` records that are left, and only that. */
  lemma WholeRecords(records: seq<Data>, n: nat, cut: nat)
    requires n <= |records| && L.EndOf(0, records[..n], true) <= cut
    requires n < |records| ==> cut < L.EndOf(0, records[..n + 1], true)
    ensures n > 1 <==> |records| > 1 && L.EndOf(0, records[..2], true) <= cut
    ensures n == |records| <==> L.EndOf(0, records, true) <= cut
  {
    hide L.EndOf;
    assert records[..|records|] == records;
    if n < |records| {
      L.EndsGrow(0, records, n + 1, |records|);
    }
    if |records| > 1 {
      if n > 1 {
        L.EndsGrow(0, records, 2, n);
      } else {
        L.EndsGrow(0, records, n + 1, 2);
      }
    }
  }

  lemma NoRecords(comparator: Data)
    ensures Records([], [], comparator) && Last([], NextFileOf) == None
  {
  }

  lemma ManifestSize(edits: seq<Edit>, changes: seq<FileEdit>, headers: seq<Header>, comparator: Data, storage: Storage)
    requires IsManifest(edits, changes, headers, comparator, storage)
    ensures |edits| == |changes| == |headers| + 1
  {
  }

  lemma Recovers(run: seq<State>, steps: seq<Step>, i: nat, k: nat, version: Levels)
    requires IsRun(run, steps) && i <= k < |run| && |run[i].levels| == NUM_LEVELS && |version| == NUM_LEVELS
    requires forall l :: 0 <= l < NUM_LEVELS ==> version[l] == SaveAt([], ReplayAt(AllEdits(run, steps, i, k), l))
    ensures version == run[k].levels
  {
    hide IsRun, SaveAt, ReplayAt;
    RunManifestRecovers(run, steps, i, k, 0);
    forall l | 0 <= l < NUM_LEVELS
      ensures version[l] == run[k].levels[l]
    {
      RunManifestRecovers(run, steps, i, k, l);
    }
  }
}
