/** The manifest: version edits as bytes, in a log, and recovery from whatever part of that log survives. */
module ManifestLog {
  import opened DbFormat
  import opened Version
  import opened Builder
  import opened Edits
  import opened Coding
  import EditCodec
  import Log
  import LogReader

  // ------------------------------------------------------------------------ encoded keys

  /** A user key followed by an eight-byte tag whose low byte is a kind. */
  predicate IsKey(b: Bytes) {
    |b| >= 8 && b[|b| - 8] <= 1
  }

  /** The internal key that the bytes stand for. */
  function KeyOf(b: Bytes): InternalKey
    requires IsKey(b)
  {
    var n := |b| - 8;
    InternalKey(Rank(b[..n]), Undigits(b[n + 1..]), if b[n] == 1 then Put else Deletion)
  }

  /** Different bytes are different keys. */
  lemma KeyOfInjective(a: Bytes, b: Bytes)
    requires IsKey(a) && IsKey(b) && KeyOf(a) == KeyOf(b)
    ensures a == b
  {
    hide Undigits, Rank;
    var n, m := |a| - 8, |b| - 8;
    BytewiseOrderEmbeds(a[..n], b[..m]);
    assert |a[..n]| == n && |b[..m]| == m;
    UndigitsInjective(a[n + 1..], b[m + 1..]);
    assert a == a[..n] + [a[n]] + a[n + 1..] && b == b[..m] + [b[m]] + b[m + 1..];
  }

  // ---------------------------------------------------------------------- edits and files

  /** What is in the table files, by number. */
  type Disk = nat -> seq<Entry>

  predicate MetaOk(m: EditCodec.FileMeta) {
    IsKey(m.smallest) && IsKey(m.largest)
  }

  function FileOf(m: EditCodec.FileMeta, disk: Disk): File
    requires MetaOk(m)
  {
    File(m.number, m.size, KeyOf(m.smallest), KeyOf(m.largest), disk(m.number))
  }

  /** Every file key of the edit is an encoded internal key. */
  predicate KeysOk(e: EditCodec.Edit) {
    forall i :: 0 <= i < |e.newFiles| ==> MetaOk(e.newFiles[i].1)
  }

  ghost predicate EditOk(e: EditCodec.Edit) {
    EditCodec.EditFits(e) && KeysOk(e)
  }

  /** What an edit does to the files. */
  function Meaning(e: EditCodec.Edit, disk: Disk): (r: VersionEdit)
    requires EditOk(e)
    ensures r.deleted == e.deletedFiles && |r.added| == |e.newFiles|
  {
    VersionEdit(e.deletedFiles, seq(|e.newFiles|, i requires 0 <= i < |e.newFiles| => (e.newFiles[i].0, FileOf(e.newFiles[i].1, disk))))
  }

  ghost function Meanings(edits: seq<EditCodec.Edit>, disk: Disk): (r: seq<VersionEdit>)
    requires forall i :: 0 <= i < |edits| ==> EditOk(edits[i])
    ensures |r| == |edits| && forall i :: 0 <= i < |edits| ==> r[i] == Meaning(edits[i], disk)
  {
    seq(|edits|, i requires 0 <= i < |edits| => Meaning(edits[i], disk))
  }

  lemma MeaningValid(e: EditCodec.Edit, disk: Disk)
    requires EditOk(e)
    ensures ValidEdit(Meaning(e, disk))
  {
    var r := Meaning(e, disk);
    forall i | 0 <= i < |r.added| ensures r.added[i].0 < NUM_LEVELS {
      assert EditCodec.NewFile(e.newFiles[i].0, e.newFiles[i].1).Fits();
    }
  }

  // ------------------------------------------------------------------------- added at most once

  ghost predicate OutsideBase(base: seq<File>, l: nat, edit: VersionEdit) {
    forall p, f :: p in edit.added && p.0 == l && f in base ==> p.1.number != f.number
  }

  ghost predicate NumbersApart(a: VersionEdit, b: VersionEdit, l: nat) {
    forall p, q :: p in a.added && q in b.added && p.0 == l == q.0 ==> p.1.number != q.1.number
  }

  ghost predicate NumbersOnce(edit: VersionEdit, l: nat) {
    forall i, j :: 0 <= i < j < |edit.added| && edit.added[i].0 == l == edit.added[j].0 ==> edit.added[i].1.number != edit.added[j].1.number
  }

  /** No number is added to a level twice, or is there to begin with. */
  ghost predicate AddedOnce(base: seq<seq<File>>, edits: seq<VersionEdit>)
    requires |base| == NUM_LEVELS
  {
    && (forall l, i :: 0 <= l < NUM_LEVELS && 0 <= i < |edits| ==> OutsideBase(base[l], l, edits[i]) && NumbersOnce(edits[i], l))
    && (forall l, i, j :: 0 <= l < NUM_LEVELS && 0 <= i < j < |edits| ==> NumbersApart(edits[i], edits[j], l))
  }

  /** The file was in the base or came with one of the first `n` edits. */
  ghost predicate CameBy(base: seq<File>, edits: seq<VersionEdit>, n: nat, l: nat, f: File) {
    f in base || exists i :: 0 <= i < n && i < |edits| && (l, f) in edits[i].added
  }

  ghost predicate AllCameBy(base: seq<File>, edits: seq<VersionEdit>, n: nat, l: nat, files: seq<File>) {
    forall f :: f in files ==> CameBy(base, edits, n, l, f)
  }

  lemma FreshNext(base: seq<seq<File>>, edits: seq<VersionEdit>, n: nat, l: nat, xs: seq<File>, ys: seq<File>)
    requires |base| == NUM_LEVELS && AddedOnce(base, edits) && n < |edits| && l < NUM_LEVELS
    requires AllCameBy(base[l], edits, n, l, xs) && AllCameBy(base[l], edits, n, l, ys)
    ensures Fresh(xs, ys, l, edits[n])
  {
    assert OutsideBase(base[l], l, edits[n]) && NumbersOnce(edits[n], l);
    forall p, f | p in edits[n].added && p.0 == l && (f in xs || f in ys) ensures p.1.number != f.number {
      assert CameBy(base[l], edits, n, l, f);
      if f !in base[l] {
        var i :| 0 <= i < n && i < |edits| && (l, f) in edits[i].added;
        assert NumbersApart(edits[i], edits[n], l);
        assert (l, f).1 == f;
      }
    }
  }

  lemma CameByMore(base: seq<File>, edits: seq<VersionEdit>, n: nat, l: nat, f: File)
    requires n < |edits| && (CameBy(base, edits, n, l, f) || (l, f) in edits[n].added)
    ensures CameBy(base, edits, n + 1, l, f)
  {
  }

  lemma AppliedCameBy(base: seq<File>, edits: seq<VersionEdit>, n: nat, l: nat, files: seq<File>, files': seq<File>)
    requires n < |edits| && AllCameBy(base, edits, n, l, files)
    requires FileSet(files') == ApplyToLevel(FileSet(files), l, edits[n])
    ensures AllCameBy(base, edits, n + 1, l, files')
  {
    forall f | f in files' ensures CameBy(base, edits, n + 1, l, f) {
      assert f in FileSet(files');
      if f in ApplyToLevel(FileSet(files), l, edits[n]) && f !in files {
        var p :| p in edits[n].added && p.0 == l && p.1 == f;
        assert p == (l, f);
      }
      hide CameBy;
      assert f in files ==> CameBy(base, edits, n, l, f);
      CameByMore(base, edits, n, l, f);
    }
  }

  // ------------------------------------------------------------------------ the live versions

  ghost predicate SortedLevels(levels: seq<seq<File>>) {
    |levels| == NUM_LEVELS && forall l :: 0 <= l < NUM_LEVELS ==> SortedBySmallest(levels[l])
  }

  /** The version after one edit; there is only one such list of files. */
  ghost predicate Applied(levels: seq<seq<File>>, edit: VersionEdit, levels': seq<seq<File>>) {
    && |levels| == NUM_LEVELS && SortedLevels(levels')
    && forall l :: 0 <= l < NUM_LEVELS ==> FileSet(levels'[l]) == ApplyToLevel(FileSet(levels[l]), l, edit)
  }

  /** The versions of a database that applied the edits one at a time. */
  ghost predicate LiveVersions(base: seq<seq<File>>, edits: seq<VersionEdit>, versions: seq<seq<seq<File>>>) {
    && |versions| == |edits| + 1 && versions[0] == base
    && forall i :: 0 <= i < |edits| ==> Applied(versions[i], edits[i], versions[i + 1])
  }

  ghost predicate LevelsCameBy(base: seq<seq<File>>, edits: seq<VersionEdit>, n: nat, levels: seq<seq<File>>) {
    && |base| == |levels| == NUM_LEVELS
    && forall l :: 0 <= l < NUM_LEVELS ==> AllCameBy(base[l], edits, n, l, levels[l])
  }

  /** One edit on the live database. */
  method LiveStep(base: seq<seq<File>>, ghost edits: seq<VersionEdit>, ghost n: nat, levels: seq<seq<File>>, edit: VersionEdit)
    returns (levels': seq<seq<File>>)
    requires |base| == NUM_LEVELS && AddedOnce(base, edits) && n < |edits| && edit == edits[n] && ValidEdit(edit)
    requires SortedLevels(levels) && LevelsCameBy(base, edits, n, levels)
    ensures Applied(levels, edit, levels') && LevelsCameBy(base, edits, n + 1, levels')
  {
    hide AddedOnce, AllCameBy, ValidEdit, Fresh, SortedBySmallest, ApplyToLevel, FileSet;
    forall l | 0 <= l < NUM_LEVELS ensures Fresh(levels[l], [], l, edit) {
      NoneCameBy(base[l], edits, n, l);
      FreshNext(base, edits, n, l, levels[l], []);
    }
    levels' := LogAndApply(levels, edit);
    forall l | 0 <= l < NUM_LEVELS ensures AllCameBy(base[l], edits, n + 1, l, levels'[l]) {
      AppliedCameBy(base[l], edits, n, l, levels[l], levels'[l]);
    }
  }

  lemma NoneCameBy(base: seq<File>, edits: seq<VersionEdit>, n: nat, l: nat)
    ensures AllCameBy(base, edits, n, l, [])
  {
  }

  lemma BaseCameBy(base: seq<seq<File>>, edits: seq<VersionEdit>)
    requires |base| == NUM_LEVELS
    ensures LevelsCameBy(base, edits, 0, base)
  {
  }

  // ------------------------------------------------------------------------- writing

  /** Record `i` of the manifest is edit `i`, as bytes. */
  ghost predicate RecordsOf(records: seq<Bytes>, edits: seq<EditCodec.Edit>, items: seq<seq<EditCodec.Item>>) {
    && |records| == |edits| == |items|
    && forall i :: 0 <= i < |edits| ==> EditCodec.Encoded(records[i], items[i], edits[i])
  }

  /** Apply each edit to the live version and write it down. */
  method WriteEdits(base: seq<seq<File>>, edits: seq<EditCodec.Edit>, disk: Disk)
    returns (records: seq<Bytes>, live: seq<seq<File>>, ghost items: seq<seq<EditCodec.Item>>, ghost versions: seq<seq<seq<File>>>)
    requires SortedLevels(base) && (forall i :: 0 <= i < |edits| ==> EditOk(edits[i])) && AddedOnce(base, Meanings(edits, disk))
    ensures RecordsOf(records, edits, items)
    ensures LiveVersions(base, Meanings(edits, disk), versions) && live == versions[|edits|]
  {
    hide AddedOnce, EditCodec.Encoded, EditCodec.EditFits, SortedLevels, Applied, LevelsCameBy, Meaning, ValidEdit;
    BaseLength(base);
    records, live, items, versions := [], base, [], [base];
    ghost var meanings := Meanings(edits, disk);
    BaseCameBy(base, meanings);
    for n := 0 to |edits|
      invariant RecordsOf(records, edits[..n], items)
      invariant |versions| == n + 1 && versions[0] == base && live == versions[n]
      invariant forall i :: 0 <= i < n ==> Applied(versions[i], meanings[i], versions[i + 1])
      invariant SortedLevels(live) && LevelsCameBy(base, meanings, n, live)
    {
      MeaningValid(edits[n], disk);
      var live' := LiveStep(base, meanings, n, live, Meaning(edits[n], disk));
      AppliedSorted(live, Meaning(edits[n], disk), live');
      var record;
      ghost var its;
      record, its := EditCodec.EncodeTo(edits[n]);
      records, items, live, versions := records + [record], items + [its], live', versions + [live'];
    }
    assert edits[..|edits|] == edits;
  }

  lemma BaseLength(levels: seq<seq<File>>)
    requires SortedLevels(levels)
    ensures |levels| == NUM_LEVELS
  {
  }

  lemma AppliedSorted(levels: seq<seq<File>>, edit: VersionEdit, levels': seq<seq<File>>)
    requires Applied(levels, edit, levels')
    ensures SortedLevels(levels')
  {
    hide SortedLevels, ApplyToLevel, FileSet;
  }

  // ------------------------------------------------------------------------- reading

  /** The last value given by the edits. */
  ghost function LastGiven(edits: seq<EditCodec.Edit>, field: EditCodec.Edit -> Option<nat>): Option<nat> {
    if edits == [] then None
    else
      var last := field(edits[|edits| - 1]);
      if last.Some? then last else LastGiven(edits[..|edits| - 1], field)
  }

  datatype Counters = Counters(logNumber: Option<nat>, prevLogNumber: Option<nat>, nextFile: Option<nat>, lastSequence: Option<nat>)

  function LogNumberIn(e: EditCodec.Edit): Option<nat> { e.logNumber }

  function PrevLogNumberIn(e: EditCodec.Edit): Option<nat> { e.prevLogNumber }

  function NextFileIn(e: EditCodec.Edit): Option<nat> { e.nextFileNumber }

  function LastSequenceIn(e: EditCodec.Edit): Option<nat> { e.lastSequence }

  /** What the edits say, the later ones over the earlier ones. */
  ghost function CountersOf(edits: seq<EditCodec.Edit>): Counters {
    Counters(LastGiven(edits, LogNumberIn), LastGiven(edits, PrevLogNumberIn), LastGiven(edits, NextFileIn), LastGiven(edits, LastSequenceIn))
  }

  function Latest(old': Option<nat>, given: Option<nat>): Option<nat> {
    if given.Some? then given else old'
  }

  function CountersAfter(c: Counters, e: EditCodec.Edit): Counters {
    Counters(Latest(c.logNumber, e.logNumber), Latest(c.prevLogNumber, e.prevLogNumber),
             Latest(c.nextFile, e.nextFileNumber), Latest(c.lastSequence, e.lastSequence))
  }

  lemma CountersStep(edits: seq<EditCodec.Edit>, n: nat)
    requires n < |edits|
    ensures CountersOf(edits[..n + 1]) == CountersAfter(CountersOf(edits[..n]), edits[n])
  {
    assert edits[..n + 1][..n] == edits[..n] && edits[..n + 1][n] == edits[n];
  }

  /** Every edit so far names the expected comparator or none. */
  ghost predicate Comparable(edits: seq<EditCodec.Edit>, name: Bytes) {
    forall i :: 0 <= i < |edits| ==> edits[i].comparator.Some? ==> edits[i].comparator.value == name
  }

  /** What recovering from a manifest gives. */
  datatype Recovered = Recovered(levels: seq<seq<File>>, logNumber: nat, prevLogNumber: nat, manifestNumber: nat, nextFileNumber: nat, lastSequence: nat)

  /** The counters that a manifest must give. */
  ghost predicate GivesAll(c: Counters) {
    c.logNumber.Some? && c.nextFile.Some? && c.lastSequence.Some?
  }

  ghost predicate SameCounters(r: Recovered, c: Counters) {
    && c.logNumber == Some(r.logNumber) && c.lastSequence == Some(r.lastSequence)
    && r.prevLogNumber == (if c.prevLogNumber.Some? then c.prevLogNumber.value else 0)
    && c.nextFile == Some(r.manifestNumber) && r.nextFileNumber == r.manifestNumber + 1
  }

  function RecoveredFrom(levels: seq<seq<File>>, c: Counters): Recovered
    requires c.logNumber.Some? && c.nextFile.Some? && c.lastSequence.Some?
  {
    Recovered(levels, c.logNumber.value, if c.prevLogNumber.Some? then c.prevLogNumber.value else 0,
              c.nextFile.value, c.nextFile.value + 1, c.lastSequence.value)
  }

  lemma SameLevels(levels: seq<seq<File>>, c: Counters)
    requires c.logNumber.Some? && c.nextFile.Some? && c.lastSequence.Some?
    ensures RecoveredFrom(levels, c).levels == levels
  {
  }

  lemma FoldCounters(c: Counters, r: Recovered)
    ensures GivesAll(c) <==> c.logNumber.Some? && c.nextFile.Some? && c.lastSequence.Some?
    ensures GivesAll(c) && r == RecoveredFrom(r.levels, c) ==> SameCounters(r, c)
  {
  }

  ghost predicate BuilderCameBy(builder: VersionBuilder, base: seq<seq<File>>, edits: seq<VersionEdit>, n: nat)
    reads builder
  {
    && |base| == |builder.added| == NUM_LEVELS && builder.base == base
    && forall l :: 0 <= l < NUM_LEVELS ==> AllCameBy(base[l], edits, n, l, builder.added[l])
  }

  /** One edit into the builder of a recovery. */
  method BuilderStep(builder: VersionBuilder, ghost base: seq<seq<File>>, ghost edits: seq<VersionEdit>, ghost n: nat, edit: VersionEdit)
    requires builder.Valid() && |base| == NUM_LEVELS && AddedOnce(base, edits) && n < |edits| && edit == edits[n] && ValidEdit(edit)
    requires BuilderCameBy(builder, base, edits, n) && builder.edits == edits[..n]
    modifies builder
    ensures builder.Valid() && BuilderCameBy(builder, base, edits, n + 1) && builder.edits == edits[..n + 1]
  {
    hide AddedOnce, AllCameBy, ValidEdit, Fresh, VersionBuilder.Valid;
    forall l | 0 <= l < NUM_LEVELS ensures Fresh(base[l], builder.added[l], l, edit) {
      BaseItself(base[l], edits, n, l);
      FreshNext(base, edits, n, l, base[l], builder.added[l]);
    }
    ghost var before := builder.added;
    builder.Apply(edit);
    LevelsOfBuilder(builder);
    forall l | 0 <= l < NUM_LEVELS ensures AllCameBy(base[l], edits, n + 1, l, builder.added[l]) {
      AddedCameBy(base[l], edits, n, l, before[l], builder.added[l]);
    }
  }

  lemma LevelsOfBuilder(builder: VersionBuilder)
    requires builder.Valid()
    ensures |builder.added| == NUM_LEVELS
  {
  }

  lemma BaseItself(base: seq<File>, edits: seq<VersionEdit>, n: nat, l: nat)
    ensures AllCameBy(base, edits, n, l, base)
  {
  }

  lemma AddedCameBy(base: seq<File>, edits: seq<VersionEdit>, n: nat, l: nat, files: seq<File>, files': seq<File>)
    requires n < |edits| && AllCameBy(base, edits, n, l, files)
    requires forall f :: f in files' <==> f in files || (l, f) in edits[n].added
    ensures AllCameBy(base, edits, n + 1, l, files')
  {
    hide CameBy;
    forall f | f in files' ensures CameBy(base, edits, n + 1, l, f) {
      CameByMore(base, edits, n, l, f);
    }
  }

  /** Decode one record into a new edit. */
  method ReadEdit(record: Bytes, ghost items: seq<EditCodec.Item>, ghost e: EditCodec.Edit) returns (ok: bool, r: EditCodec.Edit)
    requires EditCodec.Encoded(record, items, e)
    ensures ok && r == e
  {
    hide EditCodec.ItemsBytes, EditCodec.ApplyAll, EditCodec.AllFit;
    ok, r := EditCodec.DecodeFrom(record, [], items);
    assert [] + e.compactPointers == e.compactPointers;
  }

  /** Read the surviving records: the version they build, and the counters, if they are all there and every edit is
      of this comparator. */
  method ReadEdits(base: seq<seq<File>>, records: seq<Bytes>, disk: Disk, comparator: Bytes,
                   ghost items: seq<seq<EditCodec.Item>>, ghost edits: seq<EditCodec.Edit>, ghost all: seq<EditCodec.Edit>)
    returns (r: Option<Recovered>)
    requires SortedLevels(base) && RecordsOf(records, edits, items) && edits <= all
    requires (forall i :: 0 <= i < |all| ==> EditOk(all[i])) && AddedOnce(base, Meanings(all, disk))
    ensures r.Some? <==> Comparable(edits, comparator) && GivesAll(CountersOf(edits))
    ensures r.Some? ==> SameCounters(r.value, CountersOf(edits))
    ensures r.Some? ==> Rebuilt(base, Meanings(all, disk)[..|edits|], r.value.levels)
  {
    hide *;
    BaseLength(base);
    ghost var meanings := Meanings(all, disk);
    BaseSorted(base);
    var builder := new VersionBuilder(base);
    BuilderStarts(builder, base, meanings);
    var c := Counters(None, None, None, None);
    NoCounters(edits);
    SomeLength(records, edits, items);
    NothingCompared(edits, comparator);
    assert meanings[..0] == [];
    for n := 0 to |records|
      invariant builder.Valid() && builder.edits == meanings[..n] && BuilderCameBy(builder, base, meanings, n)
      invariant c == CountersOf(edits[..n]) && Comparable(edits[..n], comparator)
    {
      RecordIs(records, edits, items, n);
      var ok, e := ReadEdit(records[n], items[n], edits[n]);
      CompareNext(edits, comparator, n);
      if e.comparator.Some? && e.comparator.value != comparator {
        return None;
      }
      assert e == all[n];
      MeaningValid(e, disk);
      BuilderStep(builder, base, meanings, n, Meaning(e, disk));
      CountersStep(edits, n);
      CountersUnfold(c, e);
      c := Counters(if e.logNumber.Some? then e.logNumber else c.logNumber,
                    if e.prevLogNumber.Some? then e.prevLogNumber else c.prevLogNumber,
                    if e.nextFileNumber.Some? then e.nextFileNumber else c.nextFile,
                    if e.lastSequence.Some? then e.lastSequence else c.lastSequence);
    }
    assert edits[..|records|] == edits;
    FoldCounters(c, Recovered([], 0, 0, 0, 0, 0));
    if c.nextFile.None? || c.logNumber.None? || c.lastSequence.None? {
      return None;
    }
    var levels := builder.SaveTo();
    FoldRebuilt(base, meanings[..|edits|], levels);
    r := Some(RecoveredFrom(levels, c));
    SameLevels(levels, c);
    FoldCounters(c, r.value);
  }

  lemma BaseSorted(base: seq<seq<File>>)
    requires SortedLevels(base)
    ensures |base| == NUM_LEVELS && forall l :: 0 <= l < NUM_LEVELS ==> SortedBySmallest(base[l])
  {
  }

  lemma BuilderStarts(builder: VersionBuilder, base: seq<seq<File>>, edits: seq<VersionEdit>)
    requires builder.Valid() && |base| == NUM_LEVELS && builder.base == base && forall l :: 0 <= l < NUM_LEVELS ==> builder.added[l] == []
    ensures BuilderCameBy(builder, base, edits, 0)
  {
  }

  lemma NoCounters(edits: seq<EditCodec.Edit>)
    ensures CountersOf(edits[..0]) == Counters(None, None, None, None)
  {
  }

  lemma NothingCompared(edits: seq<EditCodec.Edit>, name: Bytes)
    ensures Comparable(edits[..0], name)
  {
  }

  lemma SomeLength(records: seq<Bytes>, edits: seq<EditCodec.Edit>, items: seq<seq<EditCodec.Item>>)
    requires RecordsOf(records, edits, items)
    ensures |records| == |edits| == |items|
  {
  }

  lemma RecordIs(records: seq<Bytes>, edits: seq<EditCodec.Edit>, items: seq<seq<EditCodec.Item>>, n: nat)
    requires RecordsOf(records, edits, items) && n < |records|
    ensures |records| == |edits| == |items| && EditCodec.Encoded(records[n], items[n], edits[n])
  {
    hide EditCodec.Encoded;
  }

  lemma CompareNext(edits: seq<EditCodec.Edit>, name: Bytes, n: nat)
    requires n < |edits|
    ensures Comparable(edits[..n + 1], name) <==> Comparable(edits[..n], name) && (edits[n].comparator.Some? ==> edits[n].comparator.value == name)
    ensures edits[n].comparator.Some? && edits[n].comparator.value != name ==> !Comparable(edits, name)
  {
    assert forall i :: 0 <= i < n ==> edits[..n + 1][i] == edits[..n][i];
    assert edits[..n + 1][n] == edits[n];
  }

  lemma CountersUnfold(c: Counters, e: EditCodec.Edit)
    ensures CountersAfter(c, e) == Counters(if e.logNumber.Some? then e.logNumber else c.logNumber,
                                            if e.prevLogNumber.Some? then e.prevLogNumber else c.prevLogNumber,
                                            if e.nextFileNumber.Some? then e.nextFileNumber else c.nextFile,
                                            if e.lastSequence.Some? then e.lastSequence else c.lastSequence)
  {
  }

  /** Sorted lists of the files that folding the edits into the base leaves. */
  ghost predicate Rebuilt(base: seq<seq<File>>, edits: seq<VersionEdit>, levels: seq<seq<File>>) {
    && |base| == NUM_LEVELS && SortedLevels(levels)
    && forall l :: 0 <= l < NUM_LEVELS ==> FileSet(levels[l]) == Folded(FileSet(base[l]), l, edits)
  }

  lemma FoldRebuilt(base: seq<seq<File>>, edits: seq<VersionEdit>, levels: seq<seq<File>>)
    requires |base| == |levels| == NUM_LEVELS
    requires forall l :: 0 <= l < NUM_LEVELS ==> SortedBySmallest(levels[l]) && FileSet(levels[l]) == Folded(FileSet(base[l]), l, edits)
    ensures Rebuilt(base, edits, levels)
  {
    hide FileSet, Folded, SortedBySmallest;
  }

  /** Folding all the edits at once ends at the version that the live database reached edit by edit. */
  lemma RebuiltIsLive(base: seq<seq<File>>, edits: seq<VersionEdit>, versions: seq<seq<seq<File>>>, n: nat, levels: seq<seq<File>>)
    requires SortedLevels(base) && LiveVersions(base, edits, versions) && n <= |edits| && Rebuilt(base, edits[..n], levels)
    ensures |versions| == |edits| + 1 && levels == versions[n]
  {
    hide FileSet, Folded, SortedBySmallest, ApplyToLevel;
    assert n > 0 ==> Applied(versions[n - 1], edits[n - 1], versions[n]);
    forall l | 0 <= l < NUM_LEVELS ensures levels[l] == versions[n][l] {
      var column := Column(base, edits, versions, n, l);
      ManifestReplay(column, l, edits[..n], levels[l]);
    }
  }

  /** One level of the live versions. */
  lemma Column(base: seq<seq<File>>, edits: seq<VersionEdit>, versions: seq<seq<seq<File>>>, n: nat, l: nat) returns (column: seq<seq<File>>)
    requires SortedLevels(base) && LiveVersions(base, edits, versions) && n <= |edits| && l < NUM_LEVELS
    ensures OneAtATime(column, l, edits[..n]) && |column| == n + 1 && column[0] == base[l]
    ensures |versions[n]| == NUM_LEVELS && column[n] == versions[n][l]
  {
    hide FileSet, SortedBySmallest, ApplyToLevel;
    forall i | 0 <= i <= n ensures SortedLevels(versions[i]) {
      assert i > 0 ==> Applied(versions[i - 1], edits[i - 1], versions[i]);
    }
    column := seq(n + 1, i requires 0 <= i <= n => versions[i][l]);
    forall i | 0 <= i < n ensures FileSet(column[i + 1]) == ApplyToLevel(FileSet(column[i]), l, edits[..n][i]) {
      assert Applied(versions[i], edits[i], versions[i + 1]);
    }
  }

  // -------------------------------------------------------------- one edit or several

  /** One edit for each file. */
  ghost function Singles(added: seq<(nat, File)>): (r: seq<VersionEdit>)
    ensures |r| == |added| && forall i :: 0 <= i < |added| ==> r[i] == VersionEdit({}, [added[i]])
  {
    seq(|added|, i requires 0 <= i < |added| => VersionEdit({}, [added[i]]))
  }

  lemma {:induction false} FoldedSingles(files: set<File>, l: nat, added: seq<(nat, File)>)
    ensures Folded(files, l, Singles(added)) == ApplyToLevel(files, l, VersionEdit({}, added))
  {
    if added == [] {
      assert Singles(added) == [];
    } else {
      var init, last := added[..|added| - 1], added[|added| - 1];
      FoldedSingles(files, l, init);
      assert Singles(added)[..|added| - 1] == Singles(init);
      var before := ApplyToLevel(files, l, VersionEdit({}, init));
      AddLast(files, l, init, last, added);
      assert Folded(files, l, Singles(added)) == ApplyToLevel(before, l, VersionEdit({}, [last]));
    }
  }

  lemma AddLast(files: set<File>, l: nat, init: seq<(nat, File)>, last: (nat, File), added: seq<(nat, File)>)
    requires added == init + [last]
    ensures ApplyToLevel(ApplyToLevel(files, l, VersionEdit({}, init)), l, VersionEdit({}, [last])) == ApplyToLevel(files, l, VersionEdit({}, added))
  {
    var a, b := ApplyToLevel(ApplyToLevel(files, l, VersionEdit({}, init)), l, VersionEdit({}, [last])), ApplyToLevel(files, l, VersionEdit({}, added));
    forall f | f in b ensures f in a {
      if f !in files {
        var p :| p in added && p.0 == l && p.1 == f;
        assert p in init || p in [last];
      }
    }
    forall f | f in a ensures f in b {
      if f !in files {
        var p :| (p in init || p in [last]) && p.0 == l && p.1 == f;
        assert p in added;
      }
    }
  }

  /** One edit that adds several files gives the version that adding them one by one gives. */
  lemma OneEditOrMany(base: seq<seq<File>>, added: seq<(nat, File)>, versions: seq<seq<seq<File>>>, levels: seq<seq<File>>)
    requires SortedLevels(base) && LiveVersions(base, Singles(added), versions) && Applied(base, VersionEdit({}, added), levels)
    ensures |versions| == |added| + 1 && levels == versions[|added|]
  {
    hide FileSet, Folded, SortedBySmallest, ApplyToLevel;
    forall l | 0 <= l < NUM_LEVELS ensures FileSet(levels[l]) == Folded(FileSet(base[l]), l, Singles(added)) {
      FoldedSingles(FileSet(base[l]), l, added);
    }
    assert Singles(added)[..|added|] == Singles(added);
    RebuiltIsLive(base, Singles(added), versions, |added|, levels);
  }

  // ------------------------------------------------------------------------- the round trip

  lemma {:induction false} RecordsPrefix(records: seq<Bytes>, edits: seq<EditCodec.Edit>, items: seq<seq<EditCodec.Item>>, out: seq<Bytes>)
    requires RecordsOf(records, edits, items) && out <= records
    ensures |out| <= |edits| == |items| && RecordsOf(out, edits[..|out|], items[..|out|])
  {
    hide EditCodec.Encoded;
  }

  /** Any edits: each is applied to the live version and written to the manifest, which is then cut anywhere.
      Recovery reads exactly the edits whose records end inside the cut, through one builder, and arrives at the very
      file lists the live database had after those edits, with the counters those edits gave last. */
  method WriteThenRecover(base: seq<seq<File>>, edits: seq<EditCodec.Edit>, disk: Disk, comparator: Bytes, size: nat)
    returns (r: Option<Recovered>, count: nat, file: Bytes, ghost ps: seq<Log.Physical>, ghost marks: seq<nat>, ghost ends: seq<nat>,
             ghost records: seq<Bytes>, ghost items: seq<seq<EditCodec.Item>>, ghost versions: seq<seq<seq<File>>>)
    requires SortedLevels(base) && (forall i :: 0 <= i < |edits| ==> EditOk(edits[i])) && AddedOnce(base, Meanings(edits, disk))
    ensures RecordsOf(records, edits, items) && LiveVersions(base, Meanings(edits, disk), versions)
    ensures file == Log.Layout(ps) && Log.WellLaid(ps) && Log.ParseAll(ps) == Log.Parse(records, None, true)
    ensures Log.MarksOk(ps, records, marks, ends) && |ends| == |edits|
    ensures LogReader.WholeRecords(ends, size, count) && count <= |edits| && (size >= |file| ==> count == |edits|)
    ensures r.Some? <==> Comparable(edits[..count], comparator) && GivesAll(CountersOf(edits[..count]))
    ensures r.Some? ==> r.value.levels == versions[count] && SameCounters(r.value, CountersOf(edits[..count]))
  {
    hide *;
    var written, live;
    written, live, items, versions := WriteEdits(base, edits, disk);
    records := written;
    SomeLength(records, edits, items);
    var out, drops;
    out, drops, file, ps, marks, ends := LogReader.TornTailRoundTrip(written, size);
    count := |out|;
    RecordsPrefix(records, edits, items, out);
    r := ReadEdits(base, out, disk, comparator, items[..count], edits[..count], edits);
    if r.Some? {
      RebuiltIsLive(base, Meanings(edits, disk), versions, count, r.value.levels);
    }
  }
}
