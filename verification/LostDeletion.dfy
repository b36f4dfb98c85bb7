/** A run of the database that loses a deletion.

    Keys 1 and 2 are written; a snapshot is taken; key 2 is deleted.  The memtable is flushed to level 2 and a manual
    compaction to level 3 happens to cut its output between the deletion marker of key 2 and the value that the
    snapshot still needs.  The snapshot is released, key 1 is written again and flushed.  The next automatic compaction
    takes the file with the marker and not the one with the value: the marker is dropped, and key 2 has its old value
    again. */
module LostDeletion {
  import opened DbFormat
  import opened Reads
  import opened Version
  import opened Picking
  import opened Setup
  import opened MemTable
  import Builder
  import opened Flush
  import opened WriteGroups
  import opened DbState
  import opened CompactionWork
  import opened CompactionReads
  import opened CompactionRun
  import opened Install
  import opened Db
  import opened Runs

  const OPS := [Op(Put, 1.0, [7]), Op(Put, 2.0, [7]), Op(Deletion, 2.0, []), Op(Put, 1.0, [8])]

  function Writes(n: nat): Writer
    requires n < 4
  {
    Writer(n, Some(Batch([OPS[n]], 20)), false)
  }

  const WRITERS := [Writes(0), Writes(1), Writes(2), Writes(3)]

  const FIRST := Entry(InternalKey(1.0, 1, Put), [7])
  const VALUE := Entry(InternalKey(2.0, 2, Put), [7])
  const MARKER := Entry(InternalKey(2.0, 3, Deletion), [])
  const AGAIN := Entry(InternalKey(1.0, 4, Put), [8])

  function Written(n: nat): Entry
    requires n < 4
  {
    if n == 0 then FIRST else if n == 1 then VALUE else if n == 2 then MARKER else AGAIN
  }

  /** Outputs are closed after the deletion marker. */
  function Cut(): Plan {
    Plan((e: Entry) => false, (e: Entry) => e.ik == InternalKey(2.0, 3, Deletion), (run: seq<Entry>) => 1)
  }

  function WriteSteps(n: nat): seq<Step>
    requires n < 4
  {
    [Arrive(Writes(n)), Begin, Insert, Publish]
  }

  const FLUSH := [MakeRoom(true, false), FlushMemTable(100, 1)]

  function Steps(): seq<Step> {
    WriteSteps(0) + WriteSteps(1) + [TakeSnapshot(0)] + WriteSteps(2) + FLUSH + [ManualCompaction(2, None, None, 0, 0, Cut()), DropSnapshot(0)]
    + WriteSteps(3) + FLUSH + [AutomaticCompaction(2, AfterPointer(Some(VALUE.ik)), 0, 100, Cut())]
  }

  // -------------------------------------------------------------------------------- phases

  /** Between operations: `n` writes are done, the memtable holds `mem`. */
  ghost predicate Phase(st: State, n: nat, mem: set<Entry>, levels: seq<seq<File>>, snapshots: seq<Snapshot>)
    requires n <= 4
  {
    && st.write.Idle? && st.writers == [] && st.imm.None? && st.hist == OPS[..n] && st.lastSequence == n && st.committed == WRITERS[..n]
    && Sorted(st.mem) && Contents(st.mem) == mem && st.levels == levels && st.snapshots == snapshots
  }

  lemma Began1(a: State, b: State, w: Writer)
    requires Began(a, b) && a.write.Idle? && a.writers == [w] && w.batch.Some? && a.lastSequence + |w.batch.value.ops| < 1000
    ensures b == a.(write := b.write, tmpBatch := b.tmpBatch, logs := b.logs)
    ensures b.write == Writing(LogRecord(a.lastSequence + 1, w.batch.value.ops), 0, 1)
  {
    var n: nat :| Logging(a, n, b);
    assert n == 1 && a.writers[..1] == [w];
    GroupOfOne(a.writers);
    hide IsGroup, Several;
  }

  /** One write from arrival to acknowledgement. */
  lemma OneWrite(a: State, b: State, c: State, d: State, e: State, n: nat, mem: set<Entry>, levels: seq<seq<File>>, snapshots: seq<Snapshot>)
    requires n < 4 && Phase(a, n, mem, levels, snapshots)
    requires Arrived(a, Writes(n), b) && Began(b, c) && Inserted(c, d) && Published(d, e)
    ensures Phase(e, n + 1, mem + {Written(n)}, levels, snapshots)
  {
    hide Sorted, Contents;
    var w := Writes(n);
    assert b.writers == [w];
    Began1(b, c, w);
    hide Began;
    assert c.write == Writing(LogRecord(n + 1, [OPS[n]]), 0, 1) && c == b.(write := c.write, tmpBatch := c.tmpBatch, logs := c.logs);
    assert d == c.(mem := d.mem, hist := c.hist + [OPS[n]], write := Writing(LogRecord(n + 1, [OPS[n]]), 1, 1));
    hide Inserted;
    NextOp(n);
    Acknowledged(d, e, w);
  }

  lemma NextOp(n: nat)
    requires n < 4
    ensures OPS[..n] + [OPS[n]] == OPS[..n + 1] && WRITERS[..n] + [Writes(n)] == WRITERS[..n + 1] && EntryAt(OPS[..n + 1], n) == Written(n)
  {
  }

  lemma Acknowledged(d: State, e: State, w: Writer)
    requires Published(d, e) && d.write.Writing? && d.write.applied == |d.write.record.ops| && d.write.group == 1 && d.writers == [w]
    ensures e == d.(write := Idle, tmpBatch := [], lastSequence := |d.hist|, writers := [], committed := d.committed + [w])
  {
    assert d.writers[..1] == [w] && d.writers[1..] == [];
  }

  // -------------------------------------------------------------------------------- flushes

  lemma {:induction false} SortedRunUnique(xs: seq<Entry>, ys: seq<Entry>)
    requires Sorted(xs) && Sorted(ys) && Contents(xs) == Contents(ys)
    ensures xs == ys
  {
    hide Less;
    EmptyRun(xs);
    EmptyRun(ys);
    if xs != [] {
      SameFirst(xs, ys);
      SameRest(xs, ys);
      SortedRunUnique(xs[1..], ys[1..]);
      assert xs == [xs[0]] + xs[1..] && ys == [ys[0]] + ys[1..];
    }
  }

  lemma EmptyRun(xs: seq<Entry>)
    ensures xs == [] <==> Contents(xs) == {}
  {
    if xs != [] {
      assert xs[0] in Contents(xs);
    }
  }

  lemma SameFirst(xs: seq<Entry>, ys: seq<Entry>)
    requires Sorted(xs) && Sorted(ys) && Contents(xs) == Contents(ys) && xs != [] && ys != []
    ensures xs[0] == ys[0]
  {
    assert xs[0] in Contents(ys) && ys[0] in Contents(xs);
    var i :| 0 <= i < |ys| && ys[i] == xs[0];
    var j :| 0 <= j < |xs| && xs[j] == ys[0];
    LessIsTotalOrder(xs[0].ik, ys[0].ik, xs[0].ik);
  }

  lemma SameRest(xs: seq<Entry>, ys: seq<Entry>)
    requires Sorted(xs) && Sorted(ys) && Contents(xs) == Contents(ys) && xs != [] && ys != [] && xs[0] == ys[0]
    ensures Contents(xs[1..]) == Contents(ys[1..])
  {
    forall e ensures e in xs[1..] <==> e in xs && e != xs[0] {
      FirstOnce(xs, e);
    }
    forall e ensures e in ys[1..] <==> e in ys && e != ys[0] {
      FirstOnce(ys, e);
    }
    forall e ensures e in xs <==> e in ys {
      assert e in Contents(xs) <==> e in Contents(ys);
    }
  }

  lemma FirstOnce(xs: seq<Entry>, e: Entry)
    requires Sorted(xs) && xs != []
    ensures e in xs[1..] <==> e in xs && e != xs[0]
  {
    if e in xs[1..] {
      var i :| 0 <= i < |xs| - 1 && xs[1..][i] == e;
      assert Less(xs[0].ik, xs[i + 1].ik);
      LessIsTotalOrder(xs[0].ik, xs[0].ik, xs[0].ik);
    }
    assert xs == [xs[0]] + xs[1..];
  }

  /** Levels 0 to 2 are empty and level 3 is small: a flushed memtable goes to level 2. */
  lemma GoesToLevel2(levels: seq<seq<File>>, run: seq<Entry>, next: nat, levels': seq<seq<File>>) returns (f: File)
    requires |levels| == NUM_LEVELS && levels[0] == levels[1] == levels[2] == [] && run != []
    requires WroteTable(levels, run, true, 100, 1, next, levels')
    requires forall lo, hi :: TotalFileSize(Overlapping(levels[3], lo, hi)) <= 100
    ensures IsTableOf(f, run, next, 1) && levels' == levels[2 := [f]]
  {
    hide TotalFileSize, Overlapping;
    var level: nat, g: File :| IsTableOf(g, run, next, 1) && Added(levels, level, g, levels')
      && IsPickedLevel(levels, g.smallest.key, g.largest.key, 100, level);
    f := g;
    var lo, hi := f.smallest.key, f.largest.key;
    NothingOverlaps(lo, hi);
    assert MayDescend(levels, 0, lo, hi, 100) && MayDescend(levels, 1, lo, hi, 100);
    assert level == 2;
    hide IsPickedLevel, MayDescend, IsTableOf;
    OnlyFile(levels'[2], f);
    forall l | 0 <= l < NUM_LEVELS ensures levels'[l] == levels[2 := [f]][l] {
    }
  }

  lemma NothingOverlaps(lo: UserKey, hi: UserKey)
    ensures NoneOverlap([], lo, hi) && TotalFileSize(Overlapping([], Some(lo), Some(hi))) == 0
  {
  }

  lemma OnlyFile(files: seq<File>, f: File)
    requires SortedBySmallest(files) && forall g :: g in files <==> g == f
    ensures files == [f]
  {
    assert files == [] ==> f !in files;
    assert files[0] in files;
    if |files| > 1 {
      assert files[1] in files && BySmallest(files[0], files[1]);
      LessIsTotalOrder(f.smallest, f.smallest, f.smallest);
    }
  }

  /** The memtable becomes a file at level 2. */
  lemma OneFlush(a: State, b: State, c: State, n: nat, mem: set<Entry>, run: seq<Entry>, levels: seq<seq<File>>, snapshots: seq<Snapshot>)
    returns (f: File)
    requires n <= 4 && Phase(a, n, mem, levels, snapshots) && Sorted(run) && Contents(run) == mem && run != []
    requires |levels| == NUM_LEVELS && levels[0] == levels[1] == levels[2] == []
    requires forall lo, hi :: TotalFileSize(Overlapping(levels[3], lo, hi)) <= 100
    requires MadeRoom(a, true, false, b) && Flushed(b, 100, 1, c)
    ensures WellFormed(f) && f.run == run && f.size == 1 && Phase(c, n, {}, levels[2 := [f]], snapshots)
  {
    SortedRunUnique(a.mem, run);
    assert b.imm == Some(run) && b.levels == levels;
    f := GoesToLevel2(levels, run, b.nextFileNumber, c.levels);
    assert Contents([]) == {} && Sorted([]);
    hide WellFormed, WroteTable, Sorted, Contents, TotalFileSize, Overlapping;
  }

  // ------------------------------------------------------------------- the manual compaction

  const RUN := [FIRST, MARKER, VALUE]

  lemma RunIs()
    ensures Sorted(RUN) && Contents(RUN) == {FIRST, VALUE, MARKER}
  {
  }

  lemma FirstFile(files: seq<File>)
    ensures files == [] || files[0] in files
  {
  }

  lemma OneFileEntries(f: File)
    ensures LevelEntries([f]) == Contents(f.run) && LevelEntries([]) == {}
  {
    assert f in [f];
  }

  /** The inputs of a compaction from a level with one file. */
  lemma OneInput(levels: seq<seq<File>>, c: Compaction, f: File)
    requires GoodInputs(levels, c) && c.level == 2 && levels[2] == [f] && WellFormed(f) && ExactHull(c)
    ensures c.inputs0 == [f] && c.smallest == f.smallest && c.largest == f.largest
    ensures c.inputs1 == Overlapping(levels[3], Some(f.smallest.key), Some(f.largest.key))
  {
    forall g | g in c.inputs0 ensures g == f {
      assert g in levels[2];
    }
    OnlyInput(c.inputs0, f);
  }

  /** At the snapshot nothing may be dropped. */
  lemma NothingDropped(levels: seq<seq<File>>, e: Entry)
    requires e == FIRST || e == MARKER || e == VALUE
    ensures !Dropped(levels, 2, Contents(RUN), 2, e)
  {
    RunIs();
  }

  lemma Pieces(levels: seq<seq<File>>)
    ensures Cutting(levels, 2, Contents(RUN), 2, Cut(), RUN).Closed().outputs == [[FIRST, MARKER], [VALUE]]
  {
    var all, plan := Contents(RUN), Cut();
    NothingDropped(levels, FIRST);
    NothingDropped(levels, MARKER);
    NothingDropped(levels, VALUE);
    CuttingNext(levels, 2, all, 2, plan, RUN, 0);
    CuttingNext(levels, 2, all, 2, plan, RUN, 1);
    CuttingNext(levels, 2, all, 2, plan, RUN, 2);
    assert RUN[..0] == [] && RUN[..3] == RUN;
    hide Dropped, Contents;
    assert Cutting(levels, 2, all, 2, plan, []) == Building([], []);
    hide Cutting;
    assert Placed(Building([], []), FIRST, false, plan) == Building([], [FIRST]);
    assert Placed(Building([], [FIRST]), MARKER, false, plan) == Building([[FIRST, MARKER]], []) by {
      assert [FIRST] + [MARKER] == [FIRST, MARKER];
    }
    assert Placed(Building([[FIRST, MARKER]], []), VALUE, false, plan) == Building([[FIRST, MARKER]], [VALUE]);
    assert [[FIRST, MARKER]] + [[VALUE]] == [[FIRST, MARKER], [VALUE]];
  }

  lemma OutputsAre(levels: seq<seq<File>>, c: Compaction, next: nat, outputs: seq<File>)
    requires OutputsFollow(levels, c, 2, Cut(), next, outputs) && InputEntries(c) == Contents(RUN) && c.level == 2 && AllWellFormed(outputs)
    ensures |outputs| == 2 && outputs[0].run == [FIRST, MARKER] && outputs[1].run == [VALUE]
    ensures outputs[0].size == outputs[1].size == 1 && WellFormed(outputs[0]) && WellFormed(outputs[1])
  {
    hide Cutting, Dropped, WellFormed;
    var input :| Sorted(input) && Contents(input) == InputEntries(c)
      && HoldPieces(outputs, Cutting(levels, c.level, Contents(input), 2, Cut(), input).Closed().outputs, next, Cut().size);
    RunIs();
    SortedRunUnique(input, RUN);
    Pieces(levels);
  }

  const EMPTY: seq<seq<File>> := [[], [], [], [], [], [], []]

  lemma SevenEmpty()
    ensures |EMPTY| == 7
  {
  }

  lemma SplitFiles(levels: seq<seq<File>>, c: Compaction, outputs: seq<File>, levels': seq<seq<File>>, f: File)
    requires levels == EMPTY[2 := [f]] && c.level == 2 && c.inputs0 == [f] && c.inputs1 == [] && Replaced(levels, c, outputs, levels')
    requires |outputs| == 2 && outputs[0].run == [FIRST, MARKER] && outputs[1].run == [VALUE] && WellFormed(outputs[0]) && WellFormed(outputs[1])
    ensures levels' == EMPTY[3 := outputs]
  {
    assert outputs == [outputs[0], outputs[1]];
    assert SortedBySmallest(outputs);
    forall g ensures g in levels'[3] <==> g in outputs {
    }
    Builder.SortedListUnique(levels'[3], outputs);
    FirstFile(levels'[2]);
  }

  lemma ManualParts(a: State, pick: Option<Pick>, b: State, f: File)
    requires CompactedManually(a, 2, None, None, 0, 0, Cut(), pick, b) && |a.levels| == NUM_LEVELS && a.levels[2] == [f]
    ensures pick.Some?
    ensures var c, outputs := pick.value.c, pick.value.outputs;
            && c.level == 2 && ExactHull(c) && GoodInputs(a.levels, c) && Replaced(a.levels, c, outputs, b.levels)
            && OutputsFollow(a.levels, c, SmallestSnapshot(a.snapshots, a.lastSequence), Cut(), a.nextFileNumber, outputs) && AllWellFormed(outputs)
            && b == a.(levels := b.levels, nextFileNumber := b.nextFileNumber, manifest := b.manifest, intact := b.intact)
  {
    hide OutputsFollow, GoodInputs, Replaced, ExactHull, ExposesNothing, AllWellFormed, Survivors;
    assert f in a.levels[2] && Overlaps(f, None, None);
  }

  /** The manual compaction splits key 2 across two files of level 3. */
  lemma ManualSplits(a: State, pick: Option<Pick>, b: State, f: File) returns (x: File, y: File)
    requires Phase(a, 3, {}, EMPTY[2 := [f]], [Snapshot(0, 2)]) && WellFormed(f) && f.run == RUN
    requires CompactedManually(a, 2, None, None, 0, 0, Cut(), pick, b)
    ensures WellFormed(x) && WellFormed(y) && x.run == [FIRST, MARKER] && y.run == [VALUE] && x.size == y.size == 1
    ensures Phase(b, 3, {}, EMPTY[3 := [x, y]], [Snapshot(0, 2)])
  {
    hide *;
    SevenEmpty();
    PhaseParts(a, 3, {}, EMPTY[2 := [f]], [Snapshot(0, 2)]);
    AtFirst(a.levels, f);
    ManualParts(a, pick, b, f);
    var c, outputs := pick.value.c, pick.value.outputs;
    OneInput(a.levels, c, f);
    NoneOverlapping0(Some(f.smallest.key), Some(f.largest.key));
    InputsTogether(c, f);
    OutputsAre(a.levels, c, a.nextFileNumber, outputs);
    SplitFiles(a.levels, c, outputs, b.levels, f);
    x, y := outputs[0], outputs[1];
    assert outputs == [x, y];
    OnlyFilesChange(a, b, 3, {}, EMPTY[2 := [f]], [Snapshot(0, 2)]);
  }

  lemma AtFirst(levels: seq<seq<File>>, f: File)
    requires levels == EMPTY[2 := [f]]
    ensures |levels| == NUM_LEVELS && levels[2] == [f] && levels[3] == [] && SmallestSnapshot([Snapshot(0, 2)], 3) == 2
  {
  }

  lemma OnlyFilesChange(a: State, b: State, n: nat, mem: set<Entry>, levels: seq<seq<File>>, snapshots: seq<Snapshot>)
    requires n <= 4 && Phase(a, n, mem, levels, snapshots)
    requires b == a.(levels := b.levels, nextFileNumber := b.nextFileNumber, manifest := b.manifest, intact := b.intact)
    ensures Phase(b, n, mem, b.levels, snapshots)
  {
    hide Sorted, Contents;
  }

  lemma NoneOverlapping0(lo: Option<UserKey>, hi: Option<UserKey>)
    ensures Overlapping([], lo, hi) == []
  {
  }

  lemma InputsTogether(c: Compaction, f: File)
    requires c.inputs0 == [f] && c.inputs1 == []
    ensures InputEntries(c) == Contents(f.run)
  {
    OneFileEntries(f);
    hide LevelEntries;
  }

  // ---------------------------------------------------------------- the automatic compaction

  const BOTH := [FIRST, MARKER]

  lemma RangesOf(f: File, x: File, y: File)
    requires WellFormed(f) && WellFormed(x) && WellFormed(y) && f.run == [AGAIN] && x.run == BOTH && y.run == [VALUE]
    ensures f.smallest.key == f.largest.key == 1.0 && x.smallest.key == 1.0 && x.largest.key == 2.0 && y.smallest.key == y.largest.key == 2.0
    ensures x != y && Overlaps(x, Some(1.0), Some(1.0)) && !Overlaps(y, Some(1.0), Some(1.0))
  {
  }

  lemma TwoFileEntries(f: File, e: Entry, files: seq<File>)
    requires f in files && e in f.run
    ensures e in LevelEntries(files)
  {
  }

  /** The inputs of the last compaction: the file with the marker, not the one with the value. */
  lemma LastInputs(levels: seq<seq<File>>, c: Compaction, f: File, x: File, y: File)
    requires WellFormed(f) && WellFormed(x) && WellFormed(y) && f.run == [AGAIN] && x.run == BOTH && y.run == [VALUE]
    requires levels == EMPTY[2 := [f]][3 := [x, y]] && GoodInputs(levels, c) && c.level == 2 && ExactHull(c)
    ensures c.inputs0 == [f] && (forall g :: g in c.inputs1 <==> g == x)
    ensures forall e :: e in InputEntries(c) <==> e == AGAIN || e == FIRST || e == MARKER
  {
    OneInput(levels, c, f);
    RangesOf(f, x, y);
    hide WellFormed, GoodInputs, ExactHull;
    OneFileEntries(f);
    OneFileEntries(x);
    forall g ensures g in c.inputs1 <==> g == x {
      assert g in levels[3] <==> g == x || g == y;
    }
    forall e ensures e in LevelEntries(c.inputs1) <==> e in LevelEntries([x]) {
      SameFiles(c.inputs1, [x], e);
    }
  }

  lemma SameFiles(xs: seq<File>, ys: seq<File>, e: Entry)
    requires forall g :: g in xs <==> g in ys
    ensures e in LevelEntries(xs) <==> e in LevelEntries(ys)
  {
  }

  lemma MarkerDropped(levels: seq<seq<File>>, all: set<Entry>, x: seq<File>, y: seq<File>)
    requires levels == EMPTY[2 := x][3 := y]
    ensures Dropped(levels, 2, all, 4, MARKER)
  {
    assert BaseLevel(levels, 2, 2.0);
  }

  lemma FilesLeft(levels: seq<seq<File>>, c: Compaction, outputs: seq<File>, levels': seq<seq<File>>, f: File, x: File, y: File)
    requires levels == EMPTY[2 := [f]][3 := [x, y]] && x != y && c.level == 2 && c.inputs0 == [f] && (forall g :: g in c.inputs1 <==> g == x)
    requires Replaced(levels, c, outputs, levels')
    ensures |levels'| == NUM_LEVELS && forall l :: 0 <= l < NUM_LEVELS && l != 3 ==> levels'[l] == []
    ensures forall g :: g in levels'[3] <==> g == y || g in outputs
  {
    FirstFile(levels'[2]);
    var old3 := levels[3];
    assert old3 == [x, y] && old3[1] == y;
    assert y in old3 && y !in c.inputs1;
    forall g ensures g in levels'[3] <==> g == y || g in outputs {
      assert g in old3 <==> g == x || g == y;
      assert g in levels'[3] <==> (g in old3 && g !in c.inputs1) || g in outputs;
    }
  }

  lemma OneLevelLeft(levels: seq<seq<File>>, e: Entry)
    requires |levels| == NUM_LEVELS && forall l :: 0 <= l < NUM_LEVELS && l != 3 ==> levels[l] == []
    ensures e in AllEntries(levels) <==> e in LevelEntries(levels[3])
  {
    assert LevelEntries([]) == {};
    hide LevelEntries;
    assert e in LevelEntries(levels[3]) ==> e in AllEntries(levels);
  }

  lemma FileOrOutputs(files: seq<File>, y: File, outputs: seq<File>, e: Entry)
    requires forall g :: g in files <==> g == y || g in outputs
    ensures e in LevelEntries(files) <==> e in y.run || e in LevelEntries(outputs)
  {
    if e in y.run {
      TwoFileEntries(y, e, files);
    }
    if e in LevelEntries(outputs) {
      var g :| g in outputs && e in g.run;
      TwoFileEntries(g, e, files);
    }
  }

  /** Whatever the last compaction keeps of key 2 is the value in the file it left alone. */
  lemma ValueLeft(levels: seq<seq<File>>, c: Compaction, outputs: seq<File>, levels': seq<seq<File>>, f: File, x: File, y: File)
    requires WellFormed(f) && WellFormed(x) && WellFormed(y) && f.run == [AGAIN] && x.run == BOTH && y.run == [VALUE]
    requires levels == EMPTY[2 := [f]][3 := [x, y]] && GoodInputs(levels, c) && c.level == 2 && ExactHull(c)
    requires Replaced(levels, c, outputs, levels') && Survivors(levels, c, 4, outputs)
    ensures VALUE in AllEntries(levels') && forall e :: e in AllEntries(levels') && e.ik.key == 2.0 ==> e == VALUE
  {
    LastInputs(levels, c, f, x, y);
    RangesOf(f, x, y);
    MarkerDropped(levels, InputEntries(c), [f], [x, y]);
    hide WellFormed, GoodInputs, ExactHull, Dropped, InputEntries, Overlaps, Replaced, LevelEntries, AllEntries;
    FilesLeft(levels, c, outputs, levels', f, x, y);
    forall e ensures e in AllEntries(levels') <==> e == VALUE || e in LevelEntries(outputs) {
      OneLevelLeft(levels', e);
      FileOrOutputs(levels'[3], y, outputs, e);
    }
  }

  ghost function StoreOf(st: State): set<Entry> {
    Contents(st.mem) + (Contents(if st.imm.Some? then st.imm.value else []) + AllEntries(st.levels))
  }

  lemma AutomaticParts(a: State, pick: Option<Pick>, b: State)
    requires CompactedAutomatically(a, 2, AfterPointer(Some(VALUE.ik)), 0, 100, Cut(), pick, b) && |a.levels| == NUM_LEVELS && a.levels[2] != []
    ensures pick.Some?
    ensures var c, outputs := pick.value.c, pick.value.outputs;
            && c.level == 2 && ExactHull(c) && GoodInputs(a.levels, c) && Replaced(a.levels, c, outputs, b.levels)
            && (c.inputs1 != [] ==> Survivors(a.levels, c, SmallestSnapshot(a.snapshots, a.lastSequence), outputs))
            && b == a.(levels := b.levels, nextFileNumber := b.nextFileNumber, manifest := b.manifest, intact := b.intact)
  {
    hide OutputsFollow, GoodInputs, Replaced, ExactHull, ExposesNothing, AllWellFormed, Survivors, PickedFrom, Overlapping;
  }

  /** The last compaction, and the read after it. */
  lemma AutomaticExposes(a: State, pick: Option<Pick>, b: State, f: File, x: File, y: File)
    requires Phase(a, 4, {}, EMPTY[2 := [f]][3 := [x, y]], []) && StateOk(b)
    requires WellFormed(f) && WellFormed(x) && WellFormed(y) && f.run == [AGAIN] && x.run == BOTH && y.run == [VALUE]
    requires CompactedAutomatically(a, 2, AfterPointer(Some(VALUE.ik)), 0, 100, Cut(), pick, b)
    ensures b.lastSequence == 4 && b.committed == WRITERS && b.snapshots == [] && Read(StoreOf(b), 2.0, 4) == Some([7])
  {
    hide *;
    SevenEmpty();
    PhaseParts(a, 4, {}, EMPTY[2 := [f]][3 := [x, y]], []);
    AtTheEnd(a.levels, f, x, y);
    AutomaticParts(a, pick, b);
    StateFiles(b);
    var c, outputs := pick.value.c, pick.value.outputs;
    LastInputs(a.levels, c, f, x, y);
    assert x in c.inputs1;
    ValueLeft(a.levels, c, outputs, b.levels, f, x, y);
    ReadsValue(b);
  }

  lemma AtTheEnd(levels: seq<seq<File>>, f: File, x: File, y: File)
    requires levels == EMPTY[2 := [f]][3 := [x, y]]
    ensures WRITERS[..4] == WRITERS && |levels| == NUM_LEVELS && levels[2] == [f] && SmallestSnapshot([], 4) == 4
  {
  }

  lemma PhaseParts(st: State, n: nat, mem: set<Entry>, levels: seq<seq<File>>, snapshots: seq<Snapshot>)
    requires n <= 4 && Phase(st, n, mem, levels, snapshots)
    ensures st.levels == levels && st.snapshots == snapshots && st.lastSequence == n && st.committed == WRITERS[..n]
    ensures Contents(st.mem) == mem && st.imm == None
  {
    hide Sorted, Contents;
  }

  lemma ReadsValue(b: State)
    requires Inv(b.levels) && Contents(b.mem) == {} && b.imm == None
    requires VALUE in AllEntries(b.levels) && forall e :: e in AllEntries(b.levels) && e.ik.key == 2.0 ==> e == VALUE
    ensures Read(StoreOf(b), 2.0, 4) == Some([7])
  {
    hide FilesOk, NumberOrdered, UniqueNumbers, Recency, AllEntries;
    assert Contents([]) == {};
    assert StoreOf(b) == AllEntries(b.levels);
    assert IsVisible(AllEntries(b.levels), 2.0, 4, VALUE);
    ReadVisible(AllEntries(b.levels), 2.0, 4, VALUE);
  }

  // ----------------------------------------------------------------------------- the whole run

  lemma StepIs(trace: seq<State>, picks: seq<Option<Pick>>, i: nat, step: Step)
    requires IsRun(Steps(), trace, picks) && i < |Steps()| && Steps()[i] == step
    ensures |trace| == |Steps()| + 1 && |picks| == |Steps()| && StepRel(trace[i], step, picks[i], trace[i + 1]) && StateOk(trace[i + 1])
  {
    hide *;
    RunStep(Steps(), trace, picks, i);
    RunLength(Steps(), trace, picks, i + 1);
  }

  lemma RelOf(a: State, step: Step, pick: Option<Pick>, b: State)
    requires StepRel(a, step, pick, b)
    ensures step.Arrive? ==> Arrived(a, step.w, b)
    ensures step.MakeRoom? ==> MadeRoom(a, step.force, step.full, b)
    ensures step.Begin? ==> Began(a, b)
    ensures step.Insert? ==> Inserted(a, b)
    ensures step.Publish? ==> Published(a, b)
    ensures step.FlushMemTable? ==> Flushed(a, step.maxOverlap, step.size, b)
    ensures step.ManualCompaction? ==> CompactedManually(a, step.level, step.begin, step.end, step.limit, step.expandedLimit, step.plan, pick, b)
    ensures step.AutomaticCompaction? ==> CompactedAutomatically(a, step.level, step.start, step.expandedLimit, step.maxOverlap, step.plan, pick, b)
    ensures step.TakeSnapshot? ==> b == a.(snapshots := a.snapshots + [Snapshot(step.id, a.lastSequence)])
    ensures step.DropSnapshot? ==> SnapshotDropped(a, step.index, b)
  {
    hide Arrived, MadeRoom, Began, Inserted, Published, Flushed, Trimmed, CompactedAutomatically, CompactedManually, SnapshotDropped, Crashed;
  }

  /** The `n`th write, four steps from step `i` on. */
  lemma WriteAt(trace: seq<State>, picks: seq<Option<Pick>>, i: nat, n: nat, mem: set<Entry>, levels: seq<seq<File>>, snapshots: seq<Snapshot>)
    requires IsRun(Steps(), trace, picks) && n < 4 && i + 4 <= |Steps()| && Steps()[i..i + 4] == WriteSteps(n)
    requires |trace| == |Steps()| + 1 && Phase(trace[i], n, mem, levels, snapshots)
    ensures Phase(trace[i + 4], n + 1, mem + {Written(n)}, levels, snapshots)
  {
    FourSteps(i, n);
    hide *;
    StepIs(trace, picks, i, Arrive(Writes(n)));
    RelOf(trace[i], Arrive(Writes(n)), picks[i], trace[i + 1]);
    StepIs(trace, picks, i + 1, Begin);
    RelOf(trace[i + 1], Begin, picks[i + 1], trace[i + 2]);
    StepIs(trace, picks, i + 2, Insert);
    RelOf(trace[i + 2], Insert, picks[i + 2], trace[i + 3]);
    StepIs(trace, picks, i + 3, Publish);
    RelOf(trace[i + 3], Publish, picks[i + 3], trace[i + 4]);
    OneWrite(trace[i], trace[i + 1], trace[i + 2], trace[i + 3], trace[i + 4], n, mem, levels, snapshots);
  }

  lemma FourSteps(i: nat, n: nat)
    requires n < 4 && i + 4 <= |Steps()| && Steps()[i..i + 4] == WriteSteps(n)
    ensures Steps()[i] == Arrive(Writes(n)) && Steps()[i + 1] == Begin && Steps()[i + 2] == Insert && Steps()[i + 3] == Publish
  {
    hide Steps;
    var part := Steps()[i..i + 4];
    assert part[0] == Steps()[i] && part[1] == Steps()[i + 1] && part[2] == Steps()[i + 2] && part[3] == Steps()[i + 3];
  }

  lemma FlushAt(trace: seq<State>, picks: seq<Option<Pick>>, i: nat, n: nat, mem: set<Entry>, run: seq<Entry>, levels: seq<seq<File>>, snapshots: seq<Snapshot>)
    returns (f: File)
    requires IsRun(Steps(), trace, picks) && n <= 4 && i + 2 <= |Steps()| && Steps()[i] == FLUSH[0] && Steps()[i + 1] == FLUSH[1]
    requires |trace| == |Steps()| + 1 && Phase(trace[i], n, mem, levels, snapshots) && Sorted(run) && Contents(run) == mem && run != []
    requires |levels| == NUM_LEVELS && levels[0] == levels[1] == levels[2] == []
    requires forall lo, hi :: TotalFileSize(Overlapping(levels[3], lo, hi)) <= 100
    ensures WellFormed(f) && f.run == run && f.size == 1 && Phase(trace[i + 2], n, {}, levels[2 := [f]], snapshots)
  {
    assert FLUSH[0] == MakeRoom(true, false) && FLUSH[1] == FlushMemTable(100, 1);
    hide *;
    StepIs(trace, picks, i, MakeRoom(true, false));
    RelOf(trace[i], MakeRoom(true, false), picks[i], trace[i + 1]);
    StepIs(trace, picks, i + 1, FlushMemTable(100, 1));
    RelOf(trace[i + 1], FlushMemTable(100, 1), picks[i + 1], trace[i + 2]);
    f := OneFlush(trace[i], trace[i + 1], trace[i + 2], n, mem, run, levels, snapshots);
  }

  /** Where each part of the run starts. */
  lemma Positions()
    ensures |Steps()| == 24
    ensures Steps()[0..4] == WriteSteps(0) && Steps()[4..8] == WriteSteps(1) && Steps()[8] == TakeSnapshot(0) && Steps()[9..13] == WriteSteps(2)
    ensures Steps()[13] == FLUSH[0] && Steps()[14] == FLUSH[1]
    ensures Steps()[15] == ManualCompaction(2, None, None, 0, 0, Cut()) && Steps()[16] == DropSnapshot(0) && Steps()[17..21] == WriteSteps(3)
    ensures Steps()[21] == FLUSH[0] && Steps()[22] == FLUSH[1] && Steps()[23] == AutomaticCompaction(2, AfterPointer(Some(VALUE.ik)), 0, 100, Cut())
  {
  }

  lemma TotalSnoc(files: seq<File>, f: File)
    ensures TotalFileSize(files + [f]) == TotalFileSize(files) + f.size && TotalFileSize([]) == 0
  {
    assert (files + [f])[..|files|] == files;
  }

  lemma OverlapSnoc(files: seq<File>, f: File, lo: Option<UserKey>, hi: Option<UserKey>)
    ensures Overlapping(files + [f], lo, hi) == Overlapping(files, lo, hi) || Overlapping(files + [f], lo, hi) == Overlapping(files, lo, hi) + [f]
    ensures Overlapping([], lo, hi) == []
  {
    assert (files + [f])[..|files|] == files;
    hide Overlaps;
  }

  lemma TwoOverlaps(x: File, y: File, lo: Option<UserKey>, hi: Option<UserKey>)
    ensures TotalFileSize(Overlapping([x, y], lo, hi)) <= x.size + y.size
  {
    hide *;
    OverlapSnoc([], x, lo, hi);
    OverlapSnoc([x], y, lo, hi);
    assert [] + [x] == [x] && [x] + [y] == [x, y];
    TotalSnoc([], x);
    TotalSnoc([], y);
    TotalSnoc([x], y);
    assert [] + [y] == [y];
  }

  lemma SmallLevels(x: File, y: File)
    requires x.size == y.size == 1
    ensures forall lo, hi :: TotalFileSize(Overlapping([], lo, hi)) <= 100
    ensures forall lo, hi :: TotalFileSize(Overlapping([x, y], lo, hi)) <= 100
  {
    forall lo, hi ensures TotalFileSize(Overlapping([x, y], lo, hi)) <= 100 {
      TwoOverlaps(x, y, lo, hi);
    }
  }

  lemma AtStart(st: State)
    requires st == InitialState()
    ensures Phase(st, 0, {}, EMPTY, [])
  {
    assert seq(NUM_LEVELS, _ => []) == EMPTY;
    assert OPS[..0] == [] && WRITERS[..0] == [];
  }

  lemma StartOf(trace: seq<State>, picks: seq<Option<Pick>>)
    requires IsRun(Steps(), trace, picks)
    ensures |trace| == 25 && |picks| == 24 && trace[0] == InitialState()
  {
    Positions();
    hide StepRel, StateOk, Steps;
  }

  lemma WithSnapshot(a: State, b: State, mem: set<Entry>, levels: seq<seq<File>>)
    requires Phase(a, 2, mem, levels, []) && b == a.(snapshots := a.snapshots + [Snapshot(0, a.lastSequence)])
    ensures Phase(b, 2, mem, levels, [Snapshot(0, 2)])
  {
    hide Sorted, Contents;
  }

  lemma WithoutSnapshot(a: State, b: State, levels: seq<seq<File>>)
    requires Phase(a, 3, {}, levels, [Snapshot(0, 2)]) && SnapshotDropped(a, 0, b)
    ensures Phase(b, 3, {}, levels, [])
  {
    hide Sorted, Contents;
  }

  lemma Collected()
    ensures {} + {Written(0)} + {Written(1)} + {Written(2)} == Contents(RUN) && Sorted(RUN) && RUN != []
    ensures {} + {Written(3)} == Contents([AGAIN]) && Sorted([AGAIN])
  {
    RunIs();
  }

  lemma EmptyAtFirst()
    ensures |EMPTY| == NUM_LEVELS == 7 && EMPTY[0] == EMPTY[1] == EMPTY[2] == EMPTY[3] == []
  {
  }

  lemma EmptyBut3(x: File, y: File, levels: seq<seq<File>>)
    requires |EMPTY| == 7 && levels == EMPTY[3 := [x, y]]
    ensures |levels| == NUM_LEVELS && levels[0] == levels[1] == levels[2] == [] && levels[3] == [x, y]
    ensures forall f :: levels[2 := [f]] == EMPTY[2 := [f]][3 := [x, y]]
  {
  }

  lemma NoOverlap()
    ensures forall lo, hi :: TotalFileSize(Overlapping([], lo, hi)) <= 100
  {
  }

  /** Up to the first flush. */
  lemma FirstHalf(trace: seq<State>, picks: seq<Option<Pick>>) returns (f: File)
    requires IsRun(Steps(), trace, picks)
    ensures |trace| == 25 && WellFormed(f) && f.run == RUN && |EMPTY| == 7 && Phase(trace[15], 3, {}, EMPTY[2 := [f]], [Snapshot(0, 2)])
  {
    hide *;
    Positions();
    StartOf(trace, picks);
    AtStart(trace[0]);
    SevenEmpty();
    WriteAt(trace, picks, 0, 0, {}, EMPTY, []);
    WriteAt(trace, picks, 4, 1, {} + {Written(0)}, EMPTY, []);
    var two := {} + {Written(0)} + {Written(1)};
    StepIs(trace, picks, 8, TakeSnapshot(0));
    RelOf(trace[8], TakeSnapshot(0), picks[8], trace[9]);
    WithSnapshot(trace[8], trace[9], two, EMPTY);
    WriteAt(trace, picks, 9, 2, two, EMPTY, [Snapshot(0, 2)]);
    Collected();
    NoOverlap();
    EmptyAtFirst();
    f := FlushAt(trace, picks, 13, 3, Contents(RUN), RUN, EMPTY, [Snapshot(0, 2)]);
  }

  /** Up to the last compaction. */
  lemma SecondHalf(trace: seq<State>, picks: seq<Option<Pick>>) returns (f: File, x: File, y: File)
    requires IsRun(Steps(), trace, picks)
    ensures |trace| == 25 && |EMPTY| == 7 && Phase(trace[23], 4, {}, EMPTY[2 := [f]][3 := [x, y]], [])
    ensures WellFormed(f) && WellFormed(x) && WellFormed(y) && f.run == [AGAIN] && x.run == [FIRST, MARKER] && y.run == [VALUE]
  {
    hide *;
    Positions();
    StartOf(trace, picks);
    SevenEmpty();
    var g := FirstHalf(trace, picks);
    StepIs(trace, picks, 15, ManualCompaction(2, None, None, 0, 0, Cut()));
    RelOf(trace[15], ManualCompaction(2, None, None, 0, 0, Cut()), picks[15], trace[16]);
    x, y := ManualSplits(trace[15], picks[15], trace[16], g);
    var levels := EMPTY[3 := [x, y]];
    StepIs(trace, picks, 16, DropSnapshot(0));
    RelOf(trace[16], DropSnapshot(0), picks[16], trace[17]);
    WithoutSnapshot(trace[16], trace[17], levels);
    WriteAt(trace, picks, 17, 3, {}, levels, []);
    Collected();
    SmallLevels(x, y);
    EmptyBut3(x, y, levels);
    f := FlushAt(trace, picks, 21, 4, Contents([AGAIN]), [AGAIN], levels, []);
  }

  /** What the acknowledged batches leave: key 2 was deleted. */
  lemma DeletedIsDeleted()
    ensures BatchOps(WRITERS) == OPS && Lookup(Replay(OPS), 2.0) == None
  {
    assert WRITERS[..4] == WRITERS && WRITERS[..0] == [] && BatchOps([]) == [];
    BatchOpsStep(WRITERS, 0);
    BatchOpsStep(WRITERS, 1);
    BatchOpsStep(WRITERS, 2);
    BatchOpsStep(WRITERS, 3);
    hide BatchOps;
    assert [OPS[0]] + [OPS[1]] + [OPS[2]] + [OPS[3]] == OPS;
    KeyTwo();
  }

  lemma KeyTwo()
    ensures 2.0 !in Replay(OPS)
  {
    var ops := OPS;
    assert ops[..4] == ops && ops[..3][2] == OPS[2];
    assert ops[..3][..2] == ops[..2];
    assert 2.0 !in Replay(ops[..3]);
  }

  /** Every run of these steps ends with the deleted value back: a read of key 2 returns it, although the last thing
      that was acknowledged about key 2 is its deletion, and some compaction of the run exposed a key. */
  lemma EveryRunLosesIt(trace: seq<State>, picks: seq<Option<Pick>>)
    requires IsRun(Steps(), trace, picks)
    ensures |trace| == 25
    ensures trace[24].lastSequence == 4 && trace[24].committed == WRITERS && trace[24].snapshots == [] && Read(StoreOf(trace[24]), 2.0, 4) == Some([7])
  {
    hide *;
    Positions();
    StartOf(trace, picks);
    SevenEmpty();
    var f, x, y := SecondHalf(trace, picks);
    StepIs(trace, picks, 23, AutomaticCompaction(2, AfterPointer(Some(VALUE.ik)), 0, 100, Cut()));
    RelOf(trace[23], AutomaticCompaction(2, AfterPointer(Some(VALUE.ik)), 0, 100, Cut()), picks[23], trace[24]);
    BothIs();
    AutomaticExposes(trace[23], picks[23], trace[24], f, x, y);
  }

  lemma BothIs()
    ensures BOTH == [FIRST, MARKER]
  {
  }

  /** Taking these steps from an empty database, a read of a deleted key returns its old value. */
  method ReadDeletedKey() returns (db: DBImpl, r: Option<Bytes>, ghost trace: seq<State>, ghost picks: seq<Option<Pick>>)
    ensures db.Valid() && IsRun(Steps(), trace, picks) && |trace| == 25 && db.Now() == trace[24]
    ensures db.committed == WRITERS && Lookup(Replay(BatchOps(db.committed)), 2.0) == None && r == Some([7])
    ensures !NothingExposed(trace, picks)
  {
    hide *;
    var s;
    ghost var at;
    db, s, r, trace, picks, at := Run(Steps(), 2.0, 0);
    Positions();
    EveryRunLosesIt(trace, picks);
    NowIs(db);
    StoreSame(db);
    DeletedIsDeleted();
    AllOps();
  }

  lemma AllOps()
    ensures |OPS| == 4 && OPS[..4] == OPS
  {
  }

  lemma StoreSame(db: DBImpl)
    ensures db.Store() == StoreOf(db.Now())
  {
    hide Contents, AllEntries;
  }
}
