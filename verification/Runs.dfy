/** Whole runs of the database: every sequence of steps from an empty database, crashes included. */
module Runs {
  import opened DbFormat
  import opened Reads
  import opened Version
  import opened Picking
  import opened Setup
  import opened MemTable
  import opened Flush
  import opened WriteGroups
  import opened DbState
  import opened CompactionWork
  import opened CompactionReads
  import CompactionInput
  import opened CompactionRun
  import opened Db

  /** Where an automatic compaction starts: after the level's compaction pointer, or at the file that was
      sought in vain too often. */
  datatype Start = AfterPointer(pointer: Option<InternalKey>) | Seek(index: nat)

  /** Everything that can happen to a database. */
  datatype Step =
    | Arrive(w: Writer)
    | MakeRoom(force: bool, full: bool)
    | Begin
    | Insert
    | Publish
    | FlushMemTable(maxOverlap: nat, size: nat)
    | DeleteObsolete
    | AutomaticCompaction(level: nat, start: Start, expandedLimit: nat, maxOverlap: nat, plan: Plan)
    | ManualCompaction(level: nat, begin: Option<UserKey>, end: Option<UserKey>, limit: nat, expandedLimit: nat, plan: Plan)
    | TakeSnapshot(id: nat)
    | DropSnapshot(index: nat)
    | Crash(keepInFlight: bool)

  /** What a compaction chose to merge or move, and the files it left. */
  datatype Pick = Pick(c: Compaction, outputs: seq<File>)

  // ----------------------------------------------------------------------------- one step

  ghost predicate Arrived(pre: State, w: Writer, post: State) {
    post == pre.(writers := pre.writers + [w], enqueued := pre.enqueued + [w])
  }

  ghost predicate MadeRoom(pre: State, force: bool, full: bool, post: State) {
    if pre.write.Idle? && (force || full) && pre.imm.None? && |pre.levels| == NUM_LEVELS && |pre.levels[0]| < L0_STOP_WRITES_TRIGGER
    then post == pre.(imm := Some(pre.mem), mem := [], memStart := |pre.hist|, logs := pre.logs[pre.nextFileNumber := []],
                      logfileNumber := pre.nextFileNumber, nextFileNumber := pre.nextFileNumber + 1)
    else post == pre
  }

  /** The leader's group of `n` writers has its record in the log. */
  ghost predicate Logging(pre: State, n: nat, post: State) {
    && IsGroup(pre.writers, n) && pre.logfileNumber in pre.logs
    && var record := LogRecord(pre.lastSequence + 1, BatchOps(pre.writers[..n]));
       if pre.lastSequence + |record.ops| < MAX_SEQUENCE_NUMBER
       then post == pre.(write := Writing(record, 0, n), tmpBatch := if Several(pre.writers[..n]) then record.ops else [],
                         logs := pre.logs[pre.logfileNumber := pre.logs[pre.logfileNumber] + [record]])
       else post == pre
  }

  ghost predicate Began(pre: State, post: State) {
    if !pre.write.Idle? || pre.writers == [] then post == pre
    else if pre.writers[0].batch.None?
    then post == pre.(writers := pre.writers[1..], committed := pre.committed + [pre.writers[0]])
    else exists n: nat :: Logging(pre, n, post)
  }

  ghost predicate Inserted(pre: State, post: State) {
    if pre.write.Writing? && pre.write.applied < |pre.write.record.ops|
    then
      && post == pre.(mem := post.mem, hist := pre.hist + [pre.write.record.ops[pre.write.applied]],
                      write := pre.write.(applied := pre.write.applied + 1))
      && Sorted(post.mem) && Contents(post.mem) == Contents(pre.mem) + {EntryAt(post.hist, |pre.hist|)}
    else post == pre
  }

  ghost predicate Published(pre: State, post: State) {
    if pre.write.Writing? && pre.write.applied == |pre.write.record.ops| && pre.write.group <= |pre.writers|
    then post == pre.(write := Idle, tmpBatch := [], lastSequence := |pre.hist|, writers := pre.writers[pre.write.group..],
                      committed := pre.committed + pre.writers[..pre.write.group])
    else post == pre
  }

  ghost predicate Flushed(pre: State, maxOverlap: nat, size: nat, post: State) {
    if pre.imm.Some?
    then
      && WroteTable(pre.levels, pre.imm.value, true, maxOverlap, size, pre.nextFileNumber, post.levels)
      && post == pre.(imm := None, immStart := pre.memStart, levels := post.levels, nextFileNumber := pre.nextFileNumber + 1,
                      manifest := Manifest(post.levels, pre.logfileNumber, pre.lastSequence, pre.nextFileNumber + 1))
    else post == pre
  }

  ghost predicate Trimmed(pre: State, post: State) {
    post == pre.(logs := map n | n in pre.logs && n >= pre.manifest.logNumber :: pre.logs[n])
  }

  /** `i` is the file of the level that the compaction starts from. */
  ghost predicate StartsAt(files: seq<File>, start: Start, i: nat)
    requires i < |files|
  {
    match start
    case AfterPointer(pointer) => IsPicked(files, pointer, i)
    case Seek(index) => i == index
  }

  predicate CanStart(levels: seq<seq<File>>, level: nat, start: Start)
    requires |levels| == NUM_LEVELS
  {
    level + 1 < NUM_LEVELS && if start.Seek? then start.index < |levels[level]| else levels[level] != []
  }

  /** The compaction is the one that starting there gives. */
  ghost predicate PickedFrom(levels: seq<seq<File>>, level: nat, start: Start, expandedLimit: nat, c: Compaction)
    requires level + 1 < |levels|
  {
    exists i :: 0 <= i < |levels[level]| && StartsAt(levels[level], start, i) && IsAutomaticPick(levels, level, levels[level][i], expandedLimit, c)
  }

  ghost predicate CompactedAutomatically(pre: State, level: nat, start: Start, expandedLimit: nat, maxOverlap: nat, plan: Plan,
                                         pick: Option<Pick>, post: State)
  {
    && |pre.levels| == NUM_LEVELS && (pick.Some? <==> CanStart(pre.levels, level, start))
    && match pick
       case None => post == pre
       case Some(Pick(c, outputs)) =>
         && c.level == level && ExactHull(c) && level + 1 < NUM_LEVELS && PickedFrom(pre.levels, level, start, expandedLimit, c)
         && Compacted(pre, c, outputs, plan, IsTrivialMove(pre.levels, c, maxOverlap), post)
  }

  ghost predicate CompactedManually(pre: State, level: nat, begin: Option<UserKey>, end: Option<UserKey>, limit: nat, expandedLimit: nat,
                                    plan: Plan, pick: Option<Pick>, post: State)
  {
    && |pre.levels| == NUM_LEVELS
    && (pick.Some? <==> level + 1 < NUM_LEVELS && exists f :: f in pre.levels[level] && Overlaps(f, begin, end))
    && match pick
       case None => post == pre
       case Some(Pick(c, outputs)) =>
         && c.level == level && ExactHull(c) && level + 1 < NUM_LEVELS && IsManualPick(pre.levels, level, begin, end, limit, expandedLimit, c)
         && Compacted(pre, c, outputs, plan, false, post)
  }

  ghost predicate SnapshotDropped(pre: State, i: nat, post: State) {
    if i < |pre.snapshots| then post == pre.(snapshots := pre.snapshots[..i] + pre.snapshots[i + 1..]) else post == pre
  }

  /** The state a crash leaves: the acknowledged operations, and those of the record in flight if it survived, are all
      in files; memory is empty; the waiting writers are gone. */
  ghost predicate Crashed(pre: State, keepInFlight: bool, post: State) {
    && pre.lastSequence <= |pre.hist| && (pre.write.Writing? ==> pre.write.group <= |pre.writers|)
    && pre.logfileNumber < post.logfileNumber
    && var survived := if keepInFlight then Logged(pre.hist, pre.lastSequence, pre.write) else pre.hist[..pre.lastSequence];
       var acknowledged := if keepInFlight && pre.write.Writing? then pre.committed + pre.writers[..pre.write.group] else pre.committed;
       && AllEntries(post.levels) == AllEntries(pre.levels) + Slice(survived, pre.immStart, |survived|)
       && post == State([], None, post.levels, |survived|, post.logfileNumber + 1, [], [], Idle, [],
                        map[post.logfileNumber := []], post.logfileNumber,
                        Manifest(post.levels, post.logfileNumber, |survived|, post.logfileNumber + 1),
                        survived, acknowledged, acknowledged, |survived|, |survived|, pre.intact)
  }

  /** The step relation: what each kind of step changes, and that it changes nothing else.  A step that is not
      enabled changes nothing at all. */
  ghost predicate StepRel(pre: State, step: Step, pick: Option<Pick>, post: State) {
    && (pick.Some? ==> step.AutomaticCompaction? || step.ManualCompaction?)
    && match step
       case Arrive(w) => Arrived(pre, w, post)
       case MakeRoom(force, full) => MadeRoom(pre, force, full, post)
       case Begin => Began(pre, post)
       case Insert => Inserted(pre, post)
       case Publish => Published(pre, post)
       case FlushMemTable(maxOverlap, size) => Flushed(pre, maxOverlap, size, post)
       case DeleteObsolete => Trimmed(pre, post)
       case AutomaticCompaction(level, start, expandedLimit, maxOverlap, plan) =>
         CompactedAutomatically(pre, level, start, expandedLimit, maxOverlap, plan, pick, post)
       case ManualCompaction(level, begin, end, limit, expandedLimit, plan) =>
         CompactedManually(pre, level, begin, end, limit, expandedLimit, plan, pick, post)
       case TakeSnapshot(id) => post == pre.(snapshots := pre.snapshots + [Snapshot(id, pre.lastSequence)])
       case DropSnapshot(i) => SnapshotDropped(pre, i, post)
       case Crash(keepInFlight) => Crashed(pre, keepInFlight, post)
  }

  // --------------------------------------------------------------------- taking one step

  lemma LevelCount(db: DBImpl)
    requires db.Valid()
    ensures |db.levels| == NUM_LEVELS > 0 && Inv(db.levels)
  {
    hide *;
    Parts(db);
    FilesFacts(db.levels, db.hist, db.immStart, db.nextFileNumber);
  }

  method PerformArrive(db: DBImpl, w: Writer)
    requires db.Valid()
    modifies db`writers, db`enqueued
    ensures db.Valid() && Arrived(old(db.Now()), w, db.Now())
  {
    hide DBImpl.Valid;
    db.Enqueue(w);
  }

  lemma FoldMadeRoom(pre: State, force: bool, full: bool, post: State)
    requires |pre.levels| == NUM_LEVELS > 0
    requires pre.write.Idle? && (force || full) && pre.imm.None? && |pre.levels[0]| < L0_STOP_WRITES_TRIGGER ==>
               post == pre.(imm := Some(pre.mem), mem := [], memStart := |pre.hist|, logs := pre.logs[pre.nextFileNumber := []],
                            logfileNumber := pre.nextFileNumber, nextFileNumber := pre.nextFileNumber + 1)
    requires !(pre.write.Idle? && (force || full) && pre.imm.None? && |pre.levels[0]| < L0_STOP_WRITES_TRIGGER) ==> post == pre
    ensures MadeRoom(pre, force, full, post)
  {
  }

  method PerformMakeRoom(db: DBImpl, force: bool, full: bool)
    requires db.Valid()
    modifies db`mem, db`imm, db`logs, db`logfileNumber, db`nextFileNumber, db`memStart
    ensures db.Valid() && MadeRoom(old(db.Now()), force, full, db.Now())
  {
    hide *;
    LevelCount(db);
    ghost var pre := db.Now();
    NowIs(db);
    if db.write.Idle? {
      var _ := db.MakeRoomForWrite(force, full);
    }
    NowIs(db);
    FoldMadeRoom(pre, force, full, db.Now());
  }

  lemma FoldBegan(pre: State, n: nat, post: State)
    requires pre.write.Idle? && pre.writers != [] && pre.writers[0].batch.Some? && IsGroup(pre.writers, n) && n <= |pre.writers|
    requires pre.logfileNumber in pre.logs
    requires pre.lastSequence + |BatchOps(pre.writers[..n])| < MAX_SEQUENCE_NUMBER ==>
               && post.write == Writing(LogRecord(pre.lastSequence + 1, BatchOps(pre.writers[..n])), 0, n)
               && post.tmpBatch == (if Several(pre.writers[..n]) then BatchOps(pre.writers[..n]) else [])
               && post.logs == pre.logs[pre.logfileNumber := pre.logs[pre.logfileNumber] + [post.write.record]]
               && post == pre.(write := post.write, tmpBatch := post.tmpBatch, logs := post.logs)
    requires pre.lastSequence + |BatchOps(pre.writers[..n])| >= MAX_SEQUENCE_NUMBER ==> post == pre
    ensures Began(pre, post)
  {
    hide IsGroup, BatchOps, Several;
    assert Logging(pre, n, post);
  }

  lemma FoldBeganOtherwise(pre: State, post: State)
    requires !pre.write.Idle? || pre.writers == [] ==> post == pre
    requires pre.write.Idle? && pre.writers != [] ==> pre.writers[0].batch.None?
    requires pre.write.Idle? && pre.writers != [] ==> post == pre.(writers := pre.writers[1..], committed := pre.committed + [pre.writers[0]])
    ensures Began(pre, post)
  {
  }

  /** The leader's group, if there are sequence numbers for it. */
  method PerformBegin(db: DBImpl)
    requires db.Valid()
    modifies db`writers, db`committed, db`write, db`tmpBatch, db`logs
    ensures db.Valid() && Began(old(db.Now()), db.Now())
  {
    hide *;
    ghost var pre := db.Now();
    NowIs(db);
    if db.write.Idle? && db.writers != [] && db.writers[0].batch.Some? {
      BeginGroup(db);
    } else {
      if db.write.Idle? && db.writers != [] {
        db.FinishEmptyWrite();
      }
      NowIs(db);
      FoldBeganOtherwise(pre, db.Now());
    }
  }

  lemma CurrentLogExists(db: DBImpl)
    requires db.Valid()
    ensures db.logfileNumber in db.logs
  {
    hide *;
    Parts(db);
    LogsFacts(db.logs, db.manifest.logNumber, db.logfileNumber, db.nextFileNumber, Logged(db.hist, db.lastSequence, db.write), db.immStart, db.memStart);
  }

  lemma GroupsAre(writers: seq<Writer>, n: nat)
    requires IsGroup(writers, n)
    ensures 1 <= n <= |writers| && forall m: nat :: IsGroup(writers, m) ==> m == n
  {
    forall m: nat | IsGroup(writers, m) ensures m == n {
      GroupUnique(writers, n, m);
    }
  }

  method BeginGroup(db: DBImpl)
    requires db.Valid() && db.write.Idle? && db.writers != [] && db.writers[0].batch.Some?
    modifies db`write, db`tmpBatch, db`logs
    ensures db.Valid() && Began(old(db.Now()), db.Now())
  {
    hide *;
    CurrentLogExists(db);
    ghost var pre := db.Now();
    NowIs(db);
    var n, ops, _ := BuildBatchGroup(db.writers, []);
    GroupsAre(db.writers, n);
    if db.lastSequence + |ops| < MAX_SEQUENCE_NUMBER {
      db.BeginWrite();
    }
    NowIs(db);
    FoldBegan(pre, n, db.Now());
  }

  lemma FoldInserted(pre: State, post: State)
    requires pre.write.Writing? && pre.write.applied < |pre.write.record.ops| ==>
               && post == pre.(mem := post.mem, hist := post.hist, write := post.write)
               && post.write == pre.write.(applied := pre.write.applied + 1)
               && post.hist == pre.hist + [post.write.record.ops[pre.write.applied]]
               && Sorted(post.mem) && Contents(post.mem) == Contents(pre.mem) + {EntryAt(post.hist, |pre.hist|)}
    requires !(pre.write.Writing? && pre.write.applied < |pre.write.record.ops|) ==> post == pre
    ensures Inserted(pre, post)
  {
    hide Sorted, Contents;
  }

  method PerformInsert(db: DBImpl)
    requires db.Valid()
    modifies db`mem, db`write, db`hist
    ensures db.Valid() && Inserted(old(db.Now()), db.Now())
  {
    hide *;
    ghost var pre := db.Now();
    NowIs(db);
    if db.write.Writing? && db.write.applied < |db.write.record.ops| {
      db.InsertNext();
    }
    NowIs(db);
    FoldInserted(pre, db.Now());
  }

  lemma FoldPublished(pre: State, post: State)
    requires pre.write.Writing? ==> pre.write.group <= |pre.writers|
    requires pre.write.Writing? && pre.write.applied == |pre.write.record.ops| ==>
               post == pre.(write := Idle, tmpBatch := [], lastSequence := |pre.hist|, writers := pre.writers[pre.write.group..],
                            committed := pre.committed + pre.writers[..pre.write.group])
    requires !(pre.write.Writing? && pre.write.applied == |pre.write.record.ops|) ==> post == pre
    ensures Published(pre, post)
  {
  }

  lemma GroupInQueue(db: DBImpl)
    requires db.Valid()
    ensures db.write.Writing? ==> db.write.group <= |db.writers|
  {
    hide *;
    Parts(db);
    if db.write.Writing? {
      QueueWriting(db.enqueued, db.committed, db.writers, db.write, db.tmpBatch, db.hist, db.lastSequence);
    }
  }

  method PerformPublish(db: DBImpl)
    requires db.Valid()
    modifies db`lastSequence, db`writers, db`committed, db`write, db`tmpBatch
    ensures db.Valid() && Published(old(db.Now()), db.Now())
  {
    hide *;
    GroupInQueue(db);
    ghost var pre := db.Now();
    NowIs(db);
    if db.write.Writing? && db.write.applied == |db.write.record.ops| {
      db.FinishWrite();
    }
    NowIs(db);
    FoldPublished(pre, db.Now());
  }

  lemma FoldFlushed(pre: State, maxOverlap: nat, size: nat, post: State)
    requires pre.imm.Some? ==>
               && WroteTable(pre.levels, pre.imm.value, true, maxOverlap, size, pre.nextFileNumber, post.levels)
               && post == pre.(imm := None, immStart := pre.memStart, levels := post.levels, nextFileNumber := pre.nextFileNumber + 1,
                               manifest := Manifest(post.levels, pre.logfileNumber, pre.lastSequence, pre.nextFileNumber + 1))
    requires pre.imm.None? ==> post == pre
    ensures Flushed(pre, maxOverlap, size, post)
  {
    hide WroteTable;
  }

  method PerformFlush(db: DBImpl, maxOverlap: nat, size: nat)
    requires db.Valid()
    modifies db`imm, db`levels, db`nextFileNumber, db`manifest, db`immStart
    ensures db.Valid() && Flushed(old(db.Now()), maxOverlap, size, db.Now())
  {
    hide *;
    ghost var pre := db.Now();
    NowIs(db);
    if db.imm.Some? {
      db.CompactMemTable(maxOverlap, size);
    }
    NowIs(db);
    FoldFlushed(pre, maxOverlap, size, db.Now());
  }

  lemma FoldTrimmed(pre: State, post: State)
    requires post == pre.(logs := post.logs) && post.logs == map n | n in pre.logs && n >= pre.manifest.logNumber :: pre.logs[n]
    ensures Trimmed(pre, post)
  {
  }

  method PerformTrim(db: DBImpl)
    requires db.Valid()
    modifies db`logs
    ensures db.Valid() && Trimmed(old(db.Now()), db.Now())
  {
    hide *;
    ghost var pre := db.Now();
    NowIs(db);
    db.DeleteObsoleteFiles();
    NowIs(db);
    FoldTrimmed(pre, db.Now());
  }

  lemma UnfoldCanStart(levels: seq<seq<File>>, level: nat, start: Start)
    requires |levels| == NUM_LEVELS && CanStart(levels, level, start)
    ensures level + 1 < NUM_LEVELS && levels[level] != [] && (start.Seek? ==> start.index < |levels[level]|)
  {
  }

  lemma FoldStart(levels: seq<seq<File>>, level: nat, start: Start, i: nat, expandedLimit: nat, c: Compaction)
    requires level + 1 < |levels| && i < |levels[level]|
    requires if start.Seek? then i == start.index else IsPicked(levels[level], start.pointer, i)
    requires IsAutomaticPick(levels, level, levels[level][i], expandedLimit, c)
    ensures PickedFrom(levels, level, start, expandedLimit, c)
  {
    hide IsPicked, IsAutomaticPick;
    assert StartsAt(levels[level], start, i);
  }

  method StartFile(files: seq<File>, start: Start) returns (f: File, ghost i: nat)
    requires files != [] && (start.Seek? ==> start.index < |files|)
    ensures i < |files| && f == files[i] && (if start.Seek? then i == start.index else IsPicked(files, start.pointer, i))
  {
    hide *;
    match start
    case Seek(index) =>
      f, i := files[index], index;
    case AfterPointer(pointer) =>
      f := PickFile(files, pointer);
      i :| 0 <= i < |files| && IsPicked(files, pointer, i) && f == files[i];
  }

  lemma FoldAutomatic(pre: State, level: nat, start: Start, expandedLimit: nat, maxOverlap: nat, plan: Plan,
                      c: Compaction, outputs: seq<File>, post: State)
    requires |pre.levels| == NUM_LEVELS && CanStart(pre.levels, level, start) && level + 1 < NUM_LEVELS
    requires c.level == level && ExactHull(c) && PickedFrom(pre.levels, level, start, expandedLimit, c)
    requires Compacted(pre, c, outputs, plan, IsTrivialMove(pre.levels, c, maxOverlap), post)
    ensures CompactedAutomatically(pre, level, start, expandedLimit, maxOverlap, plan, Some(Pick(c, outputs)), post)
  {
    hide CanStart, ExactHull, PickedFrom, Compacted, IsTrivialMove;
  }

  lemma FoldNotStarted(pre: State, level: nat, start: Start, expandedLimit: nat, maxOverlap: nat, plan: Plan)
    requires |pre.levels| == NUM_LEVELS && !CanStart(pre.levels, level, start)
    ensures CompactedAutomatically(pre, level, start, expandedLimit, maxOverlap, plan, None, pre)
  {
  }

  method PerformAutomatic(db: DBImpl, level: nat, start: Start, expandedLimit: nat, maxOverlap: nat, plan: Plan)
    returns (ghost pick: Option<Pick>)
    requires db.Valid()
    modifies db`levels, db`nextFileNumber, db`manifest, db`intact
    ensures db.Valid() && CompactedAutomatically(old(db.Now()), level, start, expandedLimit, maxOverlap, plan, pick, db.Now())
  {
    hide *;
    LevelCount(db);
    ghost var pre := db.Now();
    NowIs(db);
    pick := None;
    if CanStart(db.levels, level, start) {
      UnfoldCanStart(db.levels, level, start);
      var f, i := StartFile(db.levels[level], start);
      ghost var c, outputs := db.CompactFrom(level, f, expandedLimit, maxOverlap, plan);
      FoldStart(pre.levels, level, start, i, expandedLimit, c);
      pick := Some(Pick(c, outputs));
      FoldAutomatic(pre, level, start, expandedLimit, maxOverlap, plan, c, outputs, db.Now());
    } else {
      FoldNotStarted(pre, level, start, expandedLimit, maxOverlap, plan);
    }
  }

  lemma FoldManually(pre: State, level: nat, begin: Option<UserKey>, end: Option<UserKey>, limit: nat, expandedLimit: nat, plan: Plan,
                     c: Compaction, outputs: seq<File>, post: State)
    requires |pre.levels| == NUM_LEVELS && level + 1 < NUM_LEVELS && exists f :: f in pre.levels[level] && Overlaps(f, begin, end)
    requires c.level == level && ExactHull(c) && IsManualPick(pre.levels, level, begin, end, limit, expandedLimit, c)
    requires Compacted(pre, c, outputs, plan, false, post)
    ensures CompactedManually(pre, level, begin, end, limit, expandedLimit, plan, Some(Pick(c, outputs)), post)
  {
    hide ExactHull, Compacted, Overlaps, IsManualPick;
  }

  lemma FoldNotManually(pre: State, level: nat, begin: Option<UserKey>, end: Option<UserKey>, limit: nat, expandedLimit: nat, plan: Plan)
    requires |pre.levels| == NUM_LEVELS
    requires level + 1 < NUM_LEVELS ==> forall f :: f in pre.levels[level] ==> !Overlaps(f, begin, end)
    ensures CompactedManually(pre, level, begin, end, limit, expandedLimit, plan, None, pre)
  {
    hide Overlaps;
  }

  method PerformManual(db: DBImpl, level: nat, begin: Option<UserKey>, end: Option<UserKey>, limit: nat, expandedLimit: nat, plan: Plan)
    returns (ghost pick: Option<Pick>)
    requires db.Valid()
    modifies db`levels, db`nextFileNumber, db`manifest, db`intact
    ensures db.Valid() && CompactedManually(old(db.Now()), level, begin, end, limit, expandedLimit, plan, pick, db.Now())
  {
    hide *;
    LevelCount(db);
    ghost var pre := db.Now();
    NowIs(db);
    pick := None;
    if level + 1 < NUM_LEVELS {
      ghost var c, outputs := db.CompactKeyRange(level, begin, end, limit, expandedLimit, plan);
      if c.Some? {
        pick := Some(Pick(c.value, outputs));
        FoldManually(pre, level, begin, end, limit, expandedLimit, plan, c.value, outputs, db.Now());
      } else {
        FoldNotManually(pre, level, begin, end, limit, expandedLimit, plan);
      }
    } else {
      FoldNotManually(pre, level, begin, end, limit, expandedLimit, plan);
    }
  }

  method PerformSnapshot(db: DBImpl, id: nat)
    requires db.Valid()
    modifies db`snapshots
    ensures db.Valid() && db.Now() == old(db.Now()).(snapshots := old(db.snapshots) + [Snapshot(id, old(db.lastSequence))])
  {
    hide *;
    ghost var pre := db.Now();
    NowIs(db);
    var _ := db.GetSnapshot(id);
    NowIs(db);
  }

  lemma FoldDropped(pre: State, i: nat, post: State)
    requires i < |pre.snapshots| ==> post == pre.(snapshots := pre.snapshots[..i] + pre.snapshots[i + 1..])
    requires i >= |pre.snapshots| ==> post == pre
    ensures SnapshotDropped(pre, i, post)
  {
  }

  method PerformDrop(db: DBImpl, i: nat)
    requires db.Valid()
    modifies db`snapshots
    ensures db.Valid() && SnapshotDropped(old(db.Now()), i, db.Now())
  {
    hide *;
    ghost var pre := db.Now();
    NowIs(db);
    if i < |db.snapshots| {
      db.ReleaseSnapshot(i);
    }
    NowIs(db);
    FoldDropped(pre, i, db.Now());
  }

  lemma FoldCrashed(pre: State, keepInFlight: bool, survived: seq<Op>, acknowledged: seq<Writer>, post: State)
    requires pre.lastSequence <= |pre.hist| && (pre.write.Writing? ==> pre.write.group <= |pre.writers|)
    requires survived == if keepInFlight then Logged(pre.hist, pre.lastSequence, pre.write) else pre.hist[..pre.lastSequence]
    requires acknowledged == if keepInFlight && pre.write.Writing? then pre.committed + pre.writers[..pre.write.group] else pre.committed
    requires pre.logfileNumber < post.logfileNumber
    requires AllEntries(post.levels) == AllEntries(pre.levels) + Slice(survived, pre.immStart, |survived|)
    requires post == State([], None, post.levels, |survived|, post.logfileNumber + 1, [], [], Idle, [],
                           map[post.logfileNumber := []], post.logfileNumber,
                           Manifest(post.levels, post.logfileNumber, |survived|, post.logfileNumber + 1),
                           survived, acknowledged, acknowledged, |survived|, |survived|, pre.intact)
    ensures Crashed(pre, keepInFlight, post)
  {
    hide Logged, AllEntries, Slice;
  }

  method PerformCrash(db: DBImpl, keepInFlight: bool)
    requires db.Valid()
    modifies db
    ensures db.Valid() && Crashed(old(db.Now()), keepInFlight, db.Now())
  {
    hide *;
    GroupInQueue(db);
    Parts(db);
    ghost var pre := db.Now();
    NowIs(db);
    UnfoldSurvived(db, keepInFlight);
    ghost var survived, acknowledged := db.Survived(keepInFlight), db.Acknowledged(keepInFlight);
    db.CrashAndRecover(keepInFlight);
    NowIs(db);
    FoldCrashed(pre, keepInFlight, survived, acknowledged, db.Now());
  }

  /** Take the step if it is enabled. */
  method Perform(db: DBImpl, step: Step) returns (ghost pick: Option<Pick>)
    requires db.Valid()
    modifies db
    ensures db.Valid() && StepRel(old(db.Now()), step, pick, db.Now())
  {
    hide DBImpl.Valid, DBImpl.Now;
    hide Arrived, MadeRoom, Began, Inserted, Published, Flushed, Trimmed, CompactedAutomatically, CompactedManually, SnapshotDropped, Crashed;
    pick := None;
    match step
    case Arrive(w) =>
      PerformArrive(db, w);
    case MakeRoom(force, full) =>
      PerformMakeRoom(db, force, full);
    case Begin =>
      PerformBegin(db);
    case Insert =>
      PerformInsert(db);
    case Publish =>
      PerformPublish(db);
    case FlushMemTable(maxOverlap, size) =>
      PerformFlush(db, maxOverlap, size);
    case DeleteObsolete =>
      PerformTrim(db);
    case AutomaticCompaction(level, start, expandedLimit, maxOverlap, plan) =>
      pick := PerformAutomatic(db, level, start, expandedLimit, maxOverlap, plan);
    case ManualCompaction(level, begin, end, limit, expandedLimit, plan) =>
      pick := PerformManual(db, level, begin, end, limit, expandedLimit, plan);
    case TakeSnapshot(id) =>
      NowIs(db);
      PerformSnapshot(db, id);
    case DropSnapshot(i) =>
      PerformDrop(db, i);
    case Crash(keepInFlight) =>
      PerformCrash(db, keepInFlight);
  }

  // --------------------------------------------------------------------- what every step does

  /** The step compacts, and its compaction exposes a key. */
  ghost predicate Exposed(pre: State, pick: Option<Pick>) {
    && pick.Some? && |pre.levels| == NUM_LEVELS && pick.value.c.level + 1 < NUM_LEVELS
    && !ExposesNothing(pre.levels, pick.value.c, SmallestSnapshot(pre.snapshots, pre.lastSequence))
  }

  lemma CompactedFacts(pre: State, c: Compaction, outputs: seq<File>, plan: Plan, move: bool, post: State)
    requires Compacted(pre, c, outputs, plan, move, post)
    ensures post.committed == pre.committed && post.enqueued == pre.enqueued && post.writers == pre.writers
    ensures |pre.levels| == NUM_LEVELS && c.level + 1 < NUM_LEVELS && GoodInputs(pre.levels, c)
    ensures post.intact <==> pre.intact && ExposesNothing(pre.levels, c, SmallestSnapshot(pre.snapshots, pre.lastSequence))
  {
    hide GoodInputs, ExposesNothing;
  }

  /** A pick is a compaction of the state it was made in. */
  lemma PickParts(pre: State, step: Step, pick: Option<Pick>, post: State)
    requires StepRel(pre, step, pick, post) && pick.Some?
    ensures |pre.levels| == NUM_LEVELS && pick.value.c.level + 1 < NUM_LEVELS && GoodInputs(pre.levels, pick.value.c)
    ensures post.committed == pre.committed && post.enqueued == pre.enqueued
    ensures post.intact <==> pre.intact && !Exposed(pre, pick)
  {
    hide Compacted, GoodInputs, ExposesNothing, ExactHull, PickedFrom, IsTrivialMove;
    match step
    case AutomaticCompaction(level, start, _, maxOverlap, plan) =>
      CompactedFacts(pre, pick.value.c, pick.value.outputs, plan, IsTrivialMove(pre.levels, pick.value.c, maxOverlap), post);
    case ManualCompaction(_, _, _, _, _, plan) =>
      CompactedFacts(pre, pick.value.c, pick.value.outputs, plan, false, post);
  }

  /** Only a compaction that exposes a key clears the flag. */
  lemma StepIntact(pre: State, step: Step, pick: Option<Pick>, post: State)
    requires StepRel(pre, step, pick, post)
    ensures post.intact <==> pre.intact && !Exposed(pre, pick)
  {
    if pick.Some? {
      PickParts(pre, step, pick, post);
    } else {
      hide Logged, AllEntries, WroteTable, IsGroup, BatchOps, Several, Sorted, Contents, Overlaps;
    }
  }

  /** Nobody acknowledged is forgotten; only an arrival or a crash changes who is known. */
  lemma StepQueue(pre: State, step: Step, pick: Option<Pick>, post: State)
    requires StepRel(pre, step, pick, post)
    ensures pre.committed <= post.committed
    ensures step.Arrive? ==> post.enqueued == pre.enqueued + [step.w]
    ensures !step.Arrive? && !step.Crash? ==> post.enqueued == pre.enqueued
    ensures step.Crash? && pre.enqueued == pre.committed + pre.writers ==> post.enqueued <= pre.enqueued
  {
    if pick.Some? {
      PickParts(pre, step, pick, post);
    } else {
      hide Logged, AllEntries, WroteTable, IsGroup, BatchOps, Several, Sorted, Contents, Overlaps;
    }
  }

  // ------------------------------------------------------------------------------- traces

  /** The states of a run of the steps from an empty database, and what its compactions picked. */
  ghost predicate IsRun(steps: seq<Step>, trace: seq<State>, picks: seq<Option<Pick>>) {
    && |trace| == |steps| + 1 && |picks| == |steps| && trace[0] == InitialState()
    && (forall i :: 0 <= i < |steps| ==> StepRel(trace[i], steps[i], picks[i], trace[i + 1]))
    && (forall i :: 0 <= i < |trace| ==> StateOk(trace[i]))
  }

  lemma RunStep(steps: seq<Step>, trace: seq<State>, picks: seq<Option<Pick>>, i: nat)
    requires IsRun(steps, trace, picks) && i < |steps|
    ensures |trace| == |steps| + 1 && |picks| == |steps| && StepRel(trace[i], steps[i], picks[i], trace[i + 1])
    ensures StateOk(trace[i]) && trace[i].enqueued == trace[i].committed + trace[i].writers
  {
    hide StepRel;
  }

  lemma RunExtends(steps: seq<Step>, n: nat, trace: seq<State>, picks: seq<Option<Pick>>, pick: Option<Pick>, post: State)
    requires n < |steps| && IsRun(steps[..n], trace, picks) && StepRel(trace[n], steps[n], pick, post) && StateOk(post)
    ensures IsRun(steps[..n + 1], trace + [post], picks + [pick])
  {
    hide StepRel, StateOk;
  }

  ghost predicate NothingExposed(trace: seq<State>, picks: seq<Option<Pick>>) {
    forall i :: 0 <= i < |picks| && i < |trace| ==> !Exposed(trace[i], picks[i])
  }

  /** The next level of every compaction of the run splits no user key across two files. */
  ghost predicate AlwaysUnsplit(trace: seq<State>, picks: seq<Option<Pick>>) {
    forall i :: 0 <= i < |picks| && i < |trace| ==> Unsplit(trace[i], picks[i])
  }

  ghost predicate Unsplit(pre: State, pick: Option<Pick>) {
    pick.Some? && pick.value.c.level + 1 < |pre.levels| ==> UserDisjoint(pre.levels[pick.value.c.level + 1])
  }

  lemma RunStartsIntact(steps: seq<Step>, trace: seq<State>, picks: seq<Option<Pick>>)
    requires IsRun(steps, trace, picks)
    ensures |trace| == |steps| + 1 && |picks| == |steps| && trace[0].intact && NothingExposed(trace[..0], picks[..0])
    ensures trace[0].enqueued == []
  {
    hide StepRel, StateOk, Exposed;
  }

  lemma NothingExposedStep(trace: seq<State>, picks: seq<Option<Pick>>, n: nat)
    requires n < |trace| && n < |picks|
    ensures NothingExposed(trace[..n + 1], picks[..n + 1]) <==> NothingExposed(trace[..n], picks[..n]) && !Exposed(trace[n], picks[n])
  {
    hide Exposed;
    assert trace[..n + 1] == trace[..n] + [trace[n]] && picks[..n + 1] == picks[..n] + [picks[n]];
  }

  /** The flag says exactly whether a compaction of the run exposed a key. */
  lemma {:induction false} IntactIff(steps: seq<Step>, trace: seq<State>, picks: seq<Option<Pick>>, n: nat)
    requires IsRun(steps, trace, picks) && n <= |steps|
    ensures |trace| == |steps| + 1 && |picks| == |steps|
    ensures trace[n].intact <==> NothingExposed(trace[..n], picks[..n])
  {
    hide *;
    RunStartsIntact(steps, trace, picks);
    if n > 0 {
      IntactIff(steps, trace, picks, n - 1);
      RunStep(steps, trace, picks, n - 1);
      StepIntact(trace[n - 1], steps[n - 1], picks[n - 1], trace[n]);
      NothingExposedStep(trace, picks, n - 1);
    }
  }

  lemma UnsplitNotExposed(pre: State, step: Step, pick: Option<Pick>, post: State)
    requires StepRel(pre, step, pick, post) && Unsplit(pre, pick) && StateOk(pre)
    ensures !Exposed(pre, pick)
  {
    hide *;
    if pick.Some? {
      PickParts(pre, step, pick, post);
      StateFiles(pre);
      CompactionInput.InvFacts(pre.levels);
      UnfoldUnsplit(pre, pick);
      UnsplitExposesNothing(pre.levels, pick.value.c, SmallestSnapshot(pre.snapshots, pre.lastSequence));
      FoldUnexposed(pre, pick);
    } else {
      NoPick(pre, pick);
    }
  }

  lemma NoPick(pre: State, pick: Option<Pick>)
    requires pick.None?
    ensures !Exposed(pre, pick)
  {
  }

  lemma StateFiles(st: State)
    requires StateOk(st)
    ensures Inv(st.levels) && |st.levels| == NUM_LEVELS
  {
    hide QueueOk, MemOk, LogsOk, ManifestOk, SnapsOk, BaseReads, LastLogged, Logged, HoldsPrefix, NumbersBelow;
  }

  lemma UnfoldUnsplit(pre: State, pick: Option<Pick>)
    requires Unsplit(pre, pick) && pick.Some? && pick.value.c.level + 1 < |pre.levels|
    ensures UserDisjoint(pre.levels[pick.value.c.level + 1])
  {
    hide UserDisjoint;
  }

  lemma FoldUnexposed(pre: State, pick: Option<Pick>)
    requires pick.Some? && |pre.levels| == NUM_LEVELS && pick.value.c.level + 1 < NUM_LEVELS
    requires ExposesNothing(pre.levels, pick.value.c, SmallestSnapshot(pre.snapshots, pre.lastSequence))
    ensures !Exposed(pre, pick)
  {
    hide ExposesNothing;
  }

  /** A run whose compactions never meet a split key exposes nothing. */
  lemma UnsplitRunExposesNothing(steps: seq<Step>, trace: seq<State>, picks: seq<Option<Pick>>)
    requires IsRun(steps, trace, picks) && AlwaysUnsplit(trace, picks)
    ensures NothingExposed(trace, picks)
  {
    forall i | 0 <= i < |picks| ensures !Exposed(trace[i], picks[i]) {
      RunStep(steps, trace, picks, i);
      UnsplitNotExposed(trace[i], steps[i], picks[i], trace[i + 1]);
    }
  }

  /** An acknowledged writer stays acknowledged, at the same place, across every later step and crash. */
  lemma {:induction false} AcknowledgedForever(steps: seq<Step>, trace: seq<State>, picks: seq<Option<Pick>>, i: nat, j: nat)
    requires IsRun(steps, trace, picks) && i <= j <= |steps|
    ensures |trace| == |steps| + 1 && trace[i].committed <= trace[j].committed
    decreases j - i
  {
    hide *;
    RunLength(steps, trace, picks, i);
    if i < j {
      AcknowledgedForever(steps, trace, picks, i, j - 1);
      RunStep(steps, trace, picks, j - 1);
      StepQueue(trace[j - 1], steps[j - 1], picks[j - 1], trace[j]);
    }
  }

  /** A snapshot's number stands for what was acknowledged when it was taken, however the run goes on. */
  lemma SnapshotIsFrozen(steps: seq<Step>, trace: seq<State>, picks: seq<Option<Pick>>, i: nat, j: nat)
    requires IsRun(steps, trace, picks) && i <= j <= |steps|
    ensures |trace| == |steps| + 1 && trace[i].lastSequence <= |BatchOps(trace[j].committed)|
    ensures BatchOps(trace[j].committed)[..trace[i].lastSequence] == BatchOps(trace[i].committed)
  {
    hide *;
    RunLength(steps, trace, picks, i);
    AcknowledgedForever(steps, trace, picks, i, j);
    PublishedAre(trace[i]);
    var a, b := trace[i].committed, trace[j].committed[|trace[i].committed|..];
    assert a + b == trace[j].committed;
    BatchOpsConcat(a, b);
  }

  lemma RunLength(steps: seq<Step>, trace: seq<State>, picks: seq<Option<Pick>>, i: nat)
    requires IsRun(steps, trace, picks) && i <= |steps|
    ensures |trace| == |steps| + 1 && |picks| == |steps| && StateOk(trace[i])
  {
    hide StepRel, StateOk;
  }

  lemma PublishedAre(st: State)
    requires StateOk(st)
    ensures st.lastSequence == |BatchOps(st.committed)|
  {
    hide MemOk, LogsOk, FilesInv, ManifestOk, SnapsOk, BaseReads, LastLogged, Logged, BatchOps;
    assert |st.hist[..st.lastSequence]| == st.lastSequence;
  }

  // ------------------------------------------------------------------------------ arrivals

  /** The writers that arrive in the steps, in order. */
  ghost function Arrivals(steps: seq<Step>): seq<Writer> {
    if steps == [] then []
    else
      var last := steps[|steps| - 1];
      Arrivals(steps[..|steps| - 1]) + if last.Arrive? then [last.w] else []
  }

  /** `at` maps the positions of `part` to the same writers in `whole`, in the same order. */
  ghost predicate EmbeddedAt(part: seq<Writer>, whole: seq<Writer>, at: seq<nat>) {
    && |at| == |part| && (forall i :: 0 <= i < |at| ==> at[i] < |whole| && whole[at[i]] == part[i])
    && (forall i, j :: 0 <= i < j < |at| ==> at[i] < at[j])
  }

  lemma ArrivalsStep(steps: seq<Step>, n: nat)
    requires n < |steps|
    ensures Arrivals(steps[..n + 1]) == if steps[n].Arrive? then Arrivals(steps[..n]) + [steps[n].w] else Arrivals(steps[..n])
  {
    assert steps[..n + 1][..n] == steps[..n];
  }

  lemma EmbeddedGrows(part: seq<Writer>, whole: seq<Writer>, at: seq<nat>, w: Writer)
    requires EmbeddedAt(part, whole, at)
    ensures EmbeddedAt(part + [w], whole + [w], at + [|whole|])
  {
  }

  lemma EmbeddedPrefix(part: seq<Writer>, whole: seq<Writer>, at: seq<nat>, part': seq<Writer>)
    requires EmbeddedAt(part, whole, at) && part' <= part
    ensures |part'| <= |at| && EmbeddedAt(part', whole, at[..|part'|])
  {
  }

  lemma NothingEmbedded(whole: seq<Writer>)
    ensures EmbeddedAt([], whole, [])
  {
  }

  /** Each known writer arrived, once and in this order; without a crash every arrival is known. */
  lemma {:induction false} KnownArrived(steps: seq<Step>, trace: seq<State>, picks: seq<Option<Pick>>, n: nat) returns (at: seq<nat>)
    requires IsRun(steps, trace, picks) && n <= |steps|
    ensures |trace| == |steps| + 1 && EmbeddedAt(trace[n].enqueued, Arrivals(steps[..n]), at)
    ensures (forall i :: 0 <= i < n ==> !steps[i].Crash?) ==> trace[n].enqueued == Arrivals(steps[..n])
  {
    hide *;
    RunStartsIntact(steps, trace, picks);
    if n == 0 {
      at := [];
      NothingEmbedded(Arrivals(steps[..0]));
      NoArrivals(steps);
    } else {
      at := KnownArrived(steps, trace, picks, n - 1);
      RunStep(steps, trace, picks, n - 1);
      StepQueue(trace[n - 1], steps[n - 1], picks[n - 1], trace[n]);
      ArrivalsStep(steps, n - 1);
      var whole := Arrivals(steps[..n - 1]);
      if steps[n - 1].Arrive? {
        EmbeddedGrows(trace[n - 1].enqueued, whole, at, steps[n - 1].w);
        at := at + [|whole|];
      } else {
        EmbeddedPrefix(trace[n - 1].enqueued, whole, at, trace[n].enqueued);
        at := at[..|trace[n].enqueued|];
      }
    }
  }

  lemma NoArrivals(steps: seq<Step>)
    ensures Arrivals(steps[..0]) == []
  {
  }

  // ----------------------------------------------------------------------------- whole runs

  lemma RunStarts(steps: seq<Step>, first: State)
    requires first == InitialState() && StateOk(first)
    ensures IsRun(steps[..0], [first], [])
  {
    hide StateOk;
  }

  lemma ValidIs(db: DBImpl)
    ensures db.Valid() <==> StateOk(db.Now())
  {
    hide StateOk;
  }

  /** Any run from an empty database, and a read of any key at its end, at any live snapshot or at the last
      acknowledged write.  The read sees whole batches, and what it returns is what the acknowledged batches up to
      its point left there, if no compaction of the run exposed a key; that is so if none met a split key. */
  method Run(steps: seq<Step>, k: UserKey, snapshotIndex: nat)
    returns (db: DBImpl, s: nat, r: Option<Bytes>, ghost trace: seq<State>, ghost picks: seq<Option<Pick>>, ghost at: seq<nat>)
    ensures db.Valid() && IsRun(steps, trace, picks) && db.Now() == trace[|steps|]
    ensures EmbeddedAt(db.enqueued, Arrivals(steps), at) && db.enqueued == db.committed + db.writers
    ensures (forall i :: 0 <= i < |steps| ==> !steps[i].Crash?) ==> db.enqueued == Arrivals(steps)
    ensures s == if snapshotIndex < |db.snapshots| then db.snapshots[snapshotIndex].seqno else db.lastSequence
    ensures SeesWholeBatches(db.committed, s) && s <= |BatchOps(db.committed)| && r == Read(db.Store(), k, s)
    ensures NothingExposed(trace, picks) ==> r == Lookup(Replay(BatchOps(db.committed)[..s]), k)
    ensures AlwaysUnsplit(trace, picks) ==> NothingExposed(trace, picks)
  {
    hide *;
    db := new DBImpl();
    ValidIs(db);
    RunStarts(steps, db.Now());
    trace, picks := [db.Now()], [];
    for n := 0 to |steps|
      invariant db.Valid() && IsRun(steps[..n], trace, picks) && |trace| == n + 1 && db.Now() == trace[n]
    {
      ghost var pick := Perform(db, steps[n]);
      ValidIs(db);
      RunExtends(steps, n, trace, picks, pick, db.Now());
      trace, picks := trace + [db.Now()], picks + [pick];
    }
    assert steps[..|steps|] == steps;
    NowIs(db);
    at := KnownArrived(steps, trace, picks, |steps|);
    QueueSplit(db);
    IntactIff(steps, trace, picks, |steps|);
    WholeTrace(trace, picks, |steps|);
    if AlwaysUnsplit(trace, picks) {
      UnsplitRunExposesNothing(steps, trace, picks);
    }
    var live := if snapshotIndex < |db.snapshots| then Some(db.snapshots[snapshotIndex]) else None;
    s := if live.Some? then live.value.seqno else db.lastSequence;
    r := db.Get(k, live);
  }

  lemma QueueSplit(db: DBImpl)
    requires db.Valid()
    ensures db.enqueued == db.committed + db.writers
  {
    hide *;
    Parts(db);
    UnfoldQueue(db.enqueued, db.committed, db.writers, db.write, db.tmpBatch, db.hist, db.lastSequence);
  }

  lemma UnfoldQueue(enqueued: seq<Writer>, committed: seq<Writer>, writers: seq<Writer>, write: WriteState,
                    tmpBatch: seq<Op>, hist: seq<Op>, lastSequence: nat)
    requires QueueOk(enqueued, committed, writers, write, tmpBatch, hist, lastSequence)
    ensures enqueued == committed + writers
  {
    hide BatchOps;
  }

  lemma WholeTrace(trace: seq<State>, picks: seq<Option<Pick>>, n: nat)
    requires |trace| == n + 1 && |picks| == n
    ensures NothingExposed(trace[..n], picks[..n]) <==> NothingExposed(trace, picks)
  {
    hide Exposed;
    assert forall i :: 0 <= i < n ==> trace[..n][i] == trace[i] && picks[..n][i] == picks[i];
  }
}
