/** The database: queued writers, memtables, logs, table files, manifest and snapshots.

    Each method is one step under the database mutex.  `Valid` holds after every step, so after any
    run of steps, crashes included. */
module Db {
  import opened DbFormat
  import opened Reads
  import opened Version
  import opened Picking
  import opened Setup
  import opened MemTable
  import opened Flush
  import opened WriteGroups
  import opened DbState
  import opened CompactionRun
  import opened Recovery
  import CompactionInput
  import opened CompactionReads
  import opened CompactionWork
  import opened Install

  const L0_STOP_WRITES_TRIGGER := 12

  /** The invariant of a database. */
  ghost predicate StateOk(st: State) {
    && QueueOk(st.enqueued, st.committed, st.writers, st.write, st.tmpBatch, st.hist, st.lastSequence)
    && MemOk(st.hist, st.immStart, st.memStart, st.lastSequence, st.mem, st.imm)
    && st.lastSequence <= |st.hist| && |Logged(st.hist, st.lastSequence, st.write)| < MAX_SEQUENCE_NUMBER
    && LogsOk(st.logs, st.manifest.logNumber, st.logfileNumber, st.nextFileNumber, Logged(st.hist, st.lastSequence, st.write),
              st.immStart, st.memStart)
    && (st.imm.None? <==> st.manifest.logNumber == st.logfileNumber)
    && LastLogged(st.logs, st.logfileNumber, st.write)
    && FilesInv(st.levels, st.hist, st.immStart, st.nextFileNumber)
    && ManifestOk(st.manifest, st.levels, st.manifest.logNumber, st.immStart, st.lastSequence, st.nextFileNumber)
    && SnapsOk(st.snapshots, st.committed, st.lastSequence)
    && (st.intact ==> BaseReads(st.levels, st.hist, st.immStart, SmallestSnapshot(st.snapshots, st.lastSequence)))
  }

  class DBImpl {
    var mem: seq<Entry>
    var imm: Option<seq<Entry>>
    var levels: seq<seq<File>>
    var lastSequence: nat
    var nextFileNumber: nat
    var snapshots: seq<Snapshot>

    var writers: seq<Writer>
    var write: WriteState
    var tmpBatch: seq<Op>

    /** On disk: the logs by number, and what the manifest says. */
    var logs: map<nat, seq<LogRecord>>
    var logfileNumber: nat
    var manifest: Manifest

    /** The operations put into memtables, the writers acknowledged, and those that ever arrived. */
    ghost var hist: seq<Op>
    ghost var committed: seq<Writer>
    ghost var enqueued: seq<Writer>
    ghost var immStart: nat
    ghost var memStart: nat

    /** No compaction so far exposed a key. */
    ghost var intact: bool

    ghost predicate Valid()
      reads this
    {
      StateOk(Now())
    }

    /** All the fields. */
    ghost function Now(): State
      reads this
    {
      State(mem, imm, levels, lastSequence, nextFileNumber, snapshots, writers, write, tmpBatch, logs, logfileNumber,
                  manifest, hist, committed, enqueued, immStart, memStart, intact)
    }

    /** A new, empty database. */
    constructor ()
      ensures Valid() && Now() == InitialState()
    {
      mem, imm, levels, lastSequence := [], None, seq(NUM_LEVELS, _ => []), 0;
      snapshots, writers, write, tmpBatch := [], [], Idle, [];
      logs, logfileNumber, nextFileNumber := map[3 := []], 3, 4;
      manifest := Manifest(seq(NUM_LEVELS, _ => []), 3, 0, 4);
      hist, committed, enqueued, immStart, memStart, intact := [], [], [], 0, 0, true;
      new;
      EmptyLevels(levels);
      assert manifest.levels == levels;
      EmptyParts(logs);
      hide LogsOk, FilesInv, BaseReads, MemOk;
    }

    /** A writer joins the end of the queue. */
    method Enqueue(w: Writer)
      requires Valid()
      modifies this`writers, this`enqueued
      ensures Valid() && writers == old(writers) + [w] && enqueued == old(enqueued) + [w]
    {
      hide *;
      Parts(this);
      QueueArrives(enqueued, committed, writers, write, tmpBatch, hist, lastSequence, w);
      writers := writers + [w];
      enqueued := enqueued + [w];
      Assemble(this);
    }

    /** The writer at the front leads a group and appends its record to the log. */
    method BeginWrite()
      requires Valid() && write.Idle? && writers != [] && writers[0].batch.Some?
      requires forall n: nat :: IsGroup(writers, n) ==> lastSequence + |BatchOps(writers[..n])| < MAX_SEQUENCE_NUMBER
      modifies this`write, this`tmpBatch, this`logs
      ensures Valid() && logfileNumber in old(logs) && write.Writing? && IsGroup(writers, write.group) && write.applied == 0
      ensures write.record == LogRecord(lastSequence + 1, BatchOps(writers[..write.group]))
      ensures tmpBatch == if Several(writers[..write.group]) then write.record.ops else []
      ensures logs == old(logs)[logfileNumber := old(logs)[logfileNumber] + [write.record]]
    {
      hide *;
      Parts(this);
      QueueIdle(enqueued, committed, writers, write, tmpBatch, hist, lastSequence);
      LogsFacts(logs, manifest.logNumber, logfileNumber, nextFileNumber, Logged(hist, lastSequence, write), immStart, memStart);
      var n, ops;
      n, ops, tmpBatch := BuildBatchGroup(writers, tmpBatch);
      var record := LogRecord(lastSequence + 1, ops);
      GroupWithinQueue(writers, n);
      ghost var logged := Logged(hist, lastSequence, write);
      LoggedIdle(hist, lastSequence, write);
      QueueBegins(enqueued, committed, writers, [], tmpBatch, hist, lastSequence, record, n);
      logs := logs[logfileNumber := logs[logfileNumber] + [record]];
      LogsAppend(old(logs), manifest.logNumber, logfileNumber, nextFileNumber, logged, immStart, memStart, record, logs);
      write := Writing(record, 0, n);
      RecordLogged(old(logs), logs, logfileNumber, write);
      LoggedBegins(hist, lastSequence, write);
      Assemble(this);
    }

    /** A writer without a batch is acknowledged once there is room. */
    method FinishEmptyWrite()
      requires Valid() && write.Idle? && writers != [] && writers[0].batch.None?
      modifies this`writers, this`committed
      ensures Valid() && writers == old(writers)[1..] && committed == old(committed) + [old(writers)[0]]
    {
      hide *;
      Parts(this);
      QueueIdle(enqueued, committed, writers, write, tmpBatch, hist, lastSequence);
      EmptyBatch(writers, hist);
      QueueLeaves(enqueued, committed, writers, write, tmpBatch, hist, lastSequence, 1);
      assert writers[..1] == [writers[0]];
      SnapsLater(snapshots, committed, writers[..1], lastSequence, lastSequence);
      committed := committed + writers[..1];
      writers := writers[1..];
      Assemble(this);
    }

    /** One more operation of the group goes into the memtable; readers may run in between. */
    method InsertNext()
      requires Valid() && write.Writing? && write.applied < |write.record.ops|
      modifies this`mem, this`write, this`hist
      ensures Valid() && hist == old(hist) + [write.record.ops[old(write).applied]]
      ensures Sorted(mem) && Contents(mem) == old(Contents(mem)) + {EntryAt(hist, |old(hist)|)}
      ensures write == old(write).(applied := old(write).applied + 1)
    {
      hide *;
      Parts(this);
      var op := write.record.ops[write.applied];
      MemFacts(hist, immStart, memStart, lastSequence, mem, imm);
      QueueWriting(enqueued, committed, writers, write, tmpBatch, hist, lastSequence);
      var mem' := InsertInto(mem, LogRecord(write.record.seqno + write.applied, [op]), hist, memStart);
      MemInserts(hist, immStart, memStart, lastSequence, mem, imm, op, mem');
      SliceSnoc(hist, op, memStart);
      QueueInserts(enqueued, committed, writers, write, tmpBatch, hist, lastSequence, op);
      FilesAfterInsert(levels, hist, immStart, nextFileNumber, op);
      if intact {
        BaseReadsSame(levels, hist, hist + [op], immStart, SmallestSnapshot(snapshots, lastSequence));
      }
      LoggedSame(hist, hist + [op], lastSequence, write, write.(applied := write.applied + 1));
      LastLoggedSame(logs, logfileNumber, write, write.(applied := write.applied + 1));
      mem := mem';
      hist := hist + [op];
      write := write.(applied := write.applied + 1);
      Assemble(this);
    }

    /** The group is published: all its operations become visible together, and its writers, and only
        they, are acknowledged. */
    method FinishWrite()
      requires Valid() && write.Writing? && write.applied == |write.record.ops|
      modifies this`lastSequence, this`writers, this`committed, this`write, this`tmpBatch
      ensures Valid() && write.Idle? && tmpBatch == [] && lastSequence == |hist|
      ensures writers == old(writers)[old(write).group..] && committed == old(committed) + old(writers)[..old(write).group]
    {
      hide *;
      Parts(this);
      QueueWriting(enqueued, committed, writers, write, tmpBatch, hist, lastSequence);
      var n := write.group;
      QueueLeaves(enqueued, committed, writers, write, tmpBatch, hist, lastSequence, n);
      MemPublishes(hist, immStart, memStart, lastSequence, mem, imm);
      LoggedPublishes(hist, lastSequence, write);
      SnapsLater(snapshots, committed, writers[..n], lastSequence, |hist|);
      ManifestLater(manifest, levels, manifest.logNumber, immStart, lastSequence, nextFileNumber, |hist|, nextFileNumber);
      SmallestLater(snapshots, lastSequence, |hist|);
      if intact {
        BaseReadsHigher(levels, hist, immStart, SmallestSnapshot(snapshots, lastSequence), SmallestSnapshot(snapshots, |hist|));
      }
      committed := committed + writers[..n];
      writers := writers[n..];
      lastSequence := lastSequence + |write.record.ops|;
      write, tmpBatch := Idle, [];
      NothingInFlight(logs, logfileNumber, write);
      Assemble(this);
    }

    /** Make room before a write: keep the memtable, wait for background work, or switch to a new
        memtable and a new log. */
    method MakeRoomForWrite(force: bool, full: bool) returns (room: bool)
      requires Valid() && write.Idle?
      modifies this`mem, this`imm, this`logs, this`logfileNumber, this`nextFileNumber, this`memStart
      ensures Valid() && |levels| == NUM_LEVELS
      ensures room <==> (!force && !full) || (old(imm).None? && |levels[0]| < L0_STOP_WRITES_TRIGGER)
      ensures room && (force || full) ==>
                && imm == Some(old(mem)) && mem == [] && memStart == |hist|
                && logs == old(logs)[old(nextFileNumber) := []] && logfileNumber == old(nextFileNumber) && nextFileNumber == old(nextFileNumber) + 1
      ensures !room || (!force && !full) ==>
                && mem == old(mem) && imm == old(imm) && logs == old(logs) && memStart == old(memStart)
                && logfileNumber == old(logfileNumber) && nextFileNumber == old(nextFileNumber)
    {
      hide *;
      Parts(this);
      FilesFacts(levels, hist, immStart, nextFileNumber);
      if !force && !full {
        return true;
      } else if imm.Some? || |levels[0]| >= L0_STOP_WRITES_TRIGGER {
        return false;
      }
      SwitchMemTable();
      return true;
    }

    method StartLog(number: nat, logs': map<nat, seq<LogRecord>>)
      modifies this`logs, this`logfileNumber, this`nextFileNumber
      ensures logs == logs' && logfileNumber == number && nextFileNumber == number + 1
    {
      logs, logfileNumber, nextFileNumber := logs', number, number + 1;
    }

    method SwitchMemTable()
      requires Valid() && write.Idle? && imm.None?
      modifies this`mem, this`imm, this`logs, this`logfileNumber, this`nextFileNumber, this`memStart
      ensures Valid() && imm == Some(old(mem)) && mem == [] && memStart == |hist|
      ensures logs == old(logs)[old(nextFileNumber) := []] && logfileNumber == old(nextFileNumber) && nextFileNumber == old(nextFileNumber) + 1
    {
      hide *;
      Parts(this);
      QueueIdle(enqueued, committed, writers, write, tmpBatch, hist, lastSequence);
      LogsFacts(logs, manifest.logNumber, logfileNumber, nextFileNumber, Logged(hist, lastSequence, write), immStart, memStart);
      MemSwitches(hist, immStart, memStart, mem, imm);
      LoggedIdle(hist, lastSequence, write);
      var newLogNumber := nextFileNumber;
      var logs' := logs[newLogNumber := []];
      LogsSwitch(logs, manifest.logNumber, newLogNumber, hist, memStart, logs');
      FilesNext(levels, hist, immStart, newLogNumber, newLogNumber + 1);
      ManifestLater(manifest, levels, manifest.logNumber, immStart, lastSequence, newLogNumber, lastSequence, newLogNumber + 1);
      NothingInFlight(logs', newLogNumber, write);
      imm, mem := Some(mem), [];
      memStart := |hist|;
      StartLog(newLogNumber, logs');
      Assemble(this);
    }

    // ------------------------------------------------------------------- background work

    /** The immutable memtable becomes a table file and its log is no longer needed. */
    method CompactMemTable(maxGrandParentOverlap: nat, size: nat)
      requires Valid() && imm.Some?
      modifies this`imm, this`levels, this`nextFileNumber, this`manifest, this`immStart
      ensures Valid() && imm == None && immStart == memStart && nextFileNumber == old(nextFileNumber) + 1
      ensures manifest == Manifest(levels, logfileNumber, lastSequence, nextFileNumber)
      ensures WroteTable(old(levels), old(imm).value, true, maxGrandParentOverlap, size, old(nextFileNumber), levels)
      ensures AllEntries(levels) == old(AllEntries(levels)) + Contents(old(imm).value)
    {
      hide *;
      Parts(this);
      FilesFacts(levels, hist, immStart, nextFileNumber);
      MemFacts(hist, immStart, memStart, lastSequence, mem, imm);
      HistWithinLogged(enqueued, committed, writers, write, tmpBatch, hist, lastSequence);
      var number := nextFileNumber;
      var levels' := WriteLevel0Table(levels, imm.value, true, maxGrandParentOverlap, size, number, hist, immStart, memStart);
      var manifest' := Manifest(levels', logfileNumber, lastSequence, number + 1);
      FlushedParts(this, levels', manifest');
      levels, nextFileNumber, manifest, imm := levels', number + 1, manifest', None;
      immStart := memStart;
      Assemble(this);
    }

    /** Delete every log that neither memtable needs. */
    method DeleteObsoleteFiles()
      requires Valid()
      modifies this`logs
      ensures Valid() && logs == map n | n in old(logs) && n >= manifest.logNumber :: old(logs)[n]
    {
      hide *;
      Parts(this);
      var logs' := map n | n in logs && n >= manifest.logNumber :: logs[n];
      LogsTrimmed(logs, manifest.logNumber, logfileNumber, nextFileNumber, Logged(hist, lastSequence, write), immStart, memStart, logs');
      TrimmedKeepsLast(logs, logs', manifest.logNumber, logfileNumber, nextFileNumber, Logged(hist, lastSequence, write), immStart, memStart, write);
      logs := logs';
      Assemble(this);
    }

    /** Merge the inputs and install the outputs.  The files keep answering every read that can still
        be made, unless this compaction exposes a key. */
    method DoCompaction(c: Compaction, plan: Plan) returns (ghost outputs: seq<File>)
      requires Valid() && |levels| == NUM_LEVELS && c.level + 1 < NUM_LEVELS && GoodInputs(levels, c)
      modifies this`levels, this`nextFileNumber, this`manifest, this`intact
      ensures Valid() && Replaced(old(levels), c, outputs, levels) && AllEntries(levels) <= old(AllEntries(levels))
      ensures OutputsFollow(old(levels), c, SmallestSnapshot(snapshots, lastSequence), plan, old(nextFileNumber), outputs) && AllWellFormed(outputs)
      ensures nextFileNumber == old(nextFileNumber) + |outputs|
      ensures manifest == Manifest(levels, old(manifest).logNumber, lastSequence, nextFileNumber)
      ensures forall e :: e in LevelEntries(outputs) <==>
                e in InputEntries(c) && !Dropped(old(levels), c.level, InputEntries(c), SmallestSnapshot(snapshots, lastSequence), e)
      ensures intact <==> old(intact) && ExposesNothing(old(levels), c, SmallestSnapshot(snapshots, lastSequence))
    {
      hide *;
      Parts(this);
      FilesFacts(levels, hist, immStart, nextFileNumber);
      SmallestIsSmallest(snapshots, committed, lastSequence);
      LastBelowMax(hist, lastSequence, write);
      var smallest := SmallestSnapshot(snapshots, lastSequence);
      var levels', next';
      levels', next', outputs := Compact(levels, c, smallest, nextFileNumber, plan);
      var manifest' := Manifest(levels', manifest.logNumber, lastSequence, next');
      ghost var intact' := intact && ExposesNothing(levels, c, smallest);
      CompactedParts(this, levels', next', manifest', intact');
      levels, nextFileNumber, manifest := levels', next', manifest';
      intact := intact';
      Assemble(this);
    }

    /** Move a single input file down one level. */
    method DoMove(c: Compaction)
      requires Valid() && GoodInputs(levels, c) && |c.inputs0| == 1 && c.inputs1 == []
      modifies this`levels, this`manifest
      ensures Valid() && Replaced(old(levels), c, c.inputs0, levels) && AllEntries(levels) == old(AllEntries(levels))
      ensures manifest == Manifest(levels, old(manifest).logNumber, lastSequence, nextFileNumber)
    {
      hide *;
      Parts(this);
      FilesFacts(levels, hist, immStart, nextFileNumber);
      var levels' := Move(levels, c, nextFileNumber);
      var manifest' := Manifest(levels', manifest.logNumber, lastSequence, nextFileNumber);
      AgreeSame(AllEntries(levels), SmallestSnapshot(snapshots, lastSequence));
      CompactedParts(this, levels', nextFileNumber, manifest', intact);
      levels, manifest := levels', manifest';
      Assemble(this);
    }

    /** An automatic compaction that starts from one file of a level: a move when one file has nothing to merge
        with, otherwise a merge. */
    method CompactFrom(level: nat, f: File, expandedLimit: nat, maxGrandParentOverlap: nat, plan: Plan)
      returns (ghost c: Compaction, ghost outputs: seq<File>)
      requires Valid() && |levels| == NUM_LEVELS && level + 1 < NUM_LEVELS && f in levels[level]
      modifies this`levels, this`nextFileNumber, this`manifest, this`intact
      ensures Valid() && c.level == level && f in c.inputs0 && ExactHull(c)
      ensures IsAutomaticPick(old(levels), level, f, expandedLimit, c)
      ensures Compacted(old(Now()), c, outputs, plan, IsTrivialMove(old(levels), c, maxGrandParentOverlap), Now())
    {
      hide *;
      Parts(this);
      FilesFacts(levels, hist, immStart, nextFileNumber);
      ghost var pre := Now();
      NowIs(this);
      var picked := PickCompaction(levels, level, f, expandedLimit);
      c := picked;
      GoodInputsFacts(levels, c);
      MoveFacts(levels, picked, maxGrandParentOverlap);
      if IsTrivialMove(levels, picked, maxGrandParentOverlap) {
        CompactionInput.InvFacts(levels);
        MoveExposesNothing(levels, c, SmallestSnapshot(snapshots, lastSequence));
        DoMove(picked);
        outputs := c.inputs0;
      } else {
        outputs := DoCompaction(picked, plan);
        FoldSurvivors(old(levels), c, SmallestSnapshot(snapshots, lastSequence), outputs);
      }
      NowIs(this);
      FoldCompacted(pre, c, outputs, plan, IsTrivialMove(pre.levels, c, maxGrandParentOverlap), Now());
    }

    /** A manual compaction of a key range of one level; it is never a move. */
    method CompactKeyRange(level: nat, begin: Option<UserKey>, end: Option<UserKey>, limit: nat, expandedLimit: nat, plan: Plan)
      returns (ghost c: Option<Compaction>, ghost outputs: seq<File>)
      requires Valid() && |levels| == NUM_LEVELS && level + 1 < NUM_LEVELS
      modifies this`levels, this`nextFileNumber, this`manifest, this`intact
      ensures Valid() && (c.None? <==> forall f :: f in old(levels)[level] ==> !Overlaps(f, begin, end))
      ensures c.None? ==> Now() == old(Now())
      ensures c.Some? ==> IsManualPick(old(levels), level, begin, end, limit, expandedLimit, c.value)
      ensures c.Some? ==> c.value.level == level && ExactHull(c.value) && Compacted(old(Now()), c.value, outputs, plan, false, Now())
    {
      hide *;
      Parts(this);
      FilesFacts(levels, hist, immStart, nextFileNumber);
      ghost var pre := Now();
      NowIs(this);
      outputs := [];
      var r := CompactRange(levels, level, begin, end, limit, expandedLimit);
      c := r;
      if r.Some? {
        GoodInputsFacts(levels, r.value);
        outputs := DoCompaction(r.value, plan);
        FoldSurvivors(old(levels), r.value, SmallestSnapshot(snapshots, lastSequence), outputs);
        NowIs(this);
        FoldCompacted(pre, r.value, outputs, plan, false, Now());
      }
    }

    // ------------------------------------------------------------------- snapshots and reads

    method GetSnapshot(id: nat) returns (s: Snapshot)
      requires Valid()
      modifies this`snapshots
      ensures Valid() && s == Snapshot(id, lastSequence) && snapshots == old(snapshots) + [s]
    {
      hide *;
      Parts(this);
      PublishedLength(enqueued, committed, writers, write, tmpBatch, hist, lastSequence);
      SnapsTaken(snapshots, committed, lastSequence, id);
      SmallestTaken(snapshots, lastSequence, id);
      s := Snapshot(id, lastSequence);
      snapshots := snapshots + [s];
      Assemble(this);
    }

    method ReleaseSnapshot(i: nat)
      requires Valid() && i < |snapshots|
      modifies this`snapshots
      ensures Valid() && snapshots == old(snapshots)[..i] + old(snapshots)[i + 1..]
    {
      hide *;
      Parts(this);
      SnapsReleased(snapshots, committed, lastSequence, i);
      ghost var low := SmallestSnapshot(snapshots, lastSequence);
      snapshots := snapshots[..i] + snapshots[i + 1..];
      if intact {
        BaseReadsHigher(levels, hist, immStart, low, SmallestSnapshot(snapshots, lastSequence));
      }
      Assemble(this);
    }

    /** Every entry in the memtables and the files. */
    ghost function Store(): set<Entry>
      reads this
    {
      Contents(mem) + (Contents(if imm.Some? then imm.value else []) + AllEntries(levels))
    }

    /** The memtable, then the immutable memtable, then the files, stopping at the first hit.  The answer
        is the value the acknowledged batches up to the snapshot leave at `k`. */
    method Get(k: UserKey, snapshot: Option<Snapshot>) returns (r: Option<Bytes>)
      requires Valid() && (snapshot.Some? ==> snapshot.value in snapshots)
      ensures var s := if snapshot.Some? then snapshot.value.seqno else lastSequence;
              && SeesWholeBatches(committed, s) && s <= |BatchOps(committed)|
              && r == Read(Store(), k, s)
              && (intact ==> r == Lookup(Replay(BatchOps(committed)[..s]), k))
    {
      hide *;
      Parts(this);
      var s := if snapshot.Some? then snapshot.value.seqno else lastSequence;
      ReadablePoint(this, snapshot, s);
      FilesFacts(levels, hist, immStart, nextFileNumber);
      MemFacts(hist, immStart, memStart, lastSequence, mem, imm);
      var immRun := if imm.Some? then imm.value else [];
      ImmRun(hist, immStart, memStart, imm, immRun);
      SearchAnswers(mem, k, s);
      SearchAnswers(immRun, k, s);
      var inMem, inImm := Search(mem, k, s), Search(immRun, k, s);
      var hit: Option<Entry>;
      if inMem.Some? {
        hit := inMem;
      } else if inImm.Some? {
        hit := inImm;
      } else {
        hit := Version.Get(levels, k, s);
      }
      LayersAnswer(levels, hist, immStart, memStart, mem, immRun, k, s, inMem, inImm, hit);
      r := if hit.Some? then Outcome(hit.value) else None;
      StoreIs(this, immRun);
      if intact {
        StoreReads(levels, hist, immStart, SmallestSnapshot(snapshots, lastSequence), k, s);
        StoreIsHistory(this, immRun, levels, hist, immStart, memStart);
      }
    }

    // ------------------------------------------------------------------------------ crashes

    /** What is published after a crash, and who is acknowledged by it. */
    ghost function Survived(keepInFlight: bool): seq<Op>
      requires lastSequence <= |hist|
      reads this
    {
      if keepInFlight then Logged(hist, lastSequence, write) else hist[..lastSequence]
    }

    ghost function Acknowledged(keepInFlight: bool): seq<Writer>
      reads this
    {
      if keepInFlight && write.Writing? && write.group <= |writers| then committed + writers[..write.group] else committed
    }

    /** Read the manifest and replay the logs it names. */
    method Recover(keepInFlight: bool, ghost survived: seq<Op>) returns (levels': seq<seq<File>>, next': nat, last: nat)
      requires Valid() && survived == Survived(keepInFlight)
      ensures last == |survived| && RecoveredTo(this, survived, Acknowledged(keepInFlight), levels', next') && next' > logfileNumber
      ensures AllEntries(levels') == AllEntries(levels) + Slice(survived, immStart, |survived|)
    {
      hide *;
      Parts(this);
      ghost var acknowledged := Acknowledged(keepInFlight);
      UnfoldSurvived(this, keepInFlight);
      var files := if keepInFlight then logs else TornLogs(logs, logfileNumber, write);
      SurvivingLogs(this, keepInFlight, survived, acknowledged, files);
      SurvivingFiles(this, survived);
      var maxSequence;
      levels', next', maxSequence := ReplayLogs(files, manifest.logNumber, manifest.levels, manifest.nextFile + 1,
                                                logfileNumber, nextFileNumber, survived, immStart, memStart);
      last := if manifest.lastSequence < maxSequence then maxSequence else manifest.lastSequence;
      RecoveredParts(this, survived, acknowledged, levels', next');
      ReplayingFacts(levels, levels', [], next', immStart, survived, |survived|);
    }

    /** Start over with empty memtables, no snapshots and nobody waiting. */
    method ResetMemory()
      modifies this`mem, this`imm, this`snapshots, this`writers, this`write, this`tmpBatch
      ensures mem == [] && imm == None && snapshots == [] && writers == [] && write == Idle && tmpBatch == []
    {
      mem, imm, snapshots := [], None, [];
      writers, write, tmpBatch := [], Idle, [];
    }

    /** Record the recovered files and start a new log. */
    method ResetFiles(levels': seq<seq<File>>, number: nat, last: nat)
      modifies this`levels, this`lastSequence, this`logfileNumber, this`nextFileNumber, this`logs, this`manifest
      ensures levels == levels' && lastSequence == last
      ensures logfileNumber == number && nextFileNumber == number + 1 && logs == map[number := []]
      ensures manifest == Manifest(levels', number, last, number + 1)
    {
      levels, lastSequence, logfileNumber, nextFileNumber := levels', last, number, number + 1;
      logs := map[number := []];
      manifest := Manifest(levels', number, last, number + 1);
    }

    ghost method ResetHistory(hist': seq<Op>, committed': seq<Writer>)
      modifies this`hist, this`committed, this`enqueued, this`immStart, this`memStart
      ensures hist == hist' && committed == committed' && enqueued == committed' && immStart == memStart == |hist'|
    {
      hist, committed, enqueued, immStart, memStart := hist', committed', committed', |hist'|, |hist'|;
    }

    /** The process dies and the database is opened again.  The record being written survives whole or
        not at all.  Everything acknowledged is back, nothing else is, and reads are as before. */
    method CrashAndRecover(keepInFlight: bool)
      requires Valid()
      modifies this
      ensures Valid() && write.Idle? && snapshots == [] && writers == [] && intact == old(intact)
      ensures hist == old(Survived(keepInFlight)) && lastSequence == |hist|
      ensures committed == old(Acknowledged(keepInFlight)) && enqueued == committed
      ensures mem == [] && imm == None && tmpBatch == [] && logs == map[logfileNumber := []] && immStart == memStart == |hist|
      ensures old(logfileNumber) < logfileNumber && nextFileNumber == logfileNumber + 1
      ensures manifest == Manifest(levels, logfileNumber, lastSequence, nextFileNumber)
      ensures AllEntries(levels) == old(AllEntries(levels)) + Slice(hist, old(immStart), |hist|)
    {
      hide *;
      Parts(this);
      ghost var survived, acknowledged := Survived(keepInFlight), Acknowledged(keepInFlight);
      var levels', next', last := Recover(keepInFlight, survived);
      UnfoldRecovered(this, survived, acknowledged, levels', next');
      ResetMemory();
      ResetFiles(levels', next', last);
      ResetHistory(survived, acknowledged);
      Assemble(this);
    }
  }

  // ------------------------------------------------------------------------- compaction steps

  /** The outputs hold exactly the input entries that neither drop rule removes. */
  ghost predicate Survivors(levels: seq<seq<File>>, c: Compaction, s0: nat, outputs: seq<File>) {
    forall e :: e in LevelEntries(outputs) <==> e in InputEntries(c) && !Dropped(levels, c.level, InputEntries(c), s0, e)
  }

  /** One compaction, as a step: the outputs take the inputs' place, the manifest follows, nothing else changes, and
      reads stay right exactly when they were and no key is exposed. */
  ghost predicate Compacted(pre: State, c: Compaction, outputs: seq<File>, plan: Plan, move: bool, post: State) {
    var s0 := SmallestSnapshot(pre.snapshots, pre.lastSequence);
    && |pre.levels| == NUM_LEVELS && c.level + 1 < NUM_LEVELS && GoodInputs(pre.levels, c)
    && Replaced(pre.levels, c, outputs, post.levels)
    && (if move then outputs == c.inputs0 && |c.inputs0| == 1 && c.inputs1 == [] && post.nextFileNumber == pre.nextFileNumber
        else
          && Survivors(pre.levels, c, s0, outputs) && OutputsFollow(pre.levels, c, s0, plan, pre.nextFileNumber, outputs)
          && AllWellFormed(outputs) && post.nextFileNumber == pre.nextFileNumber + |outputs|)
    && post == pre.(levels := post.levels, nextFileNumber := post.nextFileNumber,
                    manifest := Manifest(post.levels, pre.manifest.logNumber, pre.lastSequence, post.nextFileNumber),
                    intact := pre.intact && ExposesNothing(pre.levels, c, s0))
  }

  lemma FoldSurvivors(levels: seq<seq<File>>, c: Compaction, s0: nat, outputs: seq<File>)
    requires forall e :: e in LevelEntries(outputs) <==> e in InputEntries(c) && !Dropped(levels, c.level, InputEntries(c), s0, e)
    ensures Survivors(levels, c, s0, outputs)
  {
    hide LevelEntries, InputEntries, Dropped;
  }

  lemma NowIs(db: DBImpl)
    ensures db.Now() == State(db.mem, db.imm, db.levels, db.lastSequence, db.nextFileNumber, db.snapshots, db.writers, db.write, db.tmpBatch,
                              db.logs, db.logfileNumber, db.manifest, db.hist, db.committed, db.enqueued, db.immStart, db.memStart, db.intact)
  {
  }

  lemma FoldCompacted(pre: State, c: Compaction, outputs: seq<File>, plan: Plan, move: bool, post: State)
    requires |pre.levels| == NUM_LEVELS && c.level + 1 < NUM_LEVELS && GoodInputs(pre.levels, c) && Replaced(pre.levels, c, outputs, post.levels)
    requires move ==> outputs == c.inputs0 && |c.inputs0| == 1 && c.inputs1 == [] && post.nextFileNumber == pre.nextFileNumber
    requires !move ==>
               && Survivors(pre.levels, c, SmallestSnapshot(pre.snapshots, pre.lastSequence), outputs)
               && OutputsFollow(pre.levels, c, SmallestSnapshot(pre.snapshots, pre.lastSequence), plan, pre.nextFileNumber, outputs)
               && AllWellFormed(outputs) && post.nextFileNumber == pre.nextFileNumber + |outputs|
    requires post == pre.(levels := post.levels, nextFileNumber := post.nextFileNumber, manifest := post.manifest, intact := post.intact)
    requires post.manifest == Manifest(post.levels, pre.manifest.logNumber, pre.lastSequence, post.nextFileNumber)
    requires post.intact <==> pre.intact && ExposesNothing(pre.levels, c, SmallestSnapshot(pre.snapshots, pre.lastSequence))
    ensures Compacted(pre, c, outputs, plan, move, post)
  {
    hide GoodInputs, Replaced, Survivors, OutputsFollow, AllWellFormed, ExposesNothing;
  }

  /** With nothing to merge with in the next level, nothing there shares a key with the file moved. */
  lemma MoveExposesNothing(levels: seq<seq<File>>, c: Compaction, s0: nat)
    requires FilesOk(levels) && GoodInputs(levels, c) && |levels| == NUM_LEVELS && c.level + 1 < NUM_LEVELS && c.inputs1 == []
    ensures ExposesNothing(levels, c, s0)
  {
    NothingToClose(levels, c);
    hide *;
    UnfoldExposes(levels, c, s0);
    forall k ensures !ExposedBy(SplitOf({}, levels, c), s0, Markers(levels, c, s0), k) {
      ClosedExposesNothing({}, levels, c, s0, SplitOf({}, levels, c), Markers(levels, c, s0), k);
    }
  }

  lemma NothingToClose(levels: seq<seq<File>>, c: Compaction)
    requires |levels| == NUM_LEVELS && c.level + 1 < NUM_LEVELS && c.inputs1 == []
    ensures NextLevelClosed(levels, c)
  {
  }

  // ------------------------------------------------------------------- unfolding the parts

  /** A record being written is the last one of the current log. */
  ghost predicate LastLogged(logs: map<nat, seq<LogRecord>>, logfileNumber: nat, write: WriteState) {
    write.Writing? ==>
      logfileNumber in logs && logs[logfileNumber] != [] && logs[logfileNumber][|logs[logfileNumber]| - 1] == write.record
  }

  /** The invariant and its parts. */
  lemma Parts(db: DBImpl)
    requires db.Valid()
    ensures QueueOk(db.enqueued, db.committed, db.writers, db.write, db.tmpBatch, db.hist, db.lastSequence)
    ensures MemOk(db.hist, db.immStart, db.memStart, db.lastSequence, db.mem, db.imm)
    ensures db.lastSequence <= |db.hist| && |Logged(db.hist, db.lastSequence, db.write)| < MAX_SEQUENCE_NUMBER
    ensures LogsOk(db.logs, db.manifest.logNumber, db.logfileNumber, db.nextFileNumber, Logged(db.hist, db.lastSequence, db.write),
             db.immStart, db.memStart)
    ensures db.imm.None? <==> db.manifest.logNumber == db.logfileNumber
    ensures LastLogged(db.logs, db.logfileNumber, db.write)
    ensures FilesInv(db.levels, db.hist, db.immStart, db.nextFileNumber)
    ensures ManifestOk(db.manifest, db.levels, db.manifest.logNumber, db.immStart, db.lastSequence, db.nextFileNumber)
    ensures SnapsOk(db.snapshots, db.committed, db.lastSequence)
    ensures db.intact ==> BaseReads(db.levels, db.hist, db.immStart, SmallestSnapshot(db.snapshots, db.lastSequence))
  {
    hide QueueOk, MemOk, LogsOk, FilesInv, ManifestOk, SnapsOk, BaseReads, LastLogged, Logged;
  }

  lemma Assemble(db: DBImpl)
    requires QueueOk(db.enqueued, db.committed, db.writers, db.write, db.tmpBatch, db.hist, db.lastSequence)
    requires MemOk(db.hist, db.immStart, db.memStart, db.lastSequence, db.mem, db.imm)
    requires db.lastSequence <= |db.hist| && |Logged(db.hist, db.lastSequence, db.write)| < MAX_SEQUENCE_NUMBER
    requires LogsOk(db.logs, db.manifest.logNumber, db.logfileNumber, db.nextFileNumber, Logged(db.hist, db.lastSequence, db.write),
             db.immStart, db.memStart)
    requires db.imm.None? <==> db.manifest.logNumber == db.logfileNumber
    requires LastLogged(db.logs, db.logfileNumber, db.write)
    requires FilesInv(db.levels, db.hist, db.immStart, db.nextFileNumber)
    requires ManifestOk(db.manifest, db.levels, db.manifest.logNumber, db.immStart, db.lastSequence, db.nextFileNumber)
    requires SnapsOk(db.snapshots, db.committed, db.lastSequence)
    requires db.intact ==> BaseReads(db.levels, db.hist, db.immStart, SmallestSnapshot(db.snapshots, db.lastSequence))
    ensures db.Valid()
  {
    hide QueueOk, MemOk, LogsOk, FilesInv, ManifestOk, SnapsOk, BaseReads, LastLogged, Logged;
  }

  lemma EmptyLevels(levels: seq<seq<File>>)
    requires |levels| == NUM_LEVELS && forall l :: 0 <= l < NUM_LEVELS ==> levels[l] == []
    ensures FilesInv(levels, [], 0, 4) && BaseReads(levels, [], 0, 0) && NumbersBelow(levels, 4)
  {
    var none: seq<Op> := [];
    assert AllEntries(levels) == {} == EntriesOf(none) && none[..0] == none;
    assert forall l, f :: 0 <= l < NUM_LEVELS ==> f !in levels[l];
  }

  lemma EmptyParts(logs: map<nat, seq<LogRecord>>)
    requires logs == map[3 := []]
    ensures LogsOk(logs, 3, 3, 4, Logged([], 0, Idle), 0, 0) && MemOk([], 0, 0, 0, [], None)
    ensures QueueOk([], [], [], Idle, [], [], 0)
  {
    assert Slice([], 0, 0) == {};
  }

  lemma QueueIdle(enqueued: seq<Writer>, committed: seq<Writer>, writers: seq<Writer>, write: WriteState,
                  tmpBatch: seq<Op>, hist: seq<Op>, lastSequence: nat)
    requires QueueOk(enqueued, committed, writers, write, tmpBatch, hist, lastSequence) && write.Idle?
    ensures lastSequence == |hist| && tmpBatch == []
  {
  }

  lemma QueueWriting(enqueued: seq<Writer>, committed: seq<Writer>, writers: seq<Writer>, write: WriteState,
                     tmpBatch: seq<Op>, hist: seq<Op>, lastSequence: nat)
    requires QueueOk(enqueued, committed, writers, write, tmpBatch, hist, lastSequence) && write.Writing?
    ensures 1 <= write.group <= |writers| && write.record.seqno == lastSequence + 1
    ensures write.record.ops == BatchOps(writers[..write.group]) && write.applied <= |write.record.ops|
    ensures lastSequence + write.applied == |hist| && hist[lastSequence..] == write.record.ops[..write.applied]
    ensures write.applied == |write.record.ops| ==> BatchOps(writers[..write.group]) == hist[lastSequence..]
  {
    hide BatchOps;
    assert |hist[lastSequence..]| == write.applied;
  }

  lemma QueueBegins(enqueued: seq<Writer>, committed: seq<Writer>, writers: seq<Writer>, tmpBatch: seq<Op>, tmpBatch': seq<Op>,
                    hist: seq<Op>, lastSequence: nat, record: LogRecord, n: nat)
    requires QueueOk(enqueued, committed, writers, Idle, tmpBatch, hist, lastSequence)
    requires 1 <= n <= |writers| && record == LogRecord(lastSequence + 1, BatchOps(writers[..n]))
    ensures QueueOk(enqueued, committed, writers, Writing(record, 0, n), tmpBatch', hist, lastSequence)
  {
    hide BatchOps;
    assert hist[lastSequence..] == record.ops[..0];
  }

  lemma QueueInserts(enqueued: seq<Writer>, committed: seq<Writer>, writers: seq<Writer>, write: WriteState,
                     tmpBatch: seq<Op>, hist: seq<Op>, lastSequence: nat, op: Op)
    requires QueueOk(enqueued, committed, writers, write, tmpBatch, hist, lastSequence)
    requires write.Writing? && write.applied < |write.record.ops| && op == write.record.ops[write.applied]
    ensures QueueOk(enqueued, committed, writers, write.(applied := write.applied + 1), tmpBatch, hist + [op], lastSequence)
  {
    hide BatchOps;
    assert (hist + [op])[..lastSequence] == hist[..lastSequence];
    assert (hist + [op])[lastSequence..] == hist[lastSequence..] + [op];
    assert write.record.ops[..write.applied + 1] == write.record.ops[..write.applied] + [op];
  }

  lemma GroupWithinQueue(writers: seq<Writer>, n: nat)
    requires IsGroup(writers, n)
    ensures 1 <= n <= |writers| && |BatchOps(writers[..n])| <= |BatchOps(writers)|
  {
    BatchOpsMonotone(writers, n, |writers|);
    assert writers[..|writers|] == writers;
  }

  lemma EmptyBatch(writers: seq<Writer>, hist: seq<Op>)
    requires writers != [] && writers[0].batch.None?
    ensures BatchOps(writers[..1]) == hist[|hist|..]
  {
    BatchOpsStep(writers, 0);
  }

  lemma LogsFacts(logs: map<nat, seq<LogRecord>>, logNumber: nat, logfileNumber: nat, nextFile: nat,
                  logged: seq<Op>, immStart: nat, memStart: nat)
    requires LogsOk(logs, logNumber, logfileNumber, nextFile, logged, immStart, memStart)
    ensures logNumber in logs && logfileNumber in logs && logNumber <= logfileNumber < nextFile
    ensures logNumber == logfileNumber ==> immStart == memStart
  {
    hide Chained, OpsOf;
  }

  lemma RecordLogged(logs: map<nat, seq<LogRecord>>, logs': map<nat, seq<LogRecord>>, logfileNumber: nat, write: WriteState)
    requires logfileNumber in logs && write.Writing? && logs' == logs[logfileNumber := logs[logfileNumber] + [write.record]]
    ensures LastLogged(logs', logfileNumber, write)
  {
  }

  lemma NothingInFlight(logs: map<nat, seq<LogRecord>>, logfileNumber: nat, write: WriteState)
    requires write.Idle?
    ensures LastLogged(logs, logfileNumber, write)
  {
  }

  lemma LastLoggedSame(logs: map<nat, seq<LogRecord>>, logfileNumber: nat, write: WriteState, write': WriteState)
    requires LastLogged(logs, logfileNumber, write) && write.Writing? && write'.Writing? && write.record == write'.record
    ensures LastLogged(logs, logfileNumber, write')
  {
  }

  lemma LoggedBegins(hist: seq<Op>, lastSequence: nat, write: WriteState)
    requires lastSequence == |hist| && write.Writing?
    ensures Logged(hist, lastSequence, write) == Logged(hist, lastSequence, Idle) + write.record.ops
    ensures |Logged(hist, lastSequence, write)| == lastSequence + |write.record.ops|
  {
  }

  lemma LoggedSame(hist: seq<Op>, hist': seq<Op>, lastSequence: nat, write: WriteState, write': WriteState)
    requires lastSequence <= |hist| && hist <= hist' && write.Writing? && write'.Writing? && write.record == write'.record
    ensures Logged(hist, lastSequence, write) == Logged(hist', lastSequence, write')
  {
    assert hist'[..lastSequence] == hist[..lastSequence];
  }

  lemma LoggedPublishes(hist: seq<Op>, lastSequence: nat, write: WriteState)
    requires lastSequence <= |hist| && write.Writing? && hist[lastSequence..] == write.record.ops
    ensures Logged(hist, lastSequence, write) == Logged(hist, |hist|, Idle) && |hist| == lastSequence + |write.record.ops|
  {
    assert hist[..|hist|] == hist[..lastSequence] + hist[lastSequence..];
    assert |hist[lastSequence..]| == |hist| - lastSequence;
  }

  lemma LoggedIdle(hist: seq<Op>, lastSequence: nat, write: WriteState)
    requires lastSequence == |hist| && write.Idle?
    ensures Logged(hist, lastSequence, write) == hist
  {
  }

  lemma MemFacts(hist: seq<Op>, immStart: nat, memStart: nat, lastSequence: nat, mem: seq<Entry>, imm: Option<seq<Entry>>)
    requires MemOk(hist, immStart, memStart, lastSequence, mem, imm)
    ensures immStart <= memStart <= lastSequence <= |hist| && Sorted(mem) && Contents(mem) == Slice(hist, memStart, |hist|)
    ensures imm.None? ==> immStart == memStart
    ensures imm.Some? ==> Sorted(imm.value) && Contents(imm.value) == Slice(hist, immStart, memStart)
  {
    hide Sorted, Contents, Slice;
  }

  lemma FilesFacts(levels: seq<seq<File>>, hist: seq<Op>, immStart: nat, nextFile: nat)
    requires FilesInv(levels, hist, immStart, nextFile)
    ensures Inv(levels) && HoldsPrefix(levels, hist, immStart) && NumbersBelow(levels, nextFile) && |levels| == NUM_LEVELS > 0
  {
    hide HoldsPrefix, NumbersBelow;
  }

  lemma ManifestLater(m: Manifest, levels: seq<seq<File>>, logNumber: nat, immStart: nat, lastSequence: nat, nextFile: nat,
                      last': nat, next': nat)
    requires ManifestOk(m, levels, logNumber, immStart, lastSequence, nextFile) && lastSequence <= last' && nextFile <= next'
    ensures ManifestOk(m, levels, logNumber, immStart, last', next')
  {
    hide NumbersBelow;
  }

  lemma SmallestLater(snapshots: seq<Snapshot>, lastSequence: nat, last': nat)
    requires lastSequence <= last'
    ensures SmallestSnapshot(snapshots, lastSequence) <= SmallestSnapshot(snapshots, last')
  {
  }

  lemma BaseReadsSame(levels: seq<seq<File>>, hist: seq<Op>, hist': seq<Op>, immStart: nat, low: nat)
    requires BaseReads(levels, hist, immStart, low) && immStart <= |hist'| && hist'[..immStart] == hist[..immStart]
    ensures BaseReads(levels, hist', immStart, low)
  {
    hide Agree, AllEntries, EntriesOf;
  }

  // ---------------------------------------------------------------------- background work

  lemma HistWithinLogged(enqueued: seq<Writer>, committed: seq<Writer>, writers: seq<Writer>, write: WriteState,
                         tmpBatch: seq<Op>, hist: seq<Op>, lastSequence: nat)
    requires QueueOk(enqueued, committed, writers, write, tmpBatch, hist, lastSequence)
    requires lastSequence <= |hist| && |Logged(hist, lastSequence, write)| < MAX_SEQUENCE_NUMBER
    ensures |hist| <= MAX_SEQUENCE_NUMBER
  {
    hide BatchOps;
    if write.Writing? {
      assert |hist[lastSequence..]| == write.applied;
    }
  }

  lemma LastBelowMax(hist: seq<Op>, lastSequence: nat, write: WriteState)
    requires lastSequence <= |hist| && |Logged(hist, lastSequence, write)| < MAX_SEQUENCE_NUMBER
    ensures lastSequence < MAX_SEQUENCE_NUMBER
  {
  }

  lemma FilesFold(levels: seq<seq<File>>, hist: seq<Op>, immStart: nat, nextFile: nat)
    requires Inv(levels) && HoldsPrefix(levels, hist, immStart) && NumbersBelow(levels, nextFile)
    ensures FilesInv(levels, hist, immStart, nextFile)
  {
    hide Inv, HoldsPrefix, NumbersBelow;
  }

  lemma ManifestFold(m: Manifest, levels: seq<seq<File>>, logNumber: nat, immStart: nat, lastSequence: nat, nextFile: nat)
    requires m == Manifest(levels, logNumber, lastSequence, nextFile) && NumbersBelow(levels, nextFile) && immStart <= lastSequence
    ensures ManifestOk(m, levels, logNumber, immStart, lastSequence, nextFile)
  {
    hide NumbersBelow;
  }

  lemma FlushedParts(db: DBImpl, levels': seq<seq<File>>, manifest': Manifest)
    requires db.Valid()
    requires manifest' == Manifest(levels', db.logfileNumber, db.lastSequence, db.nextFileNumber + 1)
    requires db.memStart <= |db.hist| && Inv(levels') && HoldsPrefix(levels', db.hist, db.memStart) && NumbersBelow(levels', db.nextFileNumber + 1)
    requires AllEntries(levels') == AllEntries(db.levels) + Slice(db.hist, db.immStart, db.memStart)
    ensures db.lastSequence <= |db.hist|
    ensures MemOk(db.hist, db.memStart, db.memStart, db.lastSequence, db.mem, None)
    ensures LogsOk(db.logs, db.logfileNumber, db.logfileNumber, db.nextFileNumber + 1, Logged(db.hist, db.lastSequence, db.write),
                   db.memStart, db.memStart)
    ensures FilesInv(levels', db.hist, db.memStart, db.nextFileNumber + 1)
    ensures ManifestOk(manifest', levels', db.logfileNumber, db.memStart, db.lastSequence, db.nextFileNumber + 1)
    ensures db.intact ==> BaseReads(levels', db.hist, db.memStart, SmallestSnapshot(db.snapshots, db.lastSequence))
  {
    hide *;
    Parts(db);
    FilesFacts(db.levels, db.hist, db.immStart, db.nextFileNumber);
    MemFacts(db.hist, db.immStart, db.memStart, db.lastSequence, db.mem, db.imm);
    MemFlushed(db.hist, db.immStart, db.memStart, db.lastSequence, db.mem, db.imm);
    var logged := Logged(db.hist, db.lastSequence, db.write);
    LogsFlushed(db.logs, db.manifest.logNumber, db.logfileNumber, db.nextFileNumber, logged, db.immStart, db.memStart);
    LogsNext(db.logs, db.logfileNumber, db.logfileNumber, db.nextFileNumber, logged, db.memStart, db.memStart, db.nextFileNumber + 1);
    FilesFold(levels', db.hist, db.memStart, db.nextFileNumber + 1);
    ManifestFold(manifest', levels', db.logfileNumber, db.memStart, db.lastSequence, db.nextFileNumber + 1);
    if db.intact {
      BaseReadsFlushed(db.levels, db.hist, db.immStart, db.memStart, SmallestSnapshot(db.snapshots, db.lastSequence), levels');
    }
  }

  lemma CompactedParts(db: DBImpl, levels': seq<seq<File>>, next': nat, manifest': Manifest, intact': bool)
    requires db.Valid()
    requires manifest' == Manifest(levels', db.manifest.logNumber, db.lastSequence, next')
    requires Inv(levels') && NumbersBelow(levels', next') && db.nextFileNumber <= next'
    requires AllEntries(levels') <= AllEntries(db.levels)
    requires intact' ==> db.intact && Agree(AllEntries(levels'), AllEntries(db.levels), SmallestSnapshot(db.snapshots, db.lastSequence))
    ensures db.lastSequence <= |db.hist|
    ensures LogsOk(db.logs, db.manifest.logNumber, db.logfileNumber, next', Logged(db.hist, db.lastSequence, db.write),
                   db.immStart, db.memStart)
    ensures FilesInv(levels', db.hist, db.immStart, next')
    ensures ManifestOk(manifest', levels', db.manifest.logNumber, db.immStart, db.lastSequence, next')
    ensures intact' ==> BaseReads(levels', db.hist, db.immStart, SmallestSnapshot(db.snapshots, db.lastSequence))
  {
    hide *;
    Parts(db);
    FilesFacts(db.levels, db.hist, db.immStart, db.nextFileNumber);
    MemFacts(db.hist, db.immStart, db.memStart, db.lastSequence, db.mem, db.imm);
    LogsNext(db.logs, db.manifest.logNumber, db.logfileNumber, db.nextFileNumber, Logged(db.hist, db.lastSequence, db.write),
             db.immStart, db.memStart, next');
    FewerHoldPrefix(db.levels, levels', db.hist, db.immStart);
    FilesFold(levels', db.hist, db.immStart, next');
    ManifestFold(manifest', levels', db.manifest.logNumber, db.immStart, db.lastSequence, next');
    if intact' {
      BaseReadsCompacted(db.levels, db.hist, db.immStart, SmallestSnapshot(db.snapshots, db.lastSequence), levels');
    }
  }

  lemma AgreeSame(S: set<Entry>, low: nat)
    ensures Agree(S, S, low)
  {
  }

  lemma MoveFacts(levels: seq<seq<File>>, c: Compaction, maxGrandParentOverlap: nat)
    requires |levels| == NUM_LEVELS
    ensures IsTrivialMove(levels, c, maxGrandParentOverlap) ==> |c.inputs0| == 1 && c.inputs1 == []
  {
  }

  lemma TrimmedKeepsLast(logs: map<nat, seq<LogRecord>>, logs': map<nat, seq<LogRecord>>, logNumber: nat, logfileNumber: nat,
                         nextFile: nat, logged: seq<Op>, immStart: nat, memStart: nat, write: WriteState)
    requires LogsOk(logs, logNumber, logfileNumber, nextFile, logged, immStart, memStart) && LastLogged(logs, logfileNumber, write)
    requires logs' == map n | n in logs && n >= logNumber :: logs[n]
    ensures LastLogged(logs', logfileNumber, write)
  {
    hide Chained, OpsOf;
  }

  // ------------------------------------------------------------------------------- reads

  lemma PublishedLength(enqueued: seq<Writer>, committed: seq<Writer>, writers: seq<Writer>, write: WriteState,
                        tmpBatch: seq<Op>, hist: seq<Op>, lastSequence: nat)
    requires QueueOk(enqueued, committed, writers, write, tmpBatch, hist, lastSequence)
    ensures lastSequence <= |hist| && BatchOps(committed) == hist[..lastSequence] && lastSequence == |BatchOps(committed)|
  {
    hide BatchOps;
    assert |hist[..lastSequence]| == lastSequence;
  }

  lemma SmallestTaken(snapshots: seq<Snapshot>, lastSequence: nat, id: nat)
    ensures SmallestSnapshot(snapshots + [Snapshot(id, lastSequence)], lastSequence) == SmallestSnapshot(snapshots, lastSequence)
  {
  }

  lemma SnapshotAtBoundary(snapshots: seq<Snapshot>, committed: seq<Writer>, lastSequence: nat, x: Snapshot)
    requires SnapsOk(snapshots, committed, lastSequence) && x in snapshots
    ensures Boundary(committed, x.seqno)
  {
    hide Boundary;
  }

  /** A reader's sequence number lies between the oldest snapshot and the last published one. */
  lemma ReadablePoint(db: DBImpl, snapshot: Option<Snapshot>, s: nat)
    requires db.Valid() && (snapshot.Some? ==> snapshot.value in db.snapshots)
    requires s == if snapshot.Some? then snapshot.value.seqno else db.lastSequence
    ensures SmallestSnapshot(db.snapshots, db.lastSequence) <= s <= db.lastSequence <= |db.hist|
    ensures Boundary(db.committed, s) && s <= |BatchOps(db.committed)| && BatchOps(db.committed)[..s] == db.hist[..s]
    ensures SeesWholeBatches(db.committed, s)
  {
    hide *;
    Parts(db);
    SmallestIsSmallest(db.snapshots, db.committed, db.lastSequence);
    PublishedLength(db.enqueued, db.committed, db.writers, db.write, db.tmpBatch, db.hist, db.lastSequence);
    EndIsBoundary(db.committed);
    if snapshot.Some? {
      SnapshotAtBoundary(db.snapshots, db.committed, db.lastSequence, snapshot.value);
    }
    assert db.hist[..db.lastSequence][..s] == db.hist[..s];
    BoundarySeesWholeBatches(db.committed, s);
  }

  lemma ImmRun(hist: seq<Op>, immStart: nat, memStart: nat, imm: Option<seq<Entry>>, run: seq<Entry>)
    requires immStart <= memStart <= |hist| && run == if imm.Some? then imm.value else []
    requires imm.None? ==> immStart == memStart
    requires imm.Some? ==> Sorted(imm.value) && Contents(imm.value) == Slice(hist, immStart, memStart)
    ensures Sorted(run) && Contents(run) == Slice(hist, immStart, memStart)
  {
  }

  lemma LayersAnswer(levels: seq<seq<File>>, hist: seq<Op>, immStart: nat, memStart: nat, mem: seq<Entry>, immRun: seq<Entry>,
                     k: UserKey, s: nat, inMem: Option<Entry>, inImm: Option<Entry>, hit: Option<Entry>)
    requires HoldsPrefix(levels, hist, immStart) && immStart <= memStart <= |hist|
    requires Contents(mem) == Slice(hist, memStart, |hist|) && Contents(immRun) == Slice(hist, immStart, memStart)
    requires Answers(Contents(mem), k, s, inMem) && Answers(Contents(immRun), k, s, inImm)
    requires inMem.Some? ==> hit == inMem
    requires inMem.None? && inImm.Some? ==> hit == inImm
    requires inMem.None? && inImm.None? ==> Answers(AllEntries(levels), k, s, hit)
    ensures Read(Contents(mem) + (Contents(immRun) + AllEntries(levels)), k, s) == if hit.Some? then Outcome(hit.value) else None
  {
    hide *;
    StoreLayers(levels, hist, immStart, memStart, Contents(mem), Contents(immRun));
    if inMem.None? {
      AnswersLayered(Contents(immRun), AllEntries(levels), k, s, inImm, hit);
    }
    AnswersLayered(Contents(mem), Contents(immRun) + AllEntries(levels), k, s, inMem, hit);
    AnswersIsRead(Contents(mem) + (Contents(immRun) + AllEntries(levels)), k, s, hit);
  }

  lemma StoreLayers(levels: seq<seq<File>>, hist: seq<Op>, immStart: nat, memStart: nat, M: set<Entry>, I: set<Entry>)
    requires HoldsPrefix(levels, hist, immStart) && immStart <= memStart <= |hist|
    requires M == Slice(hist, memStart, |hist|) && I == Slice(hist, immStart, memStart)
    ensures Newer(I, AllEntries(levels)) && Newer(M, I + AllEntries(levels)) && Distinct(M + (I + AllEntries(levels)))
  {
    SliceSplits(hist, 0, immStart, memStart);
    SlicesApart(hist, immStart, memStart);
    SlicesApart(hist, memStart, |hist|);
    assert forall e :: e in I + AllEntries(levels) ==> e in Slice(hist, 0, memStart);
    hide Slice, AllEntries;
  }

  lemma StoreIs(db: DBImpl, immRun: seq<Entry>)
    requires immRun == if db.imm.Some? then db.imm.value else []
    ensures db.Store() == Contents(db.mem) + (Contents(immRun) + AllEntries(db.levels))
  {
    hide Contents, AllEntries;
  }

  lemma StoreIsHistory(db: DBImpl, immRun: seq<Entry>, levels: seq<seq<File>>, hist: seq<Op>, immStart: nat, memStart: nat)
    requires immStart <= memStart <= |hist| && levels == db.levels
    requires db.Store() == Contents(db.mem) + (Contents(immRun) + AllEntries(levels))
    requires Contents(db.mem) == Slice(hist, memStart, |hist|) && Contents(immRun) == Slice(hist, immStart, memStart)
    ensures db.Store() == AllEntries(levels) + Slice(hist, immStart, |hist|)
  {
    hide *;
    SliceSplits(hist, immStart, memStart, |hist|);
    Reorder(Contents(db.mem), Contents(immRun), AllEntries(levels));
  }

  lemma Reorder(M: set<Entry>, I: set<Entry>, F: set<Entry>)
    ensures M + (I + F) == F + (I + M)
  {
  }

  // ------------------------------------------------------------------------------ crashes

  /** The logs without the record that was being written. */
  function TornLogs(logs: map<nat, seq<LogRecord>>, logfileNumber: nat, write: WriteState): map<nat, seq<LogRecord>> {
    if write.Writing? && logfileNumber in logs && logs[logfileNumber] != []
    then logs[logfileNumber := logs[logfileNumber][..|logs[logfileNumber]| - 1]]
    else logs
  }

  lemma SurvivingLogs(db: DBImpl, keepInFlight: bool, survived: seq<Op>, acknowledged: seq<Writer>, files: map<nat, seq<LogRecord>>)
    requires db.Valid() && db.lastSequence <= |db.hist|
    requires survived == if keepInFlight then Logged(db.hist, db.lastSequence, db.write) else db.hist[..db.lastSequence]
    requires acknowledged == if keepInFlight && db.write.Writing? && db.write.group <= |db.writers|
                             then db.committed + db.writers[..db.write.group] else db.committed
    requires files == if keepInFlight then db.logs else TornLogs(db.logs, db.logfileNumber, db.write)
    ensures LogsOk(files, db.manifest.logNumber, db.logfileNumber, db.nextFileNumber, survived, db.immStart, db.memStart)
    ensures |survived| < MAX_SEQUENCE_NUMBER && db.lastSequence <= |survived| && survived[..db.lastSequence] == db.hist[..db.lastSequence]
    ensures BatchOps(acknowledged) == survived
  {
    hide *;
    Parts(db);
    MemFacts(db.hist, db.immStart, db.memStart, db.lastSequence, db.mem, db.imm);
    PublishedLength(db.enqueued, db.committed, db.writers, db.write, db.tmpBatch, db.hist, db.lastSequence);
    LoggedIs(db.hist, db.lastSequence, db.write);
    var published := db.hist[..db.lastSequence];
    if db.write.Writing? {
      QueueWriting(db.enqueued, db.committed, db.writers, db.write, db.tmpBatch, db.hist, db.lastSequence);
      BatchOpsConcat(db.committed, db.writers[..db.write.group]);
      if !keepInFlight {
        TornLogsAre(db.logs, db.logfileNumber, db.write);
        LogsTorn(db.logs, db.manifest.logNumber, db.logfileNumber, db.nextFileNumber, published, db.immStart, db.memStart,
                 db.write.record, files);
      }
    } else {
      TornLogsSame(db.logs, db.logfileNumber, db.write);
    }
  }

  lemma LoggedIs(hist: seq<Op>, lastSequence: nat, write: WriteState)
    requires lastSequence <= |hist|
    ensures write.Writing? ==> Logged(hist, lastSequence, write) == hist[..lastSequence] + write.record.ops
    ensures write.Idle? ==> Logged(hist, lastSequence, write) == hist[..lastSequence]
  {
  }

  lemma TornLogsAre(logs: map<nat, seq<LogRecord>>, logfileNumber: nat, write: WriteState)
    requires LastLogged(logs, logfileNumber, write) && write.Writing?
    ensures logfileNumber in logs && logs[logfileNumber] != [] && logs[logfileNumber][|logs[logfileNumber]| - 1] == write.record
    ensures TornLogs(logs, logfileNumber, write) == logs[logfileNumber := logs[logfileNumber][..|logs[logfileNumber]| - 1]]
  {
  }

  lemma TornLogsSame(logs: map<nat, seq<LogRecord>>, logfileNumber: nat, write: WriteState)
    requires write.Idle?
    ensures TornLogs(logs, logfileNumber, write) == logs
  {
  }

  lemma SamePrefix(levels: seq<seq<File>>, hist: seq<Op>, survived: seq<Op>, n: nat)
    requires HoldsPrefix(levels, hist, n) && n <= |survived| && survived[..n] == hist[..n]
    ensures HoldsPrefix(levels, survived, n) && HoldsPrefix(levels, survived[..n], n)
  {
    hide AllEntries;
    PrefixEntries(hist, n);
    PrefixEntries(survived, n);
    SliceWhole(survived[..n]);
    hide Slice;
  }

  lemma ManifestFacts(m: Manifest, levels: seq<seq<File>>, logNumber: nat, immStart: nat, lastSequence: nat, nextFile: nat)
    requires ManifestOk(m, levels, logNumber, immStart, lastSequence, nextFile)
    ensures m.levels == levels && immStart <= m.lastSequence <= lastSequence && NumbersBelow(levels, m.nextFile)
  {
    hide NumbersBelow;
  }

  /** The manifest's files hold the history up to the first log that is replayed. */
  lemma SurvivingFiles(db: DBImpl, survived: seq<Op>)
    requires db.Valid() && db.lastSequence <= |db.hist| && db.lastSequence <= |survived|
    requires survived[..db.lastSequence] == db.hist[..db.lastSequence]
    ensures db.immStart <= db.manifest.lastSequence <= db.lastSequence
    ensures db.manifest.levels == db.levels && HoldsPrefix(db.levels, survived, db.immStart)
    ensures Replaying(db.levels, db.levels, [], db.manifest.nextFile + 1, db.immStart, survived[..db.immStart], db.immStart)
    ensures db.intact ==> BaseReads(db.levels, survived, db.immStart, SmallestSnapshot(db.snapshots, db.lastSequence))
    ensures SmallestSnapshot(db.snapshots, db.lastSequence) <= db.lastSequence
  {
    hide *;
    Parts(db);
    FilesFacts(db.levels, db.hist, db.immStart, db.nextFileNumber);
    ManifestFacts(db.manifest, db.levels, db.manifest.logNumber, db.immStart, db.lastSequence, db.nextFileNumber);
    SmallestIsSmallest(db.snapshots, db.committed, db.lastSequence);
    var n := db.immStart;
    assert survived[..n] == survived[..db.lastSequence][..n] && db.hist[..n] == db.hist[..db.lastSequence][..n];
    SamePrefix(db.levels, db.hist, survived, n);
    NumbersBelowMore(db.levels, db.manifest.nextFile);
    ReplayingStarts(db.levels, db.manifest.nextFile + 1, survived[..n]);
    if db.intact {
      BaseReadsSame(db.levels, db.hist, survived, n, SmallestSnapshot(db.snapshots, db.lastSequence));
    }
  }

  /** Every part of the invariant, for the reopened database. */
  ghost predicate RecoveredTo(db: DBImpl, survived: seq<Op>, acknowledged: seq<Writer>, levels': seq<seq<File>>, next': nat)
    reads db
  {
    && QueueOk(acknowledged, acknowledged, [], Idle, [], survived, |survived|)
    && MemOk(survived, |survived|, |survived|, |survived|, [], None)
    && |Logged(survived, |survived|, Idle)| < MAX_SEQUENCE_NUMBER
    && LogsOk(map[next' := []], next', next', next' + 1, Logged(survived, |survived|, Idle), |survived|, |survived|)
    && LastLogged(map[next' := []], next', Idle)
    && FilesInv(levels', survived, |survived|, next' + 1)
    && ManifestOk(Manifest(levels', next', |survived|, next' + 1), levels', next', |survived|, |survived|, next' + 1)
    && SnapsOk([], acknowledged, |survived|)
    && (db.intact ==> BaseReads(levels', survived, |survived|, SmallestSnapshot([], |survived|)))
  }

  lemma UnfoldRecovered(db: DBImpl, survived: seq<Op>, acknowledged: seq<Writer>, levels': seq<seq<File>>, next': nat)
    requires RecoveredTo(db, survived, acknowledged, levels', next')
    ensures QueueOk(acknowledged, acknowledged, [], Idle, [], survived, |survived|)
    ensures MemOk(survived, |survived|, |survived|, |survived|, [], None)
    ensures |Logged(survived, |survived|, Idle)| < MAX_SEQUENCE_NUMBER
    ensures LogsOk(map[next' := []], next', next', next' + 1, Logged(survived, |survived|, Idle), |survived|, |survived|)
    ensures LastLogged(map[next' := []], next', Idle)
    ensures FilesInv(levels', survived, |survived|, next' + 1)
    ensures ManifestOk(Manifest(levels', next', |survived|, next' + 1), levels', next', |survived|, |survived|, next' + 1)
    ensures SnapsOk([], acknowledged, |survived|)
    ensures (db.intact ==> BaseReads(levels', survived, |survived|, SmallestSnapshot([], |survived|)))
  {
    hide QueueOk, MemOk, LogsOk, FilesInv, ManifestOk, SnapsOk, BaseReads, LastLogged, Logged;
  }

  lemma UnfoldSurvived(db: DBImpl, keepInFlight: bool)
    requires db.lastSequence <= |db.hist|
    ensures db.Survived(keepInFlight) == if keepInFlight then Logged(db.hist, db.lastSequence, db.write) else db.hist[..db.lastSequence]
    ensures db.Acknowledged(keepInFlight) ==
            if keepInFlight && db.write.Writing? && db.write.group <= |db.writers| then db.committed + db.writers[..db.write.group]
            else db.committed
  {
    hide Logged;
  }

  lemma RecoveredParts(db: DBImpl, survived: seq<Op>, acknowledged: seq<Writer>, levels': seq<seq<File>>, next': nat)
    requires db.lastSequence <= |survived| < MAX_SEQUENCE_NUMBER && BatchOps(acknowledged) == survived
    requires db.immStart <= |survived| && HoldsPrefix(db.levels, survived, db.immStart)
    requires Replaying(db.levels, levels', [], next', db.immStart, survived, |survived|)
    requires SmallestSnapshot(db.snapshots, db.lastSequence) <= db.lastSequence
    requires db.intact ==> BaseReads(db.levels, survived, db.immStart, SmallestSnapshot(db.snapshots, db.lastSequence))
    ensures RecoveredTo(db, survived, acknowledged, levels', next')
  {
    hide QueueOk, MemOk, LogsOk, FilesInv, ManifestOk, SnapsOk, BaseReads, LastLogged, Logged, Replaying, BatchOps, HoldsPrefix, SmallestSnapshot;
    LoggedIdle(survived, |survived|, Idle);
    FreshParts(survived, acknowledged, next');
    RecoveredFiles(db, survived, levels', next');
  }

  lemma RecoveredFiles(db: DBImpl, survived: seq<Op>, levels': seq<seq<File>>, next': nat)
    requires db.lastSequence <= |survived|
    requires db.immStart <= |survived| && HoldsPrefix(db.levels, survived, db.immStart)
    requires Replaying(db.levels, levels', [], next', db.immStart, survived, |survived|)
    requires SmallestSnapshot(db.snapshots, db.lastSequence) <= db.lastSequence
    requires db.intact ==> BaseReads(db.levels, survived, db.immStart, SmallestSnapshot(db.snapshots, db.lastSequence))
    ensures FilesInv(levels', survived, |survived|, next' + 1)
    ensures ManifestOk(Manifest(levels', next', |survived|, next' + 1), levels', next', |survived|, |survived|, next' + 1)
    ensures db.intact ==> BaseReads(levels', survived, |survived|, SmallestSnapshot([], |survived|))
  {
    hide *;
    var last := |survived|;
    ReplayingFacts(db.levels, levels', [], next', db.immStart, survived, last);
    NumbersBelowMore(levels', next');
    FilesFold(levels', survived, last, next' + 1);
    ManifestFold(Manifest(levels', next', last, next' + 1), levels', next', last, last, next' + 1);
    if db.intact {
      var low := SmallestSnapshot(db.snapshots, db.lastSequence);
      BaseReadsFlushed(db.levels, survived, db.immStart, last, low, levels');
      NoSnapshots(last);
      BaseReadsHigher(levels', survived, last, low, last);
    }
  }

  lemma NoSnapshots(last: nat)
    ensures SmallestSnapshot([], last) == last
  {
  }

  lemma FreshParts(hist: seq<Op>, committed: seq<Writer>, number: nat)
    requires BatchOps(committed) == hist
    ensures QueueOk(committed, committed, [], Idle, [], hist, |hist|)
    ensures MemOk(hist, |hist|, |hist|, |hist|, [], None)
    ensures LogsOk(map[number := []], number, number, number + 1, hist, |hist|, |hist|)
    ensures LastLogged(map[number := []], number, Idle) && SnapsOk([], committed, |hist|)
  {
    hide BatchOps;
    assert Slice(hist, |hist|, |hist|) == {};
    assert committed + [] == committed && hist[..|hist|] == hist;
    var none: seq<LogRecord> := [];
    assert Chained(none, |hist|) && OpsOf(none) == hist[|hist|..];
  }
}
