/** The database invariant, one part per component, and how each kind of step keeps each part.

    `hist` is every operation put into a memtable so far; the operation at index `i` carries sequence
    number `i + 1`.  Operations before `immStart` are in table files, those up to `memStart` in the
    immutable memtable, the rest in the memtable. */
module DbState {
  import opened DbFormat
  import opened Reads
  import opened Version
  import opened MemTable
  import opened Flush
  import opened WriteGroups

  /** The write in progress: its record is in the log, its first `applied` operations are in the
      memtable, and it acknowledges the first `group` writers of the queue when done. */
  datatype WriteState = Idle | Writing(record: LogRecord, applied: nat, group: nat)

  datatype Snapshot = Snapshot(id: nat, seqno: nat)

  /** What the manifest's last record determines. */
  datatype Manifest = Manifest(levels: seq<seq<File>>, logNumber: nat, lastSequence: nat, nextFile: nat)

  /** Everything a database consists of at one moment. */
  datatype State = State(mem: seq<Entry>, imm: Option<seq<Entry>>, levels: seq<seq<File>>, lastSequence: nat, nextFileNumber: nat,
                         snapshots: seq<Snapshot>, writers: seq<Writer>, write: WriteState, tmpBatch: seq<Op>,
                         logs: map<nat, seq<LogRecord>>, logfileNumber: nat, manifest: Manifest,
                         hist: seq<Op>, committed: seq<Writer>, enqueued: seq<Writer>, immStart: nat, memStart: nat, intact: bool)

  /** A new, empty database: the first log is number 3. */
  function InitialState(): State {
    State([], None, seq(NUM_LEVELS, _ => []), 0, 4, [], [], Idle, [], map[3 := []], 3, Manifest(seq(NUM_LEVELS, _ => []), 3, 0, 4),
          [], [], [], 0, 0, true)
  }

  // --------------------------------------------------------------------------- the queue

  /** Exactly once, in queue order: the published history is the acknowledged batches, one after the
      other, and nobody is lost between arriving and being acknowledged. */
  ghost predicate QueueOk(enqueued: seq<Writer>, committed: seq<Writer>, writers: seq<Writer>, write: WriteState,
                          tmpBatch: seq<Op>, hist: seq<Op>, lastSequence: nat)
  {
    && enqueued == committed + writers
    && lastSequence <= |hist| && hist[..lastSequence] == BatchOps(committed)
    && match write
       case Idle => lastSequence == |hist| && tmpBatch == []
       case Writing(record, applied, n) =>
         && 1 <= n <= |writers| && record.seqno == lastSequence + 1 && record.ops == BatchOps(writers[..n])
         && applied <= |record.ops| && hist[lastSequence..] == record.ops[..applied]
  }

  /** The history as the logs know it: published operations and the record being written. */
  ghost function Logged(hist: seq<Op>, lastSequence: nat, write: WriteState): seq<Op>
    requires lastSequence <= |hist|
  {
    hist[..lastSequence] + if write.Writing? then write.record.ops else []
  }

  lemma QueueArrives(enqueued: seq<Writer>, committed: seq<Writer>, writers: seq<Writer>, write: WriteState,
                     tmpBatch: seq<Op>, hist: seq<Op>, lastSequence: nat, w: Writer)
    requires QueueOk(enqueued, committed, writers, write, tmpBatch, hist, lastSequence)
    ensures QueueOk(enqueued + [w], committed, writers + [w], write, tmpBatch, hist, lastSequence)
  {
    if write.Writing? {
      assert (writers + [w])[..write.group] == writers[..write.group];
    }
    assert committed + writers + [w] == committed + (writers + [w]);
    hide BatchOps;
  }

  /** The first `n` writers, whose operations are the whole unpublished history, are acknowledged. */
  lemma QueueLeaves(enqueued: seq<Writer>, committed: seq<Writer>, writers: seq<Writer>, write: WriteState,
                    tmpBatch: seq<Op>, hist: seq<Op>, lastSequence: nat, n: nat)
    requires QueueOk(enqueued, committed, writers, write, tmpBatch, hist, lastSequence)
    requires n <= |writers| && BatchOps(writers[..n]) == hist[lastSequence..]
    ensures QueueOk(enqueued, committed + writers[..n], writers[n..], Idle, [], hist, |hist|)
  {
    BatchOpsConcat(committed, writers[..n]);
    hide BatchOps;
    Rejoined(committed, writers, n);
    assert hist[..lastSequence] + hist[lastSequence..] == hist;
    assert hist[..|hist|] == hist;
  }

  lemma Rejoined(committed: seq<Writer>, writers: seq<Writer>, n: nat)
    requires n <= |writers|
    ensures committed + writers[..n] + writers[n..] == committed + writers
  {
  }

  // ----------------------------------------------------------------------- the memtables

  ghost predicate MemOk(hist: seq<Op>, immStart: nat, memStart: nat, lastSequence: nat,
                        mem: seq<Entry>, imm: Option<seq<Entry>>)
  {
    && immStart <= memStart <= lastSequence <= |hist|
    && Sorted(mem) && Contents(mem) == Slice(hist, memStart, |hist|)
    && (imm.None? ==> immStart == memStart)
    && (imm.Some? ==> Sorted(imm.value) && Contents(imm.value) == Slice(hist, immStart, memStart))
  }

  lemma MemInserts(hist: seq<Op>, immStart: nat, memStart: nat, lastSequence: nat,
                   mem: seq<Entry>, imm: Option<seq<Entry>>, op: Op, mem': seq<Entry>)
    requires MemOk(hist, immStart, memStart, lastSequence, mem, imm)
    requires Sorted(mem') && Contents(mem') == Slice(hist + [op], memStart, |hist + [op]|)
    ensures MemOk(hist + [op], immStart, memStart, lastSequence, mem', imm)
  {
    SliceOfPrefix(hist, [op], immStart, memStart);
    hide Slice, Contents, Sorted;
  }

  lemma MemPublishes(hist: seq<Op>, immStart: nat, memStart: nat, lastSequence: nat, mem: seq<Entry>, imm: Option<seq<Entry>>)
    requires MemOk(hist, immStart, memStart, lastSequence, mem, imm)
    ensures MemOk(hist, immStart, memStart, |hist|, mem, imm)
  {
    hide Slice, Contents, Sorted;
  }

  lemma MemSwitches(hist: seq<Op>, immStart: nat, memStart: nat, mem: seq<Entry>, imm: Option<seq<Entry>>)
    requires MemOk(hist, immStart, memStart, |hist|, mem, imm) && imm.None?
    ensures MemOk(hist, immStart, |hist|, |hist|, [], Some(mem))
  {
    assert Slice(hist, |hist|, |hist|) == {} && Contents([]) == {} && Sorted([]);
    hide Slice, Contents, Sorted;
  }

  lemma MemFlushed(hist: seq<Op>, immStart: nat, memStart: nat, lastSequence: nat, mem: seq<Entry>, imm: Option<seq<Entry>>)
    requires MemOk(hist, immStart, memStart, lastSequence, mem, imm)
    ensures MemOk(hist, memStart, memStart, lastSequence, mem, None)
  {
    hide Slice, Contents, Sorted;
  }

  // ------------------------------------------------------------------------------ the logs

  /** The current log holds everything since `memStart`, the one named by the manifest everything
      between `immStart` and `memStart`; no other log is between them. */
  ghost predicate LogsOk(logs: map<nat, seq<LogRecord>>, logNumber: nat, logfileNumber: nat, nextFile: nat,
                         logged: seq<Op>, immStart: nat, memStart: nat)
  {
    && immStart <= memStart <= |logged|
    && logNumber <= logfileNumber < nextFile && logNumber in logs && logfileNumber in logs
    && (forall n :: n in logs ==> n <= logNumber || n == logfileNumber)
    && Chained(logs[logfileNumber], memStart) && OpsOf(logs[logfileNumber]) == logged[memStart..]
    && (logNumber < logfileNumber ==> Chained(logs[logNumber], immStart) && OpsOf(logs[logNumber]) == logged[immStart..memStart])
    && (logNumber == logfileNumber ==> immStart == memStart)
  }

  lemma LogsAppend(logs: map<nat, seq<LogRecord>>, logNumber: nat, logfileNumber: nat, nextFile: nat,
                   logged: seq<Op>, immStart: nat, memStart: nat, r: LogRecord, logs': map<nat, seq<LogRecord>>)
    requires LogsOk(logs, logNumber, logfileNumber, nextFile, logged, immStart, memStart)
    requires r.seqno == |logged| + 1 && logs' == logs[logfileNumber := logs[logfileNumber] + [r]]
    ensures LogsOk(logs', logNumber, logfileNumber, nextFile, logged + r.ops, immStart, memStart)
  {
    ChainedSnoc(logs[logfileNumber], memStart, r);
    assert (logged + r.ops)[memStart..] == logged[memStart..] + r.ops;
    assert (logged + r.ops)[immStart..memStart] == logged[immStart..memStart];
    hide Chained, OpsOf;
  }

  lemma LogsSwitch(logs: map<nat, seq<LogRecord>>, logNumber: nat, nextFile: nat,
                   logged: seq<Op>, memStart: nat, logs': map<nat, seq<LogRecord>>)
    requires LogsOk(logs, logNumber, logNumber, nextFile, logged, memStart, memStart)
    requires logs' == logs[nextFile := []]
    ensures LogsOk(logs', logNumber, nextFile, nextFile + 1, logged, memStart, |logged|)
  {
    assert Chained([], |logged|) && OpsOf([]) == [] == logged[|logged|..];
    assert logged[memStart..|logged|] == logged[memStart..];
    hide Chained, OpsOf;
  }

  lemma LogsFlushed(logs: map<nat, seq<LogRecord>>, logNumber: nat, logfileNumber: nat, nextFile: nat,
                    logged: seq<Op>, immStart: nat, memStart: nat)
    requires LogsOk(logs, logNumber, logfileNumber, nextFile, logged, immStart, memStart)
    ensures LogsOk(logs, logfileNumber, logfileNumber, nextFile, logged, memStart, memStart)
  {
    hide Chained, OpsOf;
  }

  /** Deleting the logs numbered below the manifest's keeps every log that recovery needs. */
  lemma LogsTrimmed(logs: map<nat, seq<LogRecord>>, logNumber: nat, logfileNumber: nat, nextFile: nat,
                    logged: seq<Op>, immStart: nat, memStart: nat, logs': map<nat, seq<LogRecord>>)
    requires LogsOk(logs, logNumber, logfileNumber, nextFile, logged, immStart, memStart)
    requires logs' == map n | n in logs && n >= logNumber :: logs[n]
    ensures LogsOk(logs', logNumber, logfileNumber, nextFile, logged, immStart, memStart)
  {
    hide Chained, OpsOf;
  }

  lemma LogsNext(logs: map<nat, seq<LogRecord>>, logNumber: nat, logfileNumber: nat, nextFile: nat,
                 logged: seq<Op>, immStart: nat, memStart: nat, next': nat)
    requires LogsOk(logs, logNumber, logfileNumber, nextFile, logged, immStart, memStart) && nextFile <= next'
    ensures LogsOk(logs, logNumber, logfileNumber, next', logged, immStart, memStart)
  {
    hide Chained, OpsOf;
  }

  // -------------------------------------------------------------- files, manifest, snapshots

  ghost predicate FilesInv(levels: seq<seq<File>>, hist: seq<Op>, immStart: nat, nextFile: nat) {
    Inv(levels) && HoldsPrefix(levels, hist, immStart) && NumbersBelow(levels, nextFile)
  }

  lemma FilesAfterInsert(levels: seq<seq<File>>, hist: seq<Op>, immStart: nat, nextFile: nat, op: Op)
    requires FilesInv(levels, hist, immStart, nextFile)
    ensures FilesInv(levels, hist + [op], immStart, nextFile) && (hist + [op])[..immStart] == hist[..immStart]
  {
    hide Inv, NumbersBelow, AllEntries;
    SliceOfPrefix(hist, [op], 0, immStart);
    hide Slice;
  }

  lemma FilesNext(levels: seq<seq<File>>, hist: seq<Op>, immStart: nat, nextFile: nat, next': nat)
    requires FilesInv(levels, hist, immStart, nextFile) && nextFile <= next'
    ensures FilesInv(levels, hist, immStart, next')
  {
    hide Inv, HoldsPrefix;
  }

  ghost predicate ManifestOk(m: Manifest, levels: seq<seq<File>>, logNumber: nat, immStart: nat, lastSequence: nat, nextFile: nat) {
    && m.levels == levels && m.logNumber == logNumber
    && immStart <= m.lastSequence <= lastSequence && m.nextFile <= nextFile && NumbersBelow(levels, m.nextFile)
  }

  ghost predicate SnapsOk(snapshots: seq<Snapshot>, committed: seq<Writer>, lastSequence: nat) {
    && (forall i, j :: 0 <= i < j < |snapshots| ==> snapshots[i].seqno <= snapshots[j].seqno)
    && (forall i :: 0 <= i < |snapshots| ==> snapshots[i].seqno <= lastSequence && Boundary(committed, snapshots[i].seqno))
  }

  lemma SnapsLater(snapshots: seq<Snapshot>, committed: seq<Writer>, more: seq<Writer>, lastSequence: nat, last': nat)
    requires SnapsOk(snapshots, committed, lastSequence) && lastSequence <= last'
    ensures SnapsOk(snapshots, committed + more, last')
  {
    forall i | 0 <= i < |snapshots| ensures Boundary(committed + more, snapshots[i].seqno) {
      BoundaryKept(committed, more, snapshots[i].seqno);
    }
    hide Boundary;
  }

  lemma SnapsTaken(snapshots: seq<Snapshot>, committed: seq<Writer>, lastSequence: nat, id: nat)
    requires SnapsOk(snapshots, committed, lastSequence) && lastSequence == |BatchOps(committed)|
    ensures SnapsOk(snapshots + [Snapshot(id, lastSequence)], committed, lastSequence)
  {
    EndIsBoundary(committed);
    hide Boundary;
  }

  lemma SnapsReleased(snapshots: seq<Snapshot>, committed: seq<Writer>, lastSequence: nat, i: nat)
    requires SnapsOk(snapshots, committed, lastSequence) && i < |snapshots|
    ensures SnapsOk(snapshots[..i] + snapshots[i + 1..], committed, lastSequence)
    ensures SmallestSnapshot(snapshots, lastSequence) <= SmallestSnapshot(snapshots[..i] + snapshots[i + 1..], lastSequence)
  {
    hide Boundary;
    var rest := snapshots[..i] + snapshots[i + 1..];
    forall x | 0 <= x < |rest| ensures rest[x] == snapshots[if x < i then x else x + 1] {
    }
  }

  /** The oldest sequence number a reader may still ask for. */
  function SmallestSnapshot(snapshots: seq<Snapshot>, lastSequence: nat): nat {
    if snapshots == [] then lastSequence else snapshots[0].seqno
  }

  lemma SmallestIsSmallest(snapshots: seq<Snapshot>, committed: seq<Writer>, lastSequence: nat)
    requires SnapsOk(snapshots, committed, lastSequence)
    ensures SmallestSnapshot(snapshots, lastSequence) <= lastSequence
    ensures forall x :: x in snapshots ==> SmallestSnapshot(snapshots, lastSequence) <= x.seqno <= lastSequence
  {
    hide Boundary;
  }

  // --------------------------------------------------------------------------------- reads

  function Min(a: nat, b: nat): nat {
    if a <= b then a else b
  }

  /** The files answer every read a reader may still make of the operations they cover. */
  ghost predicate BaseReads(levels: seq<seq<File>>, hist: seq<Op>, immStart: nat, low: nat)
  {
    immStart <= |hist| && Agree(AllEntries(levels), EntriesOf(hist[..immStart]), Min(low, immStart))
  }

  lemma AgreeHigher(S: set<Entry>, T: set<Entry>, low: nat, low': nat)
    requires Agree(S, T, low) && low <= low'
    ensures Agree(S, T, low')
  {
  }

  lemma BaseReadsHigher(levels: seq<seq<File>>, hist: seq<Op>, immStart: nat, low: nat, low': nat)
    requires BaseReads(levels, hist, immStart, low) && low <= low'
    ensures BaseReads(levels, hist, immStart, low')
  {
    hide Agree, AllEntries, EntriesOf;
    AgreeHigher(AllEntries(levels), EntriesOf(hist[..immStart]), Min(low, immStart), Min(low', immStart));
  }

  lemma PrefixEntries(hist: seq<Op>, n: nat)
    requires n <= |hist|
    ensures EntriesOf(hist[..n]) == Slice(hist, 0, n)
  {
    assert hist[..n] + hist[n..] == hist;
    SliceOfPrefix(hist[..n], hist[n..], 0, n);
    SliceWhole(hist[..n]);
  }

  /** Adding the next slice of the history to the files. */
  lemma BaseReadsFlushed(levels: seq<seq<File>>, hist: seq<Op>, immStart: nat, memStart: nat, low: nat, levels': seq<seq<File>>)
    requires BaseReads(levels, hist, immStart, low) && HoldsPrefix(levels, hist, immStart) && immStart <= memStart <= |hist|
    requires AllEntries(levels') == AllEntries(levels) + Slice(hist, immStart, memStart)
    ensures BaseReads(levels', hist, memStart, low)
  {
    hide AllEntries, Agree;
    PrefixEntries(hist, immStart);
    var before, ops := hist[..immStart], hist[immStart..memStart];
    assert before + ops == hist[..memStart];
    AgreeAfterAppend(AllEntries(levels), before, ops, Min(low, immStart));
    assert hist[..memStart] + hist[memStart..] == hist;
    SliceOfPrefix(hist[..memStart], hist[memStart..], immStart, memStart);
    AgreeHigher(AllEntries(levels'), EntriesOf(hist[..memStart]), Min(low, immStart), Min(low, memStart));
  }

  /** Reads beyond the last entry are reads of everything. */
  lemma ReadBeyond(S: set<Entry>, n: nat, k: UserKey, s: nat)
    requires Distinct(S) && s >= n && forall e :: e in S ==> e.ik.seqno <= n
    ensures Read(S, k, s) == Read(S, k, n)
  {
    forall e ensures IsVisible(S, k, s, e) <==> IsVisible(S, k, n, e) {
    }
    if e :| IsVisible(S, k, s, e) {
      ReadVisible(S, k, s, e);
      ReadVisible(S, k, n, e);
    }
  }

  lemma AgreeLower(S: set<Entry>, T: set<Entry>, n: nat, low: nat)
    requires Distinct(T) && S <= T && Agree(S, T, low) && (forall e :: e in T ==> e.ik.seqno <= n)
    ensures Agree(S, T, Min(low, n))
  {
    assert Distinct(S);
    forall k, s | s >= Min(low, n) ensures Read(S, k, s) == Read(T, k, s) {
      if s < low {
        ReadBeyond(S, n, k, s);
        ReadBeyond(T, n, k, s);
        ReadBeyond(S, n, k, low);
        ReadBeyond(T, n, k, low);
      }
    }
  }

  lemma AgreeTransitive(S: set<Entry>, T: set<Entry>, U: set<Entry>, low: nat)
    requires Agree(S, T, low) && Agree(T, U, low)
    ensures Agree(S, U, low)
  {
    forall k, s | s >= low ensures Read(S, k, s) == Read(U, k, s) {
      assert Read(S, k, s) == Read(T, k, s);
    }
  }

  lemma PrefixSeqnos(levels: seq<seq<File>>, hist: seq<Op>, n: nat)
    requires HoldsPrefix(levels, hist, n)
    ensures Distinct(AllEntries(levels)) && forall e :: e in AllEntries(levels) ==> e.ik.seqno <= n
  {
    hide AllEntries;
    forall e | e in AllEntries(levels) ensures 1 <= e.ik.seqno <= n && e == EntryAt(hist, e.ik.seqno - 1) {
      SliceBySeqno(hist, 0, n, e);
    }
  }

  /** Replacing files by ones that agree from the oldest snapshot on. */
  lemma BaseReadsCompacted(levels: seq<seq<File>>, hist: seq<Op>, immStart: nat, low: nat, levels': seq<seq<File>>)
    requires BaseReads(levels, hist, immStart, low) && HoldsPrefix(levels, hist, immStart)
    requires AllEntries(levels') <= AllEntries(levels) && Agree(AllEntries(levels'), AllEntries(levels), low)
    ensures BaseReads(levels', hist, immStart, low)
  {
    hide AllEntries, Agree, EntriesOf;
    PrefixSeqnos(levels, hist, immStart);
    AgreeLower(AllEntries(levels'), AllEntries(levels), immStart, low);
    AgreeTransitive(AllEntries(levels'), AllEntries(levels), EntriesOf(hist[..immStart]), Min(low, immStart));
  }

  lemma FewerHoldPrefix(levels: seq<seq<File>>, levels': seq<seq<File>>, hist: seq<Op>, n: nat)
    requires HoldsPrefix(levels, hist, n) && AllEntries(levels') <= AllEntries(levels)
    ensures HoldsPrefix(levels', hist, n)
  {
    hide AllEntries, Slice;
  }

  /** Everything the store holds, read as the history. */
  lemma StoreReads(levels: seq<seq<File>>, hist: seq<Op>, immStart: nat, low: nat, k: UserKey, s: nat)
    requires BaseReads(levels, hist, immStart, low) && HoldsPrefix(levels, hist, immStart) && low <= s <= |hist|
    ensures Read(AllEntries(levels) + Slice(hist, immStart, |hist|), k, s) == Lookup(Replay(hist[..s]), k)
  {
    hide AllEntries, Replay, Lookup, Read;
    PrefixEntries(hist, immStart);
    var before, ops := hist[..immStart], hist[immStart..];
    assert before + ops == hist;
    AgreeAfterAppend(AllEntries(levels), before, ops, Min(low, immStart));
    ReplayIsRead(hist, k, s);
  }
}
