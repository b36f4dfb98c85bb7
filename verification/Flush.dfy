/** Turning a memtable into a table file, and rebuilding the store from the logs. */
module Flush {
  import opened DbFormat
  import opened Reads
  import opened Version
  import opened Picking
  import opened Install
  import opened Edits
  import opened MemTable

  /** Every table number has been handed out already. */
  ghost predicate NumbersBelow(levels: seq<seq<File>>, next: nat) {
    forall l, f :: 0 <= l < |levels| && f in levels[l] ==> f.number < next
  }

  /** The files hold entries of the first `n` operations of the history only. */
  ghost predicate HoldsPrefix(levels: seq<seq<File>>, hist: seq<Op>, n: nat) {
    n <= |hist| && forall e :: e in AllEntries(levels) ==> e in Slice(hist, 0, n)
  }

  lemma SlicesApart(ops: seq<Op>, a: nat, b: nat)
    requires a <= b <= |ops|
    ensures Newer(Slice(ops, a, b), Slice(ops, 0, a)) && Distinct(Slice(ops, 0, a) + Slice(ops, a, b))
  {
    forall e | e in Slice(ops, 0, a) + Slice(ops, a, b) ensures e.ik.seqno >= 1 && e == EntryAt(ops, e.ik.seqno - 1) {
      SliceBySeqno(ops, 0, a, e);
      SliceBySeqno(ops, a, b, e);
    }
    forall e, e' | e in Slice(ops, a, b) && e' in Slice(ops, 0, a) ensures e.ik.seqno > e'.ik.seqno {
      SliceBySeqno(ops, a, b, e);
      SliceBySeqno(ops, 0, a, e');
    }
  }

  /** A file built from a non-empty memtable. */
  method BuildTable(run: seq<Entry>, number: nat, size: nat, ghost hist: seq<Op>, ghost a: nat, ghost b: nat) returns (f: File)
    requires run != [] && Sorted(run) && a <= b <= |hist| <= MAX_SEQUENCE_NUMBER && Contents(run) == Slice(hist, a, b)
    ensures WellFormed(f) && f.number == number && f.size == size && f.run == run
  {
    f := File(number, size, run[0].ik, run[|run| - 1].ik, run);
    forall i | 0 <= i < |run| ensures run[i].ik.seqno <= MAX_SEQUENCE_NUMBER {
      assert run[i] in Contents(run);
      SliceBySeqno(hist, a, b, run[i]);
    }
  }

  lemma FlushedIsNewer(levels: seq<seq<File>>, hist: seq<Op>, a: nat, b: nat, S: set<Entry>)
    requires HoldsPrefix(levels, hist, a) && a <= b <= |hist| && S == Slice(hist, a, b)
    ensures Newer(S, AllEntries(levels)) && Distinct(AllEntries(levels) + S)
  {
    SlicesApart(hist, a, b);
    hide AllEntries;
  }

  lemma FlushIsFlushable(levels: seq<seq<File>>, level: nat, f: File, hist: seq<Op>, a: nat, b: nat)
    requires |levels| == NUM_LEVELS && level < NUM_LEVELS && WellFormed(f) && HoldsPrefix(levels, hist, a) && NumbersBelow(levels, f.number)
    requires a <= b <= |hist| && Contents(f.run) == Slice(hist, a, b)
    requires level > 0 ==> forall l :: 0 <= l <= level ==> NoneOverlap(levels[l], f.smallest.key, f.largest.key)
    ensures Flushable(levels, level, f)
  {
    FlushedIsNewer(levels, hist, a, b, Contents(f.run));
    hide WellFormed, Newer, Distinct, AllEntries, HoldsPrefix, Overlaps;
  }

  lemma AddedNumbersBelow(levels: seq<seq<File>>, level: nat, f: File, levels': seq<seq<File>>)
    requires Added(levels, level, f, levels') && NumbersBelow(levels, f.number)
    ensures NumbersBelow(levels', f.number + 1)
  {
  }

  lemma HoldsMore(levels: seq<seq<File>>, levels': seq<seq<File>>, hist: seq<Op>, a: nat, b: nat)
    requires HoldsPrefix(levels, hist, a) && a <= b <= |hist| && AllEntries(levels') == AllEntries(levels) + Slice(hist, a, b)
    ensures HoldsPrefix(levels', hist, b)
  {
    hide AllEntries;
    SliceSplits(hist, 0, a, b);
  }

  /** One more file with the run's entries, at the level picked for it or at level 0; no file for an empty run. */
  ghost predicate WroteTable(levels: seq<seq<File>>, run: seq<Entry>, pickLevel: bool, maxOverlap: nat, size: nat, next: nat,
                             levels': seq<seq<File>>)
  {
    if run == [] then levels' == levels
    else exists level: nat, f: File ::
      && IsTableOf(f, run, next, size) && Added(levels, level, f, levels')
      && (if pickLevel then IsPickedLevel(levels, f.smallest.key, f.largest.key, maxOverlap, level) else level == 0)
  }

  ghost predicate IsTableOf(f: File, run: seq<Entry>, number: nat, size: nat) {
    WellFormed(f) && f.number == number && f.size == size && f.run == run
  }

  lemma NothingWritten(levels: seq<seq<File>>, run: seq<Entry>, pickLevel: bool, maxOverlap: nat, size: nat, next: nat)
    requires run == []
    ensures WroteTable(levels, run, pickLevel, maxOverlap, size, next, levels)
  {
  }

  lemma TableWritten(levels: seq<seq<File>>, run: seq<Entry>, pickLevel: bool, maxOverlap: nat, size: nat, next: nat,
                     levels': seq<seq<File>>, level: nat, f: File)
    requires run != [] && WellFormed(f) && f.number == next && f.size == size && f.run == run && Added(levels, level, f, levels')
    requires if pickLevel then IsPickedLevel(levels, f.smallest.key, f.largest.key, maxOverlap, level) else level == 0
    ensures WroteTable(levels, run, pickLevel, maxOverlap, size, next, levels')
  {
    hide WellFormed, Added, IsPickedLevel;
    assert IsTableOf(f, run, next, size);
  }

  /** Write a memtable's entries as one table file and install it: at the level picked for it, or at
      level 0 while recovering.  An empty memtable leaves no file. */
  method WriteLevel0Table(levels: seq<seq<File>>, run: seq<Entry>, pickLevel: bool, maxOverlap: nat, size: nat, next: nat,
                          ghost hist: seq<Op>, ghost a: nat, ghost b: nat)
    returns (levels': seq<seq<File>>)
    requires Inv(levels) && HoldsPrefix(levels, hist, a) && NumbersBelow(levels, next)
    requires Sorted(run) && a <= b <= |hist| <= MAX_SEQUENCE_NUMBER && Contents(run) == Slice(hist, a, b)
    ensures Inv(levels') && HoldsPrefix(levels', hist, b) && NumbersBelow(levels', next + 1)
    ensures AllEntries(levels') == AllEntries(levels) + Slice(hist, a, b)
    ensures WroteTable(levels, run, pickLevel, maxOverlap, size, next, levels')
  {
    hide *;
    if run == [] {
      levels' := levels;
      EmptyRun(run);
      NothingWritten(levels, run, pickLevel, maxOverlap, size, next);
      NumbersBelowMore(levels, next);
    } else {
      var f := BuildTable(run, next, size, hist, a, b);
      var level := 0;
      if pickLevel {
        level := PickLevelForMemTableOutput(levels, f.smallest.key, f.largest.key, maxOverlap);
      }
      SevenLevels(levels);
      FlushIsFlushable(levels, level, f, hist, a, b);
      levels' := ApplyFlush(levels, level, f);
      AddedInv(levels, level, f, levels');
      AddedNumbersBelow(levels, level, f, levels');
      TableWritten(levels, run, pickLevel, maxOverlap, size, next, levels', level, f);
    }
    HoldsMore(levels, levels', hist, a, b);
  }

  lemma EmptyRun(run: seq<Entry>)
    requires run == []
    ensures Contents(run) == {}
  {
  }

  lemma NumbersBelowMore(levels: seq<seq<File>>, next: nat)
    requires NumbersBelow(levels, next)
    ensures NumbersBelow(levels, next + 1)
  {
  }

  lemma SevenLevels(levels: seq<seq<File>>)
    requires Inv(levels)
    ensures |levels| == NUM_LEVELS && 0 <= MAX_MEM_COMPACT_LEVEL < NUM_LEVELS
  {
  }

  // ------------------------------------------------------------------------------ recovery

  /** Part-way through replaying a log: the operations read so far continue the history `base`, those
      before `start` are in files, the rest in the memtable. */
  ghost predicate Replaying(levels0: seq<seq<File>>, levels: seq<seq<File>>, mem: seq<Entry>, next: nat,
                            base: nat, hist: seq<Op>, start: nat) {
    && base <= start <= |hist|
    && Inv(levels) && HoldsPrefix(levels, hist, start) && NumbersBelow(levels, next)
    && AllEntries(levels) == AllEntries(levels0) + Slice(hist, base, start)
    && Sorted(mem) && Contents(mem) == Slice(hist, start, |hist|)
  }

  lemma ReplayingStarts(levels: seq<seq<File>>, next: nat, hist: seq<Op>)
    requires Inv(levels) && HoldsPrefix(levels, hist, |hist|) && NumbersBelow(levels, next)
    ensures Replaying(levels, levels, [], next, |hist|, hist, |hist|)
  {
    hide Inv, HoldsPrefix, NumbersBelow, AllEntries;
    assert Slice(hist, |hist|, |hist|) == {};
  }

  /** The history grows by what was put into the memtable. */
  lemma ReplayingInserts(levels0: seq<seq<File>>, levels: seq<seq<File>>, mem: seq<Entry>, next: nat,
                         base: nat, hist: seq<Op>, start: nat, ops: seq<Op>, mem': seq<Entry>)
    requires Replaying(levels0, levels, mem, next, base, hist, start)
    requires Sorted(mem') && Contents(mem') == Slice(hist + ops, start, |hist + ops|)
    ensures Replaying(levels0, levels, mem', next, base, hist + ops, start)
  {
    hide Inv, NumbersBelow, AllEntries, Sorted, Contents;
    SliceOfPrefix(hist, ops, 0, start);
    SliceOfPrefix(hist, ops, base, start);
    hide Slice;
  }

  lemma ReplayingFacts(levels0: seq<seq<File>>, levels: seq<seq<File>>, mem: seq<Entry>, next: nat,
                       base: nat, hist: seq<Op>, start: nat)
    requires Replaying(levels0, levels, mem, next, base, hist, start)
    ensures base <= start <= |hist| && Inv(levels) && HoldsPrefix(levels, hist, start) && NumbersBelow(levels, next)
    ensures AllEntries(levels) == AllEntries(levels0) + Slice(hist, base, start)
    ensures Sorted(mem) && Contents(mem) == Slice(hist, start, |hist|)
  {
    hide Inv, HoldsPrefix, NumbersBelow, AllEntries, Sorted, Contents, Slice;
  }

  /** After writing out the memtable everything read so far is in files. */
  method FlushReplayed(ghost levels0: seq<seq<File>>, levels: seq<seq<File>>, mem: seq<Entry>, next: nat,
                       ghost base: nat, ghost hist: seq<Op>, ghost start: nat) returns (levels': seq<seq<File>>)
    requires Replaying(levels0, levels, mem, next, base, hist, start) && |hist| <= MAX_SEQUENCE_NUMBER
    ensures Replaying(levels0, levels', [], next + 1, base, hist, |hist|)
  {
    hide *;
    ReplayingFacts(levels0, levels, mem, next, base, hist, start);
    var size: nat := *;
    levels' := WriteLevel0Table(levels, mem, false, 0, size, next, hist, start, |hist|);
    SliceSplits(hist, base, start, |hist|);
    ReplayingStarts(levels', next + 1, hist);
    ReplayingFacts(levels', levels', [], next + 1, |hist|, hist, |hist|);
    ReplayingRebased(levels0, levels', next + 1, base, hist,
                     AllEntries(levels0), Slice(hist, base, start), Slice(hist, start, |hist|));
  }

  lemma ReplayingRebased(levels0: seq<seq<File>>, levels: seq<seq<File>>, next: nat, base: nat, hist: seq<Op>,
                         S: set<Entry>, T: set<Entry>, U: set<Entry>)
    requires base <= |hist| && Replaying(levels, levels, [], next, |hist|, hist, |hist|)
    requires S == AllEntries(levels0) && AllEntries(levels) == S + T + U && Slice(hist, base, |hist|) == T + U
    ensures Replaying(levels0, levels, [], next, base, hist, |hist|)
  {
    hide Inv, HoldsPrefix, NumbersBelow, AllEntries, Sorted, Contents, Slice;
    assert S + T + U == S + (T + U);
  }

  /** Replay one log into level-0 tables.  A table is cut after any record; what is left over at the
      end of the log becomes one more. */
  method RecoverLogFile(records: seq<LogRecord>, ghost levels0: seq<seq<File>>, levels: seq<seq<File>>, next: nat,
                        maxSequence: nat, ghost base: nat, ghost hist: seq<Op>)
    returns (levels': seq<seq<File>>, next': nat, maxSequence': nat)
    requires Replaying(levels0, levels, [], next, base, hist, |hist|)
    requires Chained(records, |hist|) && |hist| + |OpsOf(records)| <= MAX_SEQUENCE_NUMBER
    requires maxSequence <= |hist|
    ensures Replaying(levels0, levels', [], next', base, hist + OpsOf(records), |hist + OpsOf(records)|)
    ensures next <= next'
    ensures maxSequence' == if records == [] then maxSequence else |hist + OpsOf(records)|
  {
    hide *;
    levels', next', maxSequence' := levels, next, maxSequence;
    var mem: seq<Entry> := [];
    ghost var h: seq<Op>, start: nat := hist, |hist|;
    var open := false;  // the memtable pointer is not null
    NoRecords(records, hist);
    for i := 0 to |records|
      invariant h == hist + OpsOf(records[..i])
      invariant Replaying(levels0, levels', mem, next', base, h, start)
      invariant next <= next'
      invariant maxSequence' == if i == 0 then maxSequence else |h|
      invariant !open ==> mem == [] && start == |h|
    {
      NextRecord(records, hist, i);
      ReplayingFacts(levels0, levels', mem, next', base, h, start);
      var mem' := InsertInto(mem, records[i], h, start);
      ReplayingInserts(levels0, levels', mem, next', base, h, start, records[i].ops, mem');
      mem, h, open := mem', h + records[i].ops, true;
      var lastSeq := records[i].seqno + |records[i].ops| - 1;
      if lastSeq > maxSequence' {
        maxSequence' := lastSeq;
      }
      var bigEnough: bool := *;
      if bigEnough {
        levels' := FlushReplayed(levels0, levels', mem, next', base, h, start);
        mem, next', start, open := [], next' + 1, |h|, false;
      }
    }
    assert records[..|records|] == records;
    if open {
      levels' := FlushReplayed(levels0, levels', mem, next', base, h, start);
      mem, next', start := [], next' + 1, |h|;
    }
  }

  lemma NoRecords(records: seq<LogRecord>, hist: seq<Op>)
    ensures hist + OpsOf(records[..0]) == hist
  {
  }

  lemma NextRecord(records: seq<LogRecord>, hist: seq<Op>, i: nat)
    requires Chained(records, |hist|) && i < |records|
    ensures records[i].seqno == |hist + OpsOf(records[..i])| + 1
    ensures hist + OpsOf(records[..i + 1]) == (hist + OpsOf(records[..i])) + records[i].ops
    ensures |hist + OpsOf(records[..i + 1])| <= |hist| + |OpsOf(records)|
  {
    hide *;
    ChainedAt(records, |hist|, i);
    OpsStep(records, i);
    OpsOfPrefix(records, i + 1);
    assert hist + (OpsOf(records[..i]) + records[i].ops) == (hist + OpsOf(records[..i])) + records[i].ops;
  }

  lemma ChainedAt(records: seq<LogRecord>, start: nat, i: nat)
    requires Chained(records, start) && i < |records|
    ensures records[i].seqno == start + |OpsOf(records[..i])| + 1
  {
    hide OpsOf;
  }

  lemma OpsStep(records: seq<LogRecord>, i: nat)
    requires i < |records|
    ensures OpsOf(records[..i + 1]) == OpsOf(records[..i]) + records[i].ops
  {
    assert records[..i + 1][..i] == records[..i] && records[..i + 1][i] == records[i];
  }

  lemma {:induction false} OpsOfPrefix(records: seq<LogRecord>, i: nat)
    requires i <= |records|
    ensures |OpsOf(records[..i])| <= |OpsOf(records)|
    decreases |records|
  {
    if i < |records| {
      var init := records[..|records| - 1];
      assert init[..i] == records[..i];
      OpsOfPrefix(init, i);
    } else {
      assert records[..i] == records;
    }
  }
}
