/** Rebuilding the store after a crash from the manifest and the logs it still needs. */
module Recovery {
  import opened DbFormat
  import opened Reads
  import opened Version
  import opened MemTable
  import opened Flush
  import opened DbState

  /** The logs not yet replayed, and how much of the history is back. */
  ghost predicate Progress(todo: set<nat>, h: seq<Op>, logNumber: nat, logfileNumber: nat, logged: seq<Op>, immStart: nat, memStart: nat) {
    && immStart <= memStart <= |logged|
    && (|| (todo == {logNumber, logfileNumber} && h == logged[..immStart])
        || (todo == {logfileNumber} && h == logged[..memStart])
        || (todo == {} && h == logged))
  }

  /** The lowest-numbered remaining log continues the history. */
  lemma NextLog(logs: map<nat, seq<LogRecord>>, logNumber: nat, logfileNumber: nat, nextFile: nat, logged: seq<Op>, immStart: nat, memStart: nat,
                todo: set<nat>, h: seq<Op>, n: nat)
    requires LogsOk(logs, logNumber, logfileNumber, nextFile, logged, immStart, memStart)
    requires Progress(todo, h, logNumber, logfileNumber, logged, immStart, memStart)
    requires n in todo && forall m :: m in todo ==> n <= m
    ensures n in logs && Chained(logs[n], |h|) && |h| + |OpsOf(logs[n])| <= |logged|
    ensures Progress(todo - {n}, h + OpsOf(logs[n]), logNumber, logfileNumber, logged, immStart, memStart)
  {
    hide Chained, OpsOf;
    if n == logfileNumber {
      assert logged[..memStart] + logged[memStart..] == logged;
      assert todo - {n} == {};
      if todo == {logNumber, logfileNumber} {
        assert logNumber in todo;
        assert logNumber == logfileNumber;
      }
    } else {
      assert logged[..immStart] + logged[immStart..memStart] == logged[..memStart];
      assert todo - {n} == {logfileNumber};
    }
  }

  lemma AllLogs(logs: map<nat, seq<LogRecord>>, logNumber: nat, logfileNumber: nat, nextFile: nat, logged: seq<Op>, immStart: nat, memStart: nat,
                todo: set<nat>)
    requires LogsOk(logs, logNumber, logfileNumber, nextFile, logged, immStart, memStart)
    requires todo == set n | n in logs && n >= logNumber
    ensures Progress(todo, logged[..immStart], logNumber, logfileNumber, logged, immStart, memStart)
    ensures immStart <= |logged| && logfileNumber in todo
  {
    hide Chained, OpsOf;
  }

  lemma ProgressDone(todo: set<nat>, h: seq<Op>, logNumber: nat, logfileNumber: nat, logged: seq<Op>, immStart: nat, memStart: nat)
    requires Progress(todo, h, logNumber, logfileNumber, logged, immStart, memStart) && todo == {}
    ensures h == logged
  {
    assert logNumber in {logNumber, logfileNumber} && logfileNumber in {logfileNumber};
  }

  lemma {:induction false} LeastExists(todo: set<nat>) returns (n: nat)
    requires todo != {}
    ensures n in todo && forall m :: m in todo ==> n <= m
    decreases |todo|
  {
    var x :| x in todo;
    var rest := todo - {x};
    if rest == {} {
      n := x;
      assert todo == {x};
    } else {
      var y := LeastExists(rest);
      n := if x <= y then x else y;
      assert forall m :: m in todo ==> m == x || m in rest;
    }
  }

  /** Replay every log at or after the manifest's, lowest number first.  All of the logged history is
      back in files, the greatest sequence number seen is its length unless nothing was logged, and
      every replayed log number is used up. */
  method ReplayLogs(logs: map<nat, seq<LogRecord>>, minLog: nat, levels: seq<seq<File>>, next: nat,
                    ghost logfileNumber: nat, ghost nextFile: nat, ghost logged: seq<Op>, ghost immStart: nat, ghost memStart: nat)
    returns (levels': seq<seq<File>>, next': nat, maxSequence: nat)
    requires LogsOk(logs, minLog, logfileNumber, nextFile, logged, immStart, memStart) && |logged| <= MAX_SEQUENCE_NUMBER
    requires immStart <= |logged| && Replaying(levels, levels, [], next, immStart, logged[..immStart], immStart)
    ensures Replaying(levels, levels', [], next', immStart, logged, |logged|)
    ensures maxSequence == |logged| || (maxSequence == 0 && |logged| == immStart)
    ensures next' > logfileNumber
  {
    hide *;
    var todo: set<nat> := set n | n in logs && n >= minLog;
    AllLogs(logs, minLog, logfileNumber, nextFile, logged, immStart, memStart, todo);
    levels', next', maxSequence := levels, next, 0;
    ghost var h := logged[..immStart];
    while todo != {}
      invariant Progress(todo, h, minLog, logfileNumber, logged, immStart, memStart)
      invariant Replaying(levels, levels', [], next', immStart, h, |h|)
      invariant maxSequence == |h| || (maxSequence == 0 && |h| == immStart)
      invariant logfileNumber in todo || next' > logfileNumber
      decreases |todo|
    {
      ghost var least := LeastExists(todo);
      var n :| n in todo && forall m :: m in todo ==> n <= m;
      NextLog(logs, minLog, logfileNumber, nextFile, logged, immStart, memStart, todo, h, n);
      NoOps(logs[n]);
      levels', next', maxSequence := RecoverLogFile(logs[n], levels, levels', next', maxSequence, immStart, h);
      if next' <= n {
        ReplayingNext(levels, levels', next', immStart, h + OpsOf(logs[n]), n + 1);
        next' := n + 1;
      }
      todo, h := todo - {n}, h + OpsOf(logs[n]);
    }
    ProgressDone(todo, h, minLog, logfileNumber, logged, immStart, memStart);
  }

  lemma NoOps(records: seq<LogRecord>)
    ensures records == [] ==> OpsOf(records) == []
  {
  }

  lemma ReplayingNext(levels0: seq<seq<File>>, levels: seq<seq<File>>, next: nat, base: nat, hist: seq<Op>, next': nat)
    requires Replaying(levels0, levels, [], next, base, hist, |hist|) && next <= next'
    ensures Replaying(levels0, levels, [], next', base, hist, |hist|)
  {
    hide Inv, HoldsPrefix, AllEntries, Sorted, Contents, Slice;
  }

  /** A record that was still being written when the process died: without it the logs hold exactly
      the published history. */
  lemma LogsTorn(logs: map<nat, seq<LogRecord>>, logNumber: nat, logfileNumber: nat, nextFile: nat,
                 published: seq<Op>, immStart: nat, memStart: nat, r: LogRecord, logs': map<nat, seq<LogRecord>>)
    requires LogsOk(logs, logNumber, logfileNumber, nextFile, published + r.ops, immStart, memStart) && memStart <= |published|
    requires logs[logfileNumber] != [] && logs[logfileNumber][|logs[logfileNumber]| - 1] == r
    requires logs' == logs[logfileNumber := logs[logfileNumber][..|logs[logfileNumber]| - 1]]
    ensures LogsOk(logs', logNumber, logfileNumber, nextFile, published, immStart, memStart)
  {
    var records := logs[logfileNumber];
    var init := records[..|records| - 1];
    ChainedInit(records, memStart, |init|);
    TornOps(records, r, published[memStart..], (published + r.ops)[memStart..]);
    assert (published + r.ops)[immStart..memStart] == published[immStart..memStart];
    hide Chained, OpsOf;
  }

  lemma TornOps(records: seq<LogRecord>, r: LogRecord, before: seq<Op>, all: seq<Op>)
    requires records != [] && records[|records| - 1] == r && OpsOf(records) == all && all == before + r.ops
    ensures OpsOf(records[..|records| - 1]) == before
  {
    var init := OpsOf(records[..|records| - 1]);
    assert init + r.ops == before + r.ops;
    assert |init| == |before|;
    assert (init + r.ops)[..|init|] == init;
    assert (before + r.ops)[..|init|] == before;
  }
}
