/** Memtables, log records, and the part of the history they hold. */
module MemTable {
  import opened DbFormat
  import opened Reads

  /** Insertion into the ordered memtable. */
  function Insert(run: seq<Entry>, e: Entry): (r: seq<Entry>)
    requires Sorted(run) && forall x :: x in run ==> x.ik != e.ik
    ensures Sorted(r) && Contents(r) == Contents(run) + {e}
  {
    if run == [] then [e]
    else if Less(e.ik, run[0].ik) then
      assert forall i :: 0 < i < |run| ==> Less(run[0].ik, run[i].ik);
      [e] + run
    else
      var rest := Insert(run[1..], e);
      assert run == [run[0]] + run[1..] && run[0] in run;
      assert Less(run[0].ik, e.ik) by {
        LessIsTotalOrder(run[0].ik, e.ik, e.ik);
      }
      assert forall i :: 0 <= i < |rest| ==> rest[i] in Contents(run[1..]) + {e};
      [run[0]] + rest
  }

  /** One record of the write-ahead log: a batch group and the sequence number of its first
      operation. */
  datatype LogRecord = LogRecord(seqno: nat, ops: seq<Op>)

  /** The operations of a history with index in `[a, b)`, as entries. */
  ghost function Slice(ops: seq<Op>, a: nat, b: nat): (S: set<Entry>)
    requires b <= |ops|
    ensures forall e :: e in S <==> exists i :: a <= i < b && e == EntryAt(ops, i)
  {
    set i | a <= i < b :: EntryAt(ops, i)
  }

  lemma SliceBySeqno(ops: seq<Op>, a: nat, b: nat, e: Entry)
    requires b <= |ops|
    ensures e in Slice(ops, a, b) <==> a < e.ik.seqno <= b && e == EntryAt(ops, e.ik.seqno - 1)
  {
  }

  lemma SliceSplits(ops: seq<Op>, a: nat, b: nat, c: nat)
    requires a <= b <= c <= |ops|
    ensures Slice(ops, a, c) == Slice(ops, a, b) + Slice(ops, b, c)
  {
  }

  lemma SliceWhole(ops: seq<Op>)
    ensures Slice(ops, 0, |ops|) == EntriesOf(ops)
  {
  }

  lemma SliceOfPrefix(ops: seq<Op>, more: seq<Op>, a: nat, b: nat)
    requires b <= |ops|
    ensures Slice(ops + more, a, b) == Slice(ops, a, b)
  {
    forall i: nat | i < |ops| ensures EntryAt(ops + more, i) == EntryAt(ops, i) {
    }
  }

  /** Replaying one record into a memtable: operation `i` gets the record's sequence number plus `i`. */
  method InsertInto(mem: seq<Entry>, record: LogRecord, ghost ops: seq<Op>, ghost start: nat) returns (mem': seq<Entry>)
    requires start <= |ops| && record.seqno == |ops| + 1
    requires Sorted(mem) && Contents(mem) == Slice(ops, start, |ops|)
    ensures Sorted(mem') && Contents(mem') == Slice(ops + record.ops, start, |ops + record.ops|)
  {
    mem' := mem;
    ghost var full := ops + record.ops;
    SliceOfPrefix(ops, record.ops, start, |ops|);
    for i := 0 to |record.ops|
      invariant Sorted(mem') && Contents(mem') == Slice(full, start, |ops| + i)
    {
      var op := record.ops[i];
      var e := Entry(InternalKey(op.key, record.seqno + i, op.kind), op.value);
      ghost var n := |ops| + i;
      assert e == EntryAt(full, n);
      forall x | x in mem' ensures x.ik != e.ik {
        assert x in Contents(mem');
        SliceBySeqno(full, start, n, x);
      }
      SliceSplits(full, start, n, n + 1);
      SliceOne(full, n);
      mem' := Insert(mem', e);
    }
  }

  lemma SliceOne(ops: seq<Op>, n: nat)
    requires n < |ops|
    ensures Slice(ops, n, n + 1) == {EntryAt(ops, n)}
  {
  }

  lemma SliceSnoc(ops: seq<Op>, op: Op, a: nat)
    requires a <= |ops|
    ensures Slice(ops + [op], a, |ops + [op]|) == Slice(ops, a, |ops|) + {EntryAt(ops + [op], |ops|)}
  {
    SliceOfPrefix(ops, [op], a, |ops|);
    SliceSplits(ops + [op], a, |ops|, |ops| + 1);
    SliceOne(ops + [op], |ops|);
  }

  /** The operations of a log, in order. */
  ghost function OpsOf(records: seq<LogRecord>): seq<Op> {
    if records == [] then [] else OpsOf(records[..|records| - 1]) + records[|records| - 1].ops
  }

  /** Every record starts where the previous one ended; the first one follows history index `start`. */
  ghost predicate Chained(records: seq<LogRecord>, start: nat) {
    forall i :: 0 <= i < |records| ==> records[i].seqno == start + |OpsOf(records[..i])| + 1
  }

  lemma ChainedSnoc(records: seq<LogRecord>, start: nat, r: LogRecord)
    requires Chained(records, start) && r.seqno == start + |OpsOf(records)| + 1
    ensures Chained(records + [r], start) && OpsOf(records + [r]) == OpsOf(records) + r.ops
  {
    var more := records + [r];
    assert more[..|records|] == records;
    forall i | 0 <= i < |more| ensures more[i].seqno == start + |OpsOf(more[..i])| + 1 {
      assert i < |records| ==> more[..i] == records[..i];
    }
  }

  lemma ChainedInit(records: seq<LogRecord>, start: nat, n: nat)
    requires Chained(records, start) && n <= |records|
    ensures Chained(records[..n], start)
  {
    forall i | 0 <= i < n ensures records[..n][..i] == records[..i] {
    }
  }

  /** Appending a group to the history and its entries to a store that agrees with it. */
  lemma {:induction false} AgreeAfterAppend(S: set<Entry>, hist: seq<Op>, ops: seq<Op>, low: nat)
    requires S <= EntriesOf(hist) && Agree(S, EntriesOf(hist), low)
    ensures S + Slice(hist + ops, |hist|, |hist + ops|) <= EntriesOf(hist + ops)
    ensures Agree(S + Slice(hist + ops, |hist|, |hist + ops|), EntriesOf(hist + ops), low)
    decreases |ops|
  {
    if ops == [] {
      assert hist + ops == hist;
      assert Slice(hist, |hist|, |hist|) == {};
      assert S + {} == S;
    } else {
      var init, op := ops[..|ops| - 1], ops[|ops| - 1];
      var h := hist + init;
      assert hist + ops == h + [op];
      AgreeAfterAppend(S, hist, init, low);
      var T := S + Slice(h, |hist|, |h|);
      AgreeAfterAdd(T, h, op, low);
      SliceSplits(hist + ops, |hist|, |h|, |h| + 1);
      SliceOfPrefix(h, [op], |hist|, |h|);
      SliceOne(hist + ops, |h|);
      assert T + {EntryAt(h + [op], |h|)} == S + Slice(hist + ops, |hist|, |hist + ops|);
    }
  }
}
