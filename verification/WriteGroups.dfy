/** Group commit: how queued writers are merged into one log record. */
module WriteGroups {
  import opened DbFormat
  import opened Reads

  /** A write batch: its operations and the size of its encoding. */
  datatype Batch = Batch(ops: seq<Op>, byteSize: nat)

  /** A queued writer.  One without a batch only asks for a memtable switch. */
  datatype Writer = Writer(id: nat, batch: Option<Batch>, sync: bool) {
    function Ops(): (ops: seq<Op>) {
      if batch.Some? then batch.value.ops else []
    }

    function ByteSize(): (n: nat) {
      if batch.Some? then batch.value.byteSize else 0
    }
  }

  /** The operations of a line of writers, in order. */
  ghost function BatchOps(writers: seq<Writer>): seq<Op> {
    if writers == [] then [] else BatchOps(writers[..|writers| - 1]) + writers[|writers| - 1].Ops()
  }

  lemma BatchOpsStep(writers: seq<Writer>, i: nat)
    requires i < |writers|
    ensures BatchOps(writers[..i + 1]) == BatchOps(writers[..i]) + writers[i].Ops()
  {
    assert writers[..i + 1][..i] == writers[..i] && writers[..i + 1][i] == writers[i];
  }

  lemma {:induction false} BatchOpsConcat(a: seq<Writer>, b: seq<Writer>)
    ensures BatchOps(a + b) == BatchOps(a) + BatchOps(b)
    decreases |b|
  {
    if b == [] {
      assert a + b == a;
      assert BatchOps(b) == [];
    } else {
      var init, last := b[..|b| - 1], b[|b| - 1].Ops();
      BatchOpsConcat(a, init);
      BatchOpsLast(a + b);
      BatchOpsLast(b);
      assert (a + b)[..|a + b| - 1] == a + init && (a + b)[|a + b| - 1] == b[|b| - 1];
      hide BatchOps;
      assert BatchOps(a) + BatchOps(init) + last == BatchOps(a) + (BatchOps(init) + last);
    }
  }

  lemma BatchOpsLast(writers: seq<Writer>)
    requires writers != []
    ensures BatchOps(writers) == BatchOps(writers[..|writers| - 1]) + writers[|writers| - 1].Ops()
  {
  }

  /** The batch of writer `i` occupies one contiguous range of the sequence numbers, and the ranges
      follow each other in queue order. */
  lemma BatchRange(writers: seq<Writer>, i: nat)
    requires i < |writers|
    ensures |BatchOps(writers[..i])| + |writers[i].Ops()| == |BatchOps(writers[..i + 1])| <= |BatchOps(writers)|
    ensures BatchOps(writers)[|BatchOps(writers[..i])|..|BatchOps(writers[..i + 1])|] == writers[i].Ops()
  {
    BatchOpsStep(writers, i);
    BatchOpsConcat(writers[..i + 1], writers[i + 1..]);
    assert writers[..i + 1] + writers[i + 1..] == writers;
  }

  lemma BatchOpsMonotone(writers: seq<Writer>, i: nat, j: nat)
    requires i <= j <= |writers|
    ensures |BatchOps(writers[..i])| <= |BatchOps(writers[..j])|
  {
    BatchOpsConcat(writers[..i], writers[i..j]);
    assert writers[..i] + writers[i..j] == writers[..j];
  }

  /** A sequence number that separates two writers. */
  ghost predicate Boundary(writers: seq<Writer>, s: nat) {
    exists j :: 0 <= j <= |writers| && |BatchOps(writers[..j])| == s
  }

  /** A snapshot taken at a boundary sees all of a batch or none of it. */
  lemma SnapshotSeesWholeBatches(writers: seq<Writer>, s: nat, i: nat)
    requires Boundary(writers, s) && i < |writers|
    ensures |BatchOps(writers[..i + 1])| <= s || s <= |BatchOps(writers[..i])|
  {
    var j :| 0 <= j <= |writers| && |BatchOps(writers[..j])| == s;
    if i < j {
      BatchOpsMonotone(writers, i + 1, j);
    } else {
      BatchOpsMonotone(writers, j, i);
    }
  }

  /** The first `s` operations contain every batch whole, as one range, or no part of it. */
  ghost predicate SeesWholeBatches(writers: seq<Writer>, s: nat) {
    && s <= |BatchOps(writers)|
    && forall i :: 0 <= i < |writers| ==> SeesAllOrNone(writers, s, i)
  }

  ghost predicate SeesAllOrNone(writers: seq<Writer>, s: nat, i: nat)
    requires i < |writers| && s <= |BatchOps(writers)|
  {
    var lo, hi := |BatchOps(writers[..i])|, |BatchOps(writers[..i + 1])|;
    s <= lo || (lo <= hi <= s && BatchOps(writers)[..s][lo..hi] == writers[i].Ops())
  }

  lemma BoundarySeesWholeBatches(writers: seq<Writer>, s: nat)
    requires Boundary(writers, s) && s <= |BatchOps(writers)|
    ensures SeesWholeBatches(writers, s)
  {
    hide BatchOps, Boundary, SeesAllOrNone;
    forall i | 0 <= i < |writers| ensures SeesAllOrNone(writers, s, i) {
      BoundarySeesAllOrNone(writers, s, i);
    }
  }

  lemma BoundarySeesAllOrNone(writers: seq<Writer>, s: nat, i: nat)
    requires Boundary(writers, s) && s <= |BatchOps(writers)| && i < |writers|
    ensures SeesAllOrNone(writers, s, i)
  {
    hide BatchOps, Boundary;
    SnapshotSeesWholeBatches(writers, s, i);
    BatchRange(writers, i);
    var lo, hi := |BatchOps(writers[..i])|, |BatchOps(writers[..i + 1])|;
    if hi <= s {
      PartOfPrefix(BatchOps(writers), s, lo, hi);
    }
  }

  lemma PartOfPrefix(ops: seq<Op>, s: nat, lo: nat, hi: nat)
    requires lo <= hi <= s <= |ops|
    ensures ops[..s][lo..hi] == ops[lo..hi]
  {
  }

  lemma BoundaryKept(writers: seq<Writer>, more: seq<Writer>, s: nat)
    requires Boundary(writers, s)
    ensures Boundary(writers + more, s)
  {
    var j :| 0 <= j <= |writers| && |BatchOps(writers[..j])| == s;
    assert (writers + more)[..j] == writers[..j];
  }

  lemma EndIsBoundary(writers: seq<Writer>)
    ensures Boundary(writers, |BatchOps(writers)|)
  {
    assert writers[..|writers|] == writers;
  }

  // ----------------------------------------------------------------------- BuildBatchGroup

  ghost function GroupSize(writers: seq<Writer>): nat {
    if writers == [] then 0 else GroupSize(writers[..|writers| - 1]) + writers[|writers| - 1].ByteSize()
  }

  lemma GroupSizeStep(writers: seq<Writer>, i: nat)
    requires i < |writers|
    ensures GroupSize(writers[..i + 1]) == GroupSize(writers[..i]) + writers[i].ByteSize()
  {
    assert writers[..i + 1][..i] == writers[..i] && writers[..i + 1][i] == writers[i];
  }

  const MAX_GROUP_BYTES := 0x10_0000
  const SMALL_WRITE_BYTES := 0x2_0000

  /** A small leader keeps its group small. */
  function MaxGroupSize(first: Writer): nat {
    if first.ByteSize() <= SMALL_WRITE_BYTES then first.ByteSize() + SMALL_WRITE_BYTES else MAX_GROUP_BYTES
  }

  /** Writer `m` may join the group led by writer 0. */
  ghost predicate Admits(writers: seq<Writer>, m: nat)
    requires 0 < m < |writers|
  {
    && (writers[m].sync ==> writers[0].sync)
    && (writers[m].batch.Some? ==> GroupSize(writers[..m + 1]) <= MaxGroupSize(writers[0]))
  }

  /** `n` is the length of the longest prefix of the queue in which every writer but the leader is
      admitted. */
  ghost predicate IsGroup(writers: seq<Writer>, n: nat) {
    && 1 <= n <= |writers|
    && (forall m :: 1 <= m < n ==> Admits(writers, m))
    && (n < |writers| ==> !Admits(writers, n))
  }

  /** More than one of the writers has a batch, the first one among them. */
  ghost predicate Several(writers: seq<Writer>) {
    exists i :: 0 < i < |writers| && writers[i].batch.Some?
  }

  lemma SeveralStep(writers: seq<Writer>, n: nat)
    requires 0 < n < |writers|
    ensures Several(writers[..n + 1]) <==> Several(writers[..n]) || writers[n].batch.Some?
    ensures !Several(writers[..1])
  {
    if Several(writers[..n]) {
      var i :| 0 < i < n && writers[..n][i].batch.Some?;
      assert writers[..n + 1][i].batch.Some?;
    }
    if writers[n].batch.Some? {
      assert writers[..n + 1][n].batch.Some?;
    }
    if Several(writers[..n + 1]) {
      var i :| 0 < i < n + 1 && writers[..n + 1][i].batch.Some?;
      assert i < n ==> writers[..n][i].batch.Some?;
    }
  }

  /** The group is determined by the queue. */
  lemma GroupUnique(writers: seq<Writer>, n: nat, m: nat)
    requires IsGroup(writers, n) && IsGroup(writers, m)
    ensures n == m
  {
  }

  lemma GroupOfOne(writers: seq<Writer>)
    requires writers != []
    ensures BatchOps(writers[..1]) == writers[0].Ops() && GroupSize(writers[..1]) == writers[0].ByteSize() && !Several(writers[..1])
  {
    BatchOpsStep(writers, 0);
    GroupSizeStep(writers, 0);
  }

  /** What writer `n` adds, and when it is admitted. */
  lemma NextWriter(writers: seq<Writer>, n: nat)
    requires 0 < n < |writers|
    ensures Admits(writers, n) <==>
            && (writers[n].sync ==> writers[0].sync)
            && (writers[n].batch.Some? ==> GroupSize(writers[..n]) + writers[n].ByteSize() <= MaxGroupSize(writers[0]))
    ensures writers[n].batch.None? ==>
              && BatchOps(writers[..n + 1]) == BatchOps(writers[..n]) && GroupSize(writers[..n + 1]) == GroupSize(writers[..n])
              && (Several(writers[..n + 1]) <==> Several(writers[..n]))
    ensures writers[n].batch.Some? ==>
              && BatchOps(writers[..n + 1]) == BatchOps(writers[..n]) + writers[n].batch.value.ops
              && GroupSize(writers[..n + 1]) == GroupSize(writers[..n]) + writers[n].ByteSize() && Several(writers[..n + 1])
  {
    GroupSizeStep(writers, n);
    BatchOpsStep(writers, n);
    SeveralStep(writers, n);
    hide GroupSize, BatchOps, Several;
  }

  lemma MaxSizeIs(first: Writer)
    ensures MaxGroupSize(first) == if first.ByteSize() <= SMALL_WRITE_BYTES then first.ByteSize() + SMALL_WRITE_BYTES else MAX_GROUP_BYTES
    ensures first.batch.Some? ==> first.Ops() == first.batch.value.ops
  {
  }

  lemma IsGroupFolds(writers: seq<Writer>, n: nat)
    requires 1 <= n <= |writers| && (forall m :: 1 <= m < n ==> Admits(writers, m)) && (n < |writers| ==> !Admits(writers, n))
    ensures IsGroup(writers, n)
  {
    hide Admits;
  }

  /** Collect the leader's group.  With one batch the leader's own is used; with more they are copied
      into the scratch batch, which must be empty. */
  method BuildBatchGroup(writers: seq<Writer>, tmpBatch: seq<Op>) returns (n: nat, ops: seq<Op>, tmpBatch': seq<Op>)
    requires writers != [] && writers[0].batch.Some? && tmpBatch == []
    ensures IsGroup(writers, n)
    ensures ops == BatchOps(writers[..n])
    ensures tmpBatch' == if Several(writers[..n]) then ops else []
  {
    hide *;
    var first := writers[0];
    GroupOfOne(writers);
    MaxSizeIs(first);
    ops, tmpBatch' := first.batch.value.ops, tmpBatch;
    var copied := false;
    var size := first.ByteSize();
    var maxSize := MAX_GROUP_BYTES;
    if size <= SMALL_WRITE_BYTES {
      maxSize := size + SMALL_WRITE_BYTES;
    }
    n := 1;
    while n < |writers|
      invariant 1 <= n <= |writers|
      invariant forall m :: 1 <= m < n ==> Admits(writers, m)
      invariant ops == BatchOps(writers[..n]) && size == GroupSize(writers[..n])
      invariant tmpBatch' == if copied then ops else []
      invariant copied <==> Several(writers[..n])
      invariant !copied ==> ops == first.batch.value.ops
    {
      var w := writers[n];
      NextWriter(writers, n);
      if w.sync && !first.sync {
        break;
      }
      if w.batch.Some? {
        size := size + w.ByteSize();
        if size > maxSize {
          break;
        }
        if !copied {
          tmpBatch', copied := tmpBatch' + first.batch.value.ops, true;
        }
        tmpBatch' := tmpBatch' + w.batch.value.ops;
        ops := tmpBatch';
      }
      n := n + 1;
    }
    IsGroupFolds(writers, n);
  }
}
