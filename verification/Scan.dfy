/** Iterating over a database: the user iterator on top of the merged memtables and files. */
module Scan {
  import opened DbFormat
  import opened Reads
  import opened Version
  import opened WriteGroups
  import opened DbState
  import opened CompactionReads
  import opened CompactionInput
  import opened MergingIterator
  import opened DbIter
  import opened Db

  /** One child per level-0 file, one concatenating child per other level that has files. */
  function LevelChildren(levels: seq<seq<File>>, l: nat): (r: seq<seq<Entry>>)
    requires l < |levels|
  {
    var files := levels[l];
    if l == 0 then seq(|files|, i requires 0 <= i < |files| => files[i].run)
    else if files == [] then []
    else [Concat(files)]
  }

  lemma LevelChildrenOf(levels: seq<seq<File>>, l: nat)
    requires Inv(levels) && l < |levels|
    ensures ChildrenOf(LevelChildren(levels, l), LevelEntries(levels[l]))
  {
    if l == 0 {
      Level0ChildrenOf(levels);
    } else if levels[l] != [] {
      ConcatAsChild(levels[l]);
    }
  }

  lemma Level0ChildrenOf(levels: seq<seq<File>>)
    requires Inv(levels)
    ensures ChildrenOf(LevelChildren(levels, 0), LevelEntries(levels[0]))
  {
    var files, children := levels[0], LevelChildren(levels, 0);
    forall i, j | 0 <= i < |children| && 0 <= j < |children| && i != j ensures NoSharedKeyIn(children[i], children[j]) {
      assert i < j ==> BySmallest(files[i], files[j]);
      assert j < i ==> BySmallest(files[j], files[i]);
      Level0RunsShareNoKey(levels, files, i, j);
    }
    FilesAsChildren(files, children);
  }

  lemma FirstLevels(levels: seq<seq<File>>)
    ensures LevelsBetween(levels, 0, 0) == {} && ChildrenOf([], {})
    ensures LevelsBetween(levels, 0, |levels|) == AllEntries(levels)
  {
    hide LevelEntries;
    assert IsMerge([], []);
  }

  lemma OneMoreLevel(levels: seq<seq<File>>, l: nat)
    requires l < |levels|
    ensures LevelsBetween(levels, 0, l + 1) == LevelsBetween(levels, 0, l) + LevelEntries(levels[l])
  {
    hide LevelEntries;
  }

  /** The children for all the files of a version. */
  method AddIterators(levels: seq<seq<File>>) returns (children: seq<seq<Entry>>)
    requires Inv(levels)
    ensures ChildrenOf(children, AllEntries(levels))
  {
    hide *;
    children := [];
    InvFacts(levels);
    FirstLevels(levels);
    for l := 0 to |levels|
      invariant ChildrenOf(children, LevelsBetween(levels, 0, l))
    {
      LevelChildrenOf(levels, l);
      UpperLevelsAreNewer(levels, l, l);
      ChildrenUnion(children, LevelChildren(levels, l), LevelsBetween(levels, 0, l), LevelEntries(levels[l]));
      OneMoreLevel(levels, l);
      children := children + LevelChildren(levels, l);
    }
  }

  lemma RunAsChild(run: seq<Entry>)
    requires Sorted(run)
    ensures ChildrenOf([run], Contents(run))
  {
    hide Sorted;
    forall e | e in Contents(run) ensures Covered([run], e) {
      var x :| 0 <= x < |run| && run[x] == e;
      assert InChild([run], 0, x, e);
    }
  }

  /** The internal iterator of a database: exactly the store's entries, in order. */
  method NewInternalIterator(db: DBImpl) returns (iter: Iterator)
    requires db.Valid()
    ensures fresh(iter) && iter.Invariant() && Sorted(iter.merged) && Contents(iter.merged) == db.Store() && Distinct(db.Store())
  {
    hide *;
    Parts(db);
    FilesFacts(db.levels, db.hist, db.immStart, db.nextFileNumber);
    MemFacts(db.hist, db.immStart, db.memStart, db.lastSequence, db.mem, db.imm);
    var immRun := if db.imm.Some? then db.imm.value else [];
    ImmRun(db.hist, db.immStart, db.memStart, db.imm, immRun);
    var files := AddIterators(db.levels);
    ghost var M, I, F := Contents(db.mem), Contents(immRun), AllEntries(db.levels);
    StoreLayers(db.levels, db.hist, db.immStart, db.memStart, M, I);
    RunAsChild(db.mem);
    RunAsChild(immRun);
    ChildrenUnion([immRun], files, I, F);
    var children := [db.mem] + ([immRun] + files);
    ChildrenUnion([db.mem], [immRun] + files, M, I + F);
    MergeableChildren(children, M + (I + F));
    ghost var merged := MergeExists(children);
    MergeContents(children, M + (I + F), merged);
    StoreIs(db, immRun);
    iter := new Iterator(children, merged);
  }

  /** The key-value pairs collected are exactly the live entries up to position `n`, in order. */
  ghost predicate Collected(run: seq<Entry>, s: nat, n: int, pairs: seq<(UserKey, Bytes)>) {
    && (forall i, j :: 0 <= i < j < |pairs| ==> pairs[i].0 < pairs[j].0)
    && (forall i :: 0 <= i < |pairs| ==> FromLive(run, s, n, pairs[i]))
    && (forall x :: x < n && Live(run, s, x) ==> (run[x].ik.key, run[x].value) in pairs)
  }

  ghost predicate LivePair(run: seq<Entry>, s: nat, x: int, p: (UserKey, Bytes)) {
    Live(run, s, x) && p == (run[x].ik.key, run[x].value)
  }

  ghost predicate FromLive(run: seq<Entry>, s: nat, n: int, p: (UserKey, Bytes)) {
    exists x :: x < n && LivePair(run, s, x, p)
  }

  lemma CollectNext(run: seq<Entry>, s: nat, n: int, cur: int, pairs: seq<(UserKey, Bytes)>, p: (UserKey, Bytes))
    requires Sorted(run) && Collected(run, s, n, pairs) && NoLive(run, s, n - 1, cur) && LivePair(run, s, cur, p) && n <= cur
    ensures Collected(run, s, cur + 1, pairs + [p])
  {
    var pairs' := pairs + [p];
    forall i | 0 <= i < |pairs| ensures pairs[i].0 < p.0 {
      var x :| x < n && LivePair(run, s, x, pairs[i]);
      LiveKeysIncrease(run, s, x, cur);
    }
    forall i | 0 <= i < |pairs'| ensures FromLive(run, s, cur + 1, pairs'[i]) {
      if i < |pairs| {
        assert FromLive(run, s, n, pairs[i]);
      } else {
        assert LivePair(run, s, cur, pairs'[i]);
      }
    }
    forall x | x < cur + 1 && Live(run, s, x) ensures (run[x].ik.key, run[x].value) in pairs' {
      if x < n {
        assert (run[x].ik.key, run[x].value) in pairs;
      } else {
        assert x == cur && pairs'[|pairs|] == p;
      }
    }
  }

  lemma CollectedAll(run: seq<Entry>, s: nat, n: int, pairs: seq<(UserKey, Bytes)>, k: UserKey, v: Bytes)
    requires Sorted(run) && Distinct(Contents(run)) && Collected(run, s, n, pairs) && NoLive(run, s, n - 1, |run|)
    ensures (k, v) in pairs <==> Read(Contents(run), k, s) == Some(v)
  {
    LiveIsRead(run, s, k, v);
    if (k, v) in pairs {
      var i :| 0 <= i < |pairs| && pairs[i] == (k, v);
      var x :| x < n && LivePair(run, s, x, pairs[i]);
    }
  }

  lemma NothingCollected(run: seq<Entry>, s: nat)
    ensures Collected(run, s, 0, [])
  {
  }

  /** A full forward scan at a snapshot lists, in key order, exactly the map that the acknowledged
      batches up to the snapshot leave behind. */
  method ScanForward(db: DBImpl, snapshot: Option<Snapshot>) returns (pairs: seq<(UserKey, Bytes)>)
    requires db.Valid() && (snapshot.Some? ==> snapshot.value in db.snapshots)
    ensures forall i, j :: 0 <= i < j < |pairs| ==> pairs[i].0 < pairs[j].0
    ensures var s := if snapshot.Some? then snapshot.value.seqno else db.lastSequence;
            && s <= |BatchOps(db.committed)|
            && (forall k, v :: (k, v) in pairs <==> Read(db.Store(), k, s) == Some(v))
            && (db.intact ==> forall k, v :: (k, v) in pairs <==> Lookup(Replay(BatchOps(db.committed)[..s]), k) == Some(v))
  {
    hide *;
    var s := if snapshot.Some? then snapshot.value.seqno else db.lastSequence;
    ReadablePoint(db, snapshot, s);
    var iter := NewInternalIterator(db);
    ghost var run, store := iter.merged, db.Store();
    var it := new DBIter(iter, s);
    pairs := CollectForward(it);
    forall k, v ensures (k, v) in pairs <==> Read(store, k, s) == Some(v) {
    }
    if db.intact {
      forall k, v ensures (k, v) in pairs <==> Lookup(Replay(BatchOps(db.committed)[..s]), k) == Some(v) {
        StoreIsReplay(db, snapshot, s, k);
      }
    }
  }

  method CollectForward(it: DBIter) returns (pairs: seq<(UserKey, Bytes)>)
    requires it.Invariant() && Distinct(Contents(it.iter.merged))
    modifies it, it.iter
    ensures forall i, j :: 0 <= i < j < |pairs| ==> pairs[i].0 < pairs[j].0
    ensures forall k, v :: (k, v) in pairs <==> Read(Contents(it.iter.merged), k, it.sequence) == Some(v)
  {
    hide *;
    ghost var run, s, n := it.iter.merged, it.sequence, 0;
    Unfold(it);
    it.SeekToFirst();
    Unfold(it);
    FirstFound(run, s, it.valid, it.cur);
    pairs := [];
    NothingCollected(run, s);
    while it.valid
      invariant it.Invariant() && Sorted(run) && Collected(run, s, n, pairs)
      invariant it.valid ==> n <= it.cur && NoLive(run, s, n - 1, it.cur)
      invariant !it.valid ==> NoLive(run, s, n - 1, |run|)
      decreases |run| - n
    {
      Unfold(it);
      pairs := pairs + [(it.Key(), it.Value())];
      CollectNext(run, s, n, it.cur, pairs[..|pairs| - 1], (it.Key(), it.Value()));
      n := it.cur + 1;
      it.Next();
    }
    CollectedInOrder(run, s, n, pairs);
    forall k, v ensures (k, v) in pairs <==> Read(Contents(run), k, s) == Some(v) {
      CollectedAll(run, s, n, pairs, k, v);
    }
  }

  lemma Unfold(it: DBIter)
    requires it.Invariant()
    ensures Sorted(it.iter.merged)
    ensures it.valid ==> 0 <= it.cur < |it.iter.merged| && Live(it.iter.merged, it.sequence, it.cur)
    ensures it.valid ==> LivePair(it.iter.merged, it.sequence, it.cur, (it.Key(), it.Value()))
  {
    hide Iterator.Invariant, Iterator.Valid, Sorted;
  }

  lemma FirstFound(run: seq<Entry>, s: nat, valid: bool, cur: int)
    requires forall i :: Live(run, s, i) ==> valid && cur <= i
    ensures valid ==> NoLive(run, s, -1, cur)
    ensures !valid ==> NoLive(run, s, -1, |run|)
  {
    hide Live;
  }

  lemma CollectedInOrder(run: seq<Entry>, s: nat, n: int, pairs: seq<(UserKey, Bytes)>)
    requires Collected(run, s, n, pairs)
    ensures forall i, j :: 0 <= i < j < |pairs| ==> pairs[i].0 < pairs[j].0
  {
    hide Live, LivePair;
  }

  lemma StoreIsReplay(db: DBImpl, snapshot: Option<Snapshot>, s: nat, k: UserKey)
    requires db.Valid() && db.intact && (snapshot.Some? ==> snapshot.value in db.snapshots)
    requires s == if snapshot.Some? then snapshot.value.seqno else db.lastSequence
    ensures s <= |BatchOps(db.committed)| && Read(db.Store(), k, s) == Lookup(Replay(BatchOps(db.committed)[..s]), k)
  {
    hide *;
    Parts(db);
    ReadablePoint(db, snapshot, s);
    FilesFacts(db.levels, db.hist, db.immStart, db.nextFileNumber);
    MemFacts(db.hist, db.immStart, db.memStart, db.lastSequence, db.mem, db.imm);
    var immRun := if db.imm.Some? then db.imm.value else [];
    ImmRun(db.hist, db.immStart, db.memStart, db.imm, immRun);
    StoreIs(db, immRun);
    StoreReads(db.levels, db.hist, db.immStart, SmallestSnapshot(db.snapshots, db.lastSequence), k, s);
    StoreIsHistory(db, immRun, db.levels, db.hist, db.immStart, db.memStart);
  }
}
