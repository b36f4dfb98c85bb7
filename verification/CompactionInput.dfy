/** The input of a compaction: a merging iterator over one child per level-0 file and one
    concatenating child per sorted level. */
module CompactionInput {
  import opened DbFormat
  import opened Reads
  import opened Version
  import opened Inputs
  import opened Setup
  import opened CompactionReads
  import opened MergingIterator
  import MemTable

  /** What a concatenating iterator over the files of a sorted level walks through. */
  function Concat(files: seq<File>): (run: seq<Entry>) {
    if files == [] then [] else Concat(files[..|files| - 1]) + files[|files| - 1].run
  }

  lemma {:induction false} ConcatIsSorted(files: seq<File>)
    requires AllWellFormed(files) && Disjoint(files)
    ensures Sorted(Concat(files)) && forall e :: e in Concat(files) <==> e in LevelEntries(files)
  {
    if files != [] {
      var init, f := files[..|files| - 1], files[|files| - 1];
      ConcatIsSorted(init);
      var before := Concat(init);
      forall i, j | 0 <= i < |before| && 0 <= j < |f.run| ensures Less(before[i].ik, f.run[j].ik) {
        assert before[i] in Concat(init) && f.run[j] in f.run;
        var g :| g in init && before[i] in g.run;
        EntryInBounds(g, before[i]);
        EntryInBounds(f, f.run[j]);
        var x :| 0 <= x < |init| && init[x] == g;
        assert Less(files[x].largest, f.smallest);
      }
      assert files == init + [f];
    }
  }

  ghost predicate NoSharedKeyIn(a: seq<Entry>, b: seq<Entry>) {
    forall x, y :: 0 <= x < |a| && 0 <= y < |b| ==> a[x].ik != b[y].ik
  }

  /** Sorted children without a common internal key. */
  ghost predicate Mergeable(children: seq<seq<Entry>>) {
    && (forall i :: 0 <= i < |children| ==> Sorted(children[i]))
    && (forall i, j :: 0 <= i < |children| && 0 <= j < |children| && i != j ==> NoSharedKeyIn(children[i], children[j]))
  }

  lemma {:induction false} InsertAll(run: seq<Entry>, child: seq<Entry>) returns (r: seq<Entry>)
    requires Sorted(run) && Sorted(child) && NoSharedKeyIn(run, child)
    ensures Sorted(r) && Contents(r) == Contents(run) + Contents(child)
  {
    if child == [] {
      r := run;
    } else {
      var init, e := child[..|child| - 1], child[|child| - 1];
      var r' := InsertAll(run, init);
      assert child == init + [e];
      forall x | x in r' ensures x.ik != e.ik {
        assert x in Contents(run) + Contents(init);
        assert x in init ==> Less(x.ik, e.ik);
      }
      r := MemTable.Insert(r', e);
    }
  }

  /** Mergeable children have a merged sequence. */
  lemma {:induction false} MergeExists(children: seq<seq<Entry>>) returns (merged: seq<Entry>)
    requires Mergeable(children)
    ensures IsMerge(children, merged)
  {
    if children == [] {
      merged := [];
    } else {
      var init, child := children[..|children| - 1], children[|children| - 1];
      var m := MergeExists(init);
      forall x, y | 0 <= x < |m| && 0 <= y < |child| ensures m[x].ik != child[y].ik {
        var i, z :| InChild(init, i, z, m[x]);
        assert NoSharedKeyIn(children[i], child);
      }
      merged := InsertAll(m, child);
      MergeSnoc(children, init, child, m, merged);
    }
  }

  lemma MergeSnoc(children: seq<seq<Entry>>, init: seq<seq<Entry>>, child: seq<Entry>, m: seq<Entry>, merged: seq<Entry>)
    requires Mergeable(children) && children == init + [child] && IsMerge(init, m)
    requires Sorted(merged) && Contents(merged) == Contents(m) + Contents(child)
    ensures IsMerge(children, merged)
  {
    forall i, x | 0 <= i < |children| && 0 <= x < |children[i]| ensures children[i][x] in merged {
      if i < |init| {
        assert children[i] == init[i] && init[i][x] in m;
      }
      assert children[i][x] in Contents(m) + Contents(child);
    }
    forall p | 0 <= p < |merged| ensures Covered(children, merged[p]) {
      assert merged[p] in Contents(merged);
      if merged[p] in m {
        var q :| 0 <= q < |m| && m[q] == merged[p];
        var i, x :| InChild(init, i, x, m[q]);
        assert InChild(children, i, x, merged[p]);
      } else {
        var x :| 0 <= x < |child| && child[x] == merged[p];
        assert InChild(children, |init|, x, merged[p]);
      }
    }
    forall i, j, x, y | 0 <= i < |children| && 0 <= j < |children| && 0 <= x < |children[i]| && 0 <= y < |children[j]| && i != j
      ensures children[i][x].ik != children[j][y].ik
    {
      assert NoSharedKeyIn(children[i], children[j]);
    }
  }

  /** Drive a merging iterator from the first entry to the last. */
  method CollectAll(children: seq<seq<Entry>>) returns (run: seq<Entry>)
    requires Mergeable(children)
    ensures IsMerge(children, run)
  {
    hide *;
    ghost var merged := MergeExists(children);
    var input := new Iterator(children, merged);
    input.SeekToFirst();
    run := [];
    while input.Valid()
      invariant input.Invariant() && input.merged == merged
      invariant 0 <= input.at <= |merged| && run == merged[..input.at]
      decreases |merged| - input.at
    {
      CurrentInRange(input);
      run := run + [input.Current()];
      input.Next();
    }
    InvalidIsOutside(input);
    assert run == merged;
  }

  lemma CurrentInRange(input: Iterator)
    requires input.Invariant() && input.Valid()
    ensures 0 <= input.at < |input.merged|
  {
  }

  lemma InvalidIsOutside(input: Iterator)
    requires input.Invariant() && !input.Valid()
    ensures input.at < 0 || input.at == |input.merged|
  {
  }

  // -------------------------------------------------------- the children of a compaction

  lemma NewerRunsShareNoKey(a: seq<Entry>, b: seq<Entry>, S: set<Entry>, T: set<Entry>)
    requires Newer(S, T) && (forall e :: e in a ==> e in S) && (forall e :: e in b ==> e in T)
    ensures NoSharedKeyIn(a, b) && NoSharedKeyIn(b, a)
  {
    forall x, y | 0 <= x < |a| && 0 <= y < |b| ensures a[x].ik != b[y].ik {
      assert a[x] in a && b[y] in b;
    }
  }

  lemma Level0RunsShareNoKey(levels: seq<seq<File>>, ins: seq<File>, i: nat, j: nat)
    requires |levels| == NUM_LEVELS && UniqueNumbers(levels) && NumberOrdered(levels[0])
    requires Subset(ins, levels[0]) && i < |ins| && j < |ins| && ins[i] != ins[j]
    ensures NoSharedKeyIn(ins[i].run, ins[j].run)
  {
    var f, g := ins[i], ins[j];
    assert f in levels[0] && g in levels[0];
    assert f.number != g.number;
    if f.number > g.number {
      assert Newer(Contents(f.run), Contents(g.run));
      hide UniqueNumbers, NumberOrdered;
      NewerRunsShareNoKey(f.run, g.run, Contents(f.run), Contents(g.run));
    } else {
      assert Newer(Contents(g.run), Contents(f.run));
      hide UniqueNumbers, NumberOrdered;
      NewerRunsShareNoKey(g.run, f.run, Contents(g.run), Contents(f.run));
    }
  }

  lemma SubsetWellFormed(ins: seq<File>, files: seq<File>)
    requires Subset(ins, files) && AllWellFormed(files)
    ensures AllWellFormed(ins)
  {
    forall i | 0 <= i < |ins| ensures WellFormed(ins[i]) {
      assert ins[i] in files;
    }
  }

  /** The upper inputs, as children, are sorted, share no key, and hold the upper inputs' entries. */
  ghost predicate ChildrenOf(children: seq<seq<Entry>>, S: set<Entry>) {
    && Mergeable(children)
    && (forall i, x :: 0 <= i < |children| && 0 <= x < |children[i]| ==> children[i][x] in S)
    && (forall e :: e in S ==> Covered(children, e))
  }

  function UpperChildren(c: Compaction): (r: seq<seq<Entry>>) {
    if c.inputs0 == [] then []
    else if c.level == 0 then seq(|c.inputs0|, i requires 0 <= i < |c.inputs0| => c.inputs0[i].run)
    else [Concat(c.inputs0)]
  }

  function LowerChildren(c: Compaction): (r: seq<seq<Entry>>) {
    if c.inputs1 == [] then [] else [Concat(c.inputs1)]
  }

  lemma UpperChildrenOf(levels: seq<seq<File>>, c: Compaction)
    requires Inv(levels) && GoodInputs(levels, c)
    ensures ChildrenOf(UpperChildren(c), LevelEntries(c.inputs0))
  {
    SubsetWellFormed(c.inputs0, levels[c.level]);
    var children := UpperChildren(c);
    if c.level == 0 {
      forall i, j | 0 <= i < |children| && 0 <= j < |children| && i != j ensures NoSharedKeyIn(children[i], children[j]) {
        assert c.inputs0[i] != c.inputs0[j];
        Level0RunsShareNoKey(levels, c.inputs0, i, j);
      }
      FilesAsChildren(c.inputs0, children);
    } else {
      ConcatAsChild(c.inputs0);
    }
  }

  lemma FilesAsChildren(files: seq<File>, children: seq<seq<Entry>>)
    requires AllWellFormed(files) && |children| == |files| && forall i :: 0 <= i < |files| ==> children[i] == files[i].run
    requires forall i, j :: 0 <= i < |children| && 0 <= j < |children| && i != j ==> NoSharedKeyIn(children[i], children[j])
    ensures ChildrenOf(children, LevelEntries(files))
  {
    forall e | e in LevelEntries(files) ensures Covered(children, e) {
      var f :| f in files && e in f.run;
      var i :| 0 <= i < |files| && files[i] == f;
      var x :| 0 <= x < |f.run| && f.run[x] == e;
      assert InChild(children, i, x, e);
    }
    forall i, x | 0 <= i < |children| && 0 <= x < |children[i]| ensures children[i][x] in LevelEntries(files) {
      assert files[i] in files && files[i].run[x] in files[i].run;
    }
  }

  lemma ConcatAsChild(files: seq<File>)
    requires AllWellFormed(files) && Disjoint(files)
    ensures ChildrenOf([Concat(files)], LevelEntries(files))
  {
    ConcatIsSorted(files);
    var child := Concat(files);
    hide LevelEntries, Disjoint, AllWellFormed, Concat;
    forall e | e in LevelEntries(files) ensures Covered([child], e) {
      assert e in child;
      var x :| 0 <= x < |child| && child[x] == e;
      assert InChild([child], 0, x, e);
    }
  }

  lemma LowerChildrenOf(levels: seq<seq<File>>, c: Compaction)
    requires FilesOk(levels) && GoodInputs(levels, c)
    ensures ChildrenOf(LowerChildren(c), LevelEntries(c.inputs1))
  {
    SubsetWellFormed(c.inputs1, levels[c.level + 1]);
    OverlappingDisjoint(levels[c.level + 1], Some(c.smallest.key), Some(c.largest.key));
    if c.inputs1 != [] {
      ConcatAsChild(c.inputs1);
    }
  }

  lemma ChildrenUnion(a: seq<seq<Entry>>, b: seq<seq<Entry>>, S: set<Entry>, T: set<Entry>)
    requires ChildrenOf(a, S) && ChildrenOf(b, T) && Newer(S, T)
    ensures ChildrenOf(a + b, S + T)
  {
    var children := a + b;
    forall i, j | 0 <= i < |children| && 0 <= j < |children| && i != j ensures NoSharedKeyIn(children[i], children[j]) {
      if i < |a| && j >= |a| {
        AcrossShareNoKey(a, b, S, T, i, j - |a|);
      } else if i >= |a| && j < |a| {
        AcrossShareNoKey(a, b, S, T, j, i - |a|);
      } else if i < |a| {
        assert NoSharedKeyIn(a[i], a[j]);
      } else {
        assert NoSharedKeyIn(b[i - |a|], b[j - |a|]);
      }
    }
    forall e | e in S + T ensures Covered(children, e) {
      if e in S {
        var i, x :| InChild(a, i, x, e);
        assert InChild(children, i, x, e);
      } else {
        var i, x :| InChild(b, i, x, e);
        assert InChild(children, |a| + i, x, e);
      }
    }
    forall i, x | 0 <= i < |children| && 0 <= x < |children[i]| ensures children[i][x] in S + T {
      assert i < |a| ==> a[i][x] in S;
      assert i >= |a| ==> b[i - |a|][x] in T;
    }
  }

  lemma AcrossShareNoKey(a: seq<seq<Entry>>, b: seq<seq<Entry>>, S: set<Entry>, T: set<Entry>, i: nat, j: nat)
    requires ChildrenOf(a, S) && ChildrenOf(b, T) && Newer(S, T) && i < |a| && j < |b|
    ensures NoSharedKeyIn(a[i], b[j]) && NoSharedKeyIn(b[j], a[i])
  {
    forall e | e in a[i] ensures e in S {
      var x :| 0 <= x < |a[i]| && a[i][x] == e;
    }
    forall e | e in b[j] ensures e in T {
      var x :| 0 <= x < |b[j]| && b[j][x] == e;
    }
    NewerRunsShareNoKey(a[i], b[j], S, T);
  }

  lemma MergeContents(children: seq<seq<Entry>>, S: set<Entry>, run: seq<Entry>)
    requires ChildrenOf(children, S) && IsMerge(children, run)
    ensures Sorted(run) && Contents(run) == S
  {
    forall e | e in run ensures e in S {
      var p :| 0 <= p < |run| && run[p] == e;
      assert Covered(children, run[p]);
      var i, x :| InChild(children, i, x, e);
    }
    forall e | e in S ensures e in run {
      var i, x :| InChild(children, i, x, e);
    }
  }

  lemma LevelsNewer(levels: seq<seq<File>>, c: Compaction)
    requires Recency(levels) && GoodInputs(levels, c)
    ensures Newer(LevelEntries(c.inputs0), LevelEntries(c.inputs1))
  {
    hide *;
    GoodInputsFacts(levels, c);
    RecencyAt(levels, c.level, c.level + 1);
    LevelSplits(levels[c.level], c.inputs0);
    LevelSplits(levels[c.level + 1], c.inputs1);
    NewerSubsets(LevelEntries(levels[c.level]), LevelEntries(levels[c.level + 1]), LevelEntries(c.inputs0), LevelEntries(c.inputs1));
  }

  lemma InvFacts(levels: seq<seq<File>>)
    requires Inv(levels)
    ensures FilesOk(levels) && Recency(levels) && Distinct(AllEntries(levels)) && UniqueNumbers(levels)
  {
    hide FilesOk, Recency, Distinct, UniqueNumbers, NumberOrdered;
  }

  /** The merged input of a compaction: exactly the input files' entries, in order. */
  method MergedInput(ghost levels: seq<seq<File>>, c: Compaction) returns (input: seq<Entry>)
    requires Inv(levels) && GoodInputs(levels, c)
    ensures Sorted(input) && Contents(input) == InputEntries(c)
  {
    hide *;
    InvFacts(levels);
    UpperChildrenOf(levels, c);
    LowerChildrenOf(levels, c);
    LevelsNewer(levels, c);
    ghost var S, T := LevelEntries(c.inputs0), LevelEntries(c.inputs1);
    var children := UpperChildren(c) + LowerChildren(c);
    ChildrenUnion(UpperChildren(c), LowerChildren(c), S, T);
    MergeableChildren(children, S + T);
    input := CollectAll(children);
    MergeContents(children, S + T, input);
    InputsAre(c);
  }

  lemma MergeableChildren(children: seq<seq<Entry>>, S: set<Entry>)
    requires ChildrenOf(children, S)
    ensures Mergeable(children)
  {
  }

  lemma InputsAre(c: Compaction)
    ensures InputEntries(c) == LevelEntries(c.inputs0) + LevelEntries(c.inputs1)
  {
  }
}
