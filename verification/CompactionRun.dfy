/** A whole compaction, from its inputs to the installed version. */
module CompactionRun {
  import opened DbFormat
  import opened Reads
  import opened Version
  import opened Picking
  import opened Inputs
  import opened Setup
  import opened CompactionWork
  import opened CompactionReads
  import opened CompactionInput
  import opened CompactionOutput
  import opened Install
  import opened Edits
  import opened Flush

  /** The compaction would drop the deletion marker that hides `k` while a file left out of the next
      level still holds a value of `k`. */
  ghost predicate Exposes(levels: seq<seq<File>>, c: Compaction, s0: nat, k: UserKey)
    requires |levels| == NUM_LEVELS && c.level + 1 < NUM_LEVELS
  {
    ExposedBy(SplitOf({}, levels, c), s0, Markers(levels, c, s0), k)
  }

  ghost predicate ExposesNothing(levels: seq<seq<File>>, c: Compaction, s0: nat)
    requires |levels| == NUM_LEVELS && c.level + 1 < NUM_LEVELS
  {
    forall k :: !Exposes(levels, c, s0, k)
  }

  /** Files numbered from `next` that hold the pieces. */
  ghost predicate HoldPieces(files: seq<File>, pieces: seq<seq<Entry>>, next: nat, size: seq<Entry> -> nat) {
    && |files| == |pieces|
    && forall i :: 0 <= i < |files| ==> files[i].number == next + i && files[i].run == pieces[i] && files[i].size == size(pieces[i])
  }

  /** The outputs are the survivors of the merged input, cut as the plan says. */
  ghost predicate OutputsFollow(levels: seq<seq<File>>, c: Compaction, s0: nat, plan: Plan, next: nat, outputs: seq<File>) {
    exists input :: Sorted(input) && Contents(input) == InputEntries(c)
      && HoldPieces(outputs, Cutting(levels, c.level, Contents(input), s0, plan, input).Closed().outputs, next, plan.size)
  }

  lemma FollowsFrom(levels: seq<seq<File>>, c: Compaction, s0: nat, plan: Plan, next: nat, outputs: seq<File>, input: seq<Entry>, pieces: seq<seq<Entry>>)
    requires Sorted(input) && Contents(input) == InputEntries(c)
    requires pieces == Cutting(levels, c.level, Contents(input), s0, plan, input).Closed().outputs && |outputs| == |pieces|
    requires forall i :: 0 <= i < |outputs| ==> outputs[i].number == next + i && outputs[i].run == pieces[i] && outputs[i].size == plan.size(pieces[i])
    ensures OutputsFollow(levels, c, s0, plan, next, outputs)
  {
    hide Sorted, Contents, InputEntries, Cutting;
    assert HoldPieces(outputs, pieces, next, plan.size);
  }

  /** The merged input, filtered and cut into output files. */
  method CompactionOutputs(levels: seq<seq<File>>, c: Compaction, smallestSnapshot: nat, next: nat, plan: Plan)
    returns (outputs: seq<File>)
    requires Inv(levels) && GoodInputs(levels, c) && smallestSnapshot < MAX_SEQUENCE_NUMBER
    ensures forall i :: 0 <= i < |outputs| ==> outputs[i].number == next + i
    ensures OutputsFollow(levels, c, smallestSnapshot, plan, next, outputs)
    ensures AllWellFormed(outputs) && Disjoint(outputs)
    ensures forall e :: e in LevelEntries(outputs)
                <==> e in InputEntries(c) && !Dropped(levels, c.level, InputEntries(c), smallestSnapshot, e)
  {
    hide *;
    InvFacts(levels);
    var input := MergedInput(levels, c);
    InputDistinct(levels, c, Contents(input));
    CursorReady(levels);
    var cursor := new BaseLevelCursor(levels, c.level);
    var pieces := DoCompactionWork(input, smallestSnapshot, cursor, plan);
    KeptSorted(levels, c.level, Contents(input), smallestSnapshot, input);
    KeptBounded(levels, c, smallestSnapshot, input);
    outputs := MakeFiles(pieces, next, plan.size);
    FollowsFrom(levels, c, smallestSnapshot, plan, next, outputs, input, pieces);
    InContents(input);
  }

  lemma InContents(run: seq<Entry>)
    ensures forall e :: e in run <==> e in Contents(run)
  {
  }

  lemma InputDistinct(levels: seq<seq<File>>, c: Compaction, input: set<Entry>)
    requires Distinct(AllEntries(levels)) && GoodInputs(levels, c) && input == InputEntries(c)
    ensures Distinct(input)
  {
    hide *;
    GoodInputsFacts(levels, c);
    LevelSplits(levels[c.level], c.inputs0);
    LevelSplits(levels[c.level + 1], c.inputs1);
    LevelInAll(levels, c.level);
    LevelInAll(levels, c.level + 1);
    InputsAre(c);
    DistinctSubset(input, AllEntries(levels), LevelEntries(c.inputs0), LevelEntries(c.inputs1),
                   LevelEntries(levels[c.level]), LevelEntries(levels[c.level + 1]), LeftOut(levels[c.level], c.inputs0),
                   LeftOut(levels[c.level + 1], c.inputs1));
  }

  lemma DistinctSubset(input: set<Entry>, all: set<Entry>, i0: set<Entry>, i1: set<Entry>,
                       l0: set<Entry>, l1: set<Entry>, o0: set<Entry>, o1: set<Entry>)
    requires Distinct(all) && input == i0 + i1 && l0 == i0 + o0 && l1 == i1 + o1 && l0 <= all && l1 <= all
    ensures Distinct(input)
  {
    forall e | e in input ensures e in all {
      assert e in i0 ==> e in l0;
      assert e in i1 ==> e in l1;
    }
  }

  lemma CursorReady(levels: seq<seq<File>>)
    requires FilesOk(levels)
    ensures |levels| == NUM_LEVELS
    ensures forall l :: 1 <= l < NUM_LEVELS ==> AllWellFormed(levels[l]) && Disjoint(levels[l])
  {
    hide AllWellFormed, Disjoint, SortedBySmallest;
  }

  lemma EntryBounded(files: seq<File>, e: Entry)
    requires AllWellFormed(files) && e in LevelEntries(files)
    ensures e.ik.seqno <= MAX_SEQUENCE_NUMBER
  {
    var f :| f in files && e in f.run;
    var i :| 0 <= i < |f.run| && f.run[i] == e;
  }

  lemma KeptBounded(levels: seq<seq<File>>, c: Compaction, s0: nat, input: seq<Entry>)
    requires FilesOk(levels) && GoodInputs(levels, c) && Contents(input) == InputEntries(c)
    ensures forall e :: e in Kept(levels, c.level, Contents(input), s0, input) ==> e.ik.seqno <= MAX_SEQUENCE_NUMBER
  {
    hide *;
    GoodInputsFacts(levels, c);
    LevelOk(levels, c.level);
    LevelOk(levels, c.level + 1);
    SubsetWellFormed(c.inputs0, levels[c.level]);
    SubsetWellFormed(c.inputs1, levels[c.level + 1]);
    InputsAre(c);
    InContents(input);
    forall e | e in Kept(levels, c.level, Contents(input), s0, input) ensures e.ik.seqno <= MAX_SEQUENCE_NUMBER {
      assert e in input;
      if e in LevelEntries(c.inputs0) {
        EntryBounded(c.inputs0, e);
      } else {
        EntryBounded(c.inputs1, e);
      }
    }
  }

  lemma OutputsAreFresh(levels: seq<seq<File>>, outputs: seq<File>, next: nat)
    requires NumbersBelow(levels, next) && forall i :: 0 <= i < |outputs| ==> outputs[i].number == next + i
    ensures FreshNumbers(levels, outputs)
    ensures forall i, j :: 0 <= i < j < |outputs| ==> outputs[i].number != outputs[j].number
  {
  }

  lemma OutputsAreOk(levels: seq<seq<File>>, c: Compaction, s0: nat, outputs: seq<File>)
    requires AllWellFormed(outputs) && Disjoint(outputs)
    requires forall e :: e in LevelEntries(outputs) <==> e in InputEntries(c) && !Dropped(levels, c.level, InputEntries(c), s0, e)
    ensures OutputsOk(c, outputs)
  {
    hide AllWellFormed, Disjoint, LevelEntries, InputEntries, Dropped;
  }

  lemma ReplacedNumbersBelow(levels: seq<seq<File>>, c: Compaction, outputs: seq<File>, levels': seq<seq<File>>, next: nat)
    requires NumbersBelow(levels, next) && Replaced(levels, c, outputs, levels')
    requires forall i :: 0 <= i < |outputs| ==> outputs[i].number == next + i
    ensures NumbersBelow(levels', next + |outputs|)
  {
    forall l, f | 0 <= l < |levels'| && f in levels'[l] ensures f.number < next + |outputs| {
      Origin(levels, c, outputs, levels', l, f);
    }
  }

  /** Compact: the version invariant is kept, no entry is invented, and every read of the files at or
      above the oldest snapshot is unchanged if and only if no key is exposed. */
  method Compact(levels: seq<seq<File>>, c: Compaction, smallestSnapshot: nat, next: nat, plan: Plan)
    returns (levels': seq<seq<File>>, next': nat, ghost outputs': seq<File>)
    requires Inv(levels) && GoodInputs(levels, c) && NumbersBelow(levels, next)
    requires smallestSnapshot < MAX_SEQUENCE_NUMBER
    ensures Inv(levels') && next' == next + |outputs'| && NumbersBelow(levels', next')
    ensures OutputsFollow(levels, c, smallestSnapshot, plan, next, outputs') && AllWellFormed(outputs')
    ensures Replaced(levels, c, outputs', levels') && AllEntries(levels') <= AllEntries(levels)
    ensures forall e :: e in LevelEntries(outputs')
                <==> e in InputEntries(c) && !Dropped(levels, c.level, InputEntries(c), smallestSnapshot, e)
    ensures ExposesNothing(levels, c, smallestSnapshot) <==> Agree(AllEntries(levels'), AllEntries(levels), smallestSnapshot)
  {
    hide *;
    InvFacts(levels);
    GoodInputsFacts(levels, c);
    var outputs := CompactionOutputs(levels, c, smallestSnapshot, next, plan);
    OutputsAreFresh(levels, outputs, next);
    OutputsAreOk(levels, c, smallestSnapshot, outputs);
    levels' := ApplyCompaction(levels, c, outputs);
    next', outputs' := next + |outputs|, outputs;
    ReplacedNumbersBelow(levels, c, outputs, levels', next);
    FewerEntriesDistinct(levels, c, outputs, levels');
    ReadsAfter(levels, c, smallestSnapshot, outputs, levels');
  }

  lemma NothingAbove(levels: seq<seq<File>>)
    ensures Newer({}, AllEntries(levels)) && {} + AllEntries(levels) == AllEntries(levels)
  {
    hide AllEntries;
  }

  lemma ReadsAfter(levels: seq<seq<File>>, c: Compaction, s0: nat, outputs: seq<File>, levels': seq<seq<File>>)
    requires FilesOk(levels) && Recency(levels) && Distinct(AllEntries(levels)) && GoodInputs(levels, c)
    requires Replaced(levels, c, outputs, levels') && |levels| == NUM_LEVELS && c.level + 1 < NUM_LEVELS
    requires forall e :: e in LevelEntries(outputs) <==> e in InputEntries(c) && !Dropped(levels, c.level, InputEntries(c), s0, e)
    ensures ExposesNothing(levels, c, s0) <==> Agree(AllEntries(levels'), AllEntries(levels), s0)
  {
    hide *;
    var p, markers, kept := SplitOf({}, levels, c), Markers(levels, c, s0), LevelEntries(outputs);
    NothingAbove(levels);
    NothingAbove(levels');
    UnfoldFields({}, levels, c);
    CompactionPreservesReads({}, levels, c, s0, kept, p, markers);
    ReplacedAll({}, levels, c, outputs, levels', p);
    UnfoldExposes(levels, c, s0);
  }

  lemma UnfoldExposes(levels: seq<seq<File>>, c: Compaction, s0: nat)
    requires |levels| == NUM_LEVELS && c.level + 1 < NUM_LEVELS
    ensures ExposesNothing(levels, c, s0) <==> forall k :: !ExposedBy(SplitOf({}, levels, c), s0, Markers(levels, c, s0), k)
  {
    hide ExposedBy, Markers, SplitOf;
    forall k ensures Exposes(levels, c, s0, k) <==> ExposedBy(SplitOf({}, levels, c), s0, Markers(levels, c, s0), k) {
    }
  }

  /** A next level in which no user key is split across two files is safe to compact into. */
  lemma UnsplitExposesNothing(levels: seq<seq<File>>, c: Compaction, s0: nat)
    requires FilesOk(levels) && GoodInputs(levels, c) && |levels| == NUM_LEVELS && c.level + 1 < NUM_LEVELS
    requires UserDisjoint(levels[c.level + 1])
    ensures ExposesNothing(levels, c, s0)
  {
    hide *;
    UserDisjointIsClosed(levels, c);
    UnfoldExposes(levels, c, s0);
    forall k ensures !ExposedBy(SplitOf({}, levels, c), s0, Markers(levels, c, s0), k) {
      ClosedExposesNothing({}, levels, c, s0, SplitOf({}, levels, c), Markers(levels, c, s0), k);
    }
  }

  // ------------------------------------------------------------------------ trivial moves

  /** One input file and nothing to merge it with. */
  predicate IsTrivialMove(levels: seq<seq<File>>, c: Compaction, maxGrandParentOverlap: nat)
    requires |levels| == NUM_LEVELS
  {
    && |c.inputs0| == 1 && c.inputs1 == []
    && (c.level + 2 < NUM_LEVELS ==>
          TotalFileSize(Overlapping(levels[c.level + 2], Some(c.smallest.key), Some(c.largest.key))) <= maxGrandParentOverlap)
  }

  ghost predicate NoRepeats(files: seq<File>) {
    forall i, j :: 0 <= i < j < |files| ==> files[i] != files[j]
  }

  /** Different files of the level after the next that the compaction's range overlaps. */
  ghost predicate AreGrandparents(levels: seq<seq<File>>, c: Compaction, files: seq<File>)
    requires |levels| == NUM_LEVELS && c.level + 2 < NUM_LEVELS
  {
    && NoRepeats(files)
    && forall f :: f in files ==> f in levels[c.level + 2] && Overlaps(f, Some(c.smallest.key), Some(c.largest.key))
  }

  /** A file may move down exactly when it is the only input and no grandparents add up to more than the limit. */
  lemma TrivialMoveIff(levels: seq<seq<File>>, c: Compaction, maxGrandParentOverlap: nat)
    requires FilesOk(levels) && c.level + 2 < NUM_LEVELS
    ensures IsTrivialMove(levels, c, maxGrandParentOverlap)
       <==> |c.inputs0| == 1 && c.inputs1 == [] && forall g :: AreGrandparents(levels, c, g) ==> TotalFileSize(g) <= maxGrandParentOverlap
  {
    var all := Overlapping(levels[c.level + 2], Some(c.smallest.key), Some(c.largest.key));
    OverlappingSorted(levels[c.level + 2], Some(c.smallest.key), Some(c.largest.key));
    SortedNoRepeats(all);
    hide Overlapping, TotalFileSize, Overlaps, NoRepeats, FilesOk;
    assert AreGrandparents(levels, c, all);
    forall g | AreGrandparents(levels, c, g) ensures TotalFileSize(g) <= TotalFileSize(all) {
      NoMoreThanAll(g, all);
    }
  }

  lemma SortedNoRepeats(files: seq<File>)
    requires SortedBySmallest(files)
    ensures NoRepeats(files)
  {
    forall i, j | 0 <= i < j < |files| ensures files[i] != files[j] {
      assert BySmallest(files[i], files[j]);
    }
  }

  /** Different files that are all in a list take no more bytes than the list. */
  lemma {:induction false} NoMoreThanAll(g: seq<File>, all: seq<File>)
    requires NoRepeats(g) && forall f :: f in g ==> f in all
    ensures TotalFileSize(g) <= TotalFileSize(all)
    decreases |g|
  {
    if g != [] {
      var init, last := g[..|g| - 1], g[|g| - 1];
      assert last in g;
      var y :| 0 <= y < |all| && all[y] == last;
      TotalWithout(all, y);
      var rest := all[..y] + all[y + 1..];
      forall f | f in init ensures f in rest {
        assert f in g && f != last;
        LeftWithout(all, y, f);
      }
      NoMoreThanAll(init, rest);
    }
  }

  lemma LeftWithout(all: seq<File>, y: nat, f: File)
    requires y < |all| && f in all && f != all[y]
    ensures f in all[..y] + all[y + 1..]
  {
    assert all == all[..y] + [all[y]] + all[y + 1..];
  }

  lemma TotalWithout(g: seq<File>, x: nat)
    requires x < |g|
    ensures TotalFileSize(g) == TotalFileSize(g[..x] + g[x + 1..]) + g[x].size
  {
    hide TotalFileSize;
    TotalFileSizeConcat(g[..x], g[x + 1..]);
    TotalFileSizeConcat([], [g[x]]);
    TotalFileSizeConcat(g[..x], [g[x]]);
    TotalFileSizeConcat(g[..x] + [g[x]], g[x + 1..]);
    assert g == g[..x] + [g[x]] + g[x + 1..];
  }

  lemma MovedFileOk(levels: seq<seq<File>>, c: Compaction)
    requires FilesOk(levels) && GoodInputs(levels, c) && |c.inputs0| == 1
    ensures OutputsOk(c, c.inputs0)
  {
    hide *;
    GoodInputsFacts(levels, c);
    LevelOk(levels, c.level);
    SubsetWellFormed(c.inputs0, levels[c.level]);
    InputsAre(c);
    OneFileOk(c, c.inputs0);
  }

  lemma OneFileOk(c: Compaction, files: seq<File>)
    requires |files| == 1 && AllWellFormed(files) && InputEntries(c) == LevelEntries(files) + LevelEntries(c.inputs1)
    ensures OutputsOk(c, files)
  {
    hide InputEntries, LevelEntries, WellFormed;
  }

  /** Moving a file down one level changes no read at all. */
  method Move(levels: seq<seq<File>>, c: Compaction, ghost next: nat) returns (levels': seq<seq<File>>)
    requires Inv(levels) && GoodInputs(levels, c) && |c.inputs0| == 1 && c.inputs1 == [] && NumbersBelow(levels, next)
    ensures Inv(levels') && AllEntries(levels') == AllEntries(levels) && NumbersBelow(levels', next)
    ensures Replaced(levels, c, c.inputs0, levels')
  {
    hide *;
    InvFacts(levels);
    MovedFileOk(levels, c);
    levels' := ApplyCompaction(levels, c, c.inputs0);
    MovedEntries(levels, c, levels');
    MovedNumbers(levels, c, levels', next);
  }

  lemma MovedNumbers(levels: seq<seq<File>>, c: Compaction, levels': seq<seq<File>>, next: nat)
    requires NumbersBelow(levels, next) && Replaced(levels, c, c.inputs0, levels') && GoodInputs(levels, c)
    ensures NumbersBelow(levels', next)
  {
    hide *;
    GoodInputsFacts(levels, c);
    MovedFrom(levels, c, levels');
    FromBelow(levels, levels', next);
  }

  ghost predicate From(levels: seq<seq<File>>, levels': seq<seq<File>>) {
    forall l, f :: 0 <= l < |levels'| && f in levels'[l] ==> exists m :: 0 <= m < |levels| && f in levels[m]
  }

  lemma MovedFrom(levels: seq<seq<File>>, c: Compaction, levels': seq<seq<File>>)
    requires Replaced(levels, c, c.inputs0, levels') && c.level < |levels| && Subset(c.inputs0, levels[c.level])
    ensures From(levels, levels')
  {
    forall l, f | 0 <= l < |levels'| && f in levels'[l] ensures exists m :: 0 <= m < |levels| && f in levels[m] {
      Origin(levels, c, c.inputs0, levels', l, f);
      assert f in levels[l] || f in levels[c.level];
    }
  }

  lemma FromBelow(levels: seq<seq<File>>, levels': seq<seq<File>>, next: nat)
    requires NumbersBelow(levels, next) && From(levels, levels')
    ensures NumbersBelow(levels', next)
  {
  }

  lemma MovedEntries(levels: seq<seq<File>>, c: Compaction, levels': seq<seq<File>>)
    requires GoodInputs(levels, c) && c.inputs1 == [] && Replaced(levels, c, c.inputs0, levels')
    ensures AllEntries(levels') == AllEntries(levels)
  {
    hide *;
    GoodInputsFacts(levels, c);
    var p := SplitOf({}, levels, c);
    UnfoldFields({}, levels, c);
    ReplacedAll({}, levels, c, c.inputs0, levels', p);
    SplitIsWhole({}, levels, c, p);
    NothingAbove(levels);
    NothingAbove(levels');
    NoEntries(c.inputs1);
    KeepAll(p, LevelEntries(c.inputs0));
  }

  lemma NoEntries(files: seq<File>)
    requires files == []
    ensures LevelEntries(files) == {}
  {
  }

  lemma KeepAll(p: Split, kept: set<Entry>)
    requires p.input == kept + {}
    ensures p.After(kept) == p.All()
  {
  }
}
