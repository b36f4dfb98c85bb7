/** Setting up a compaction: automatic and manual picks, the next level's inputs, expansion. */
module Setup {
  import opened DbFormat
  import opened Reads
  import opened Version
  import opened Picking
  import opened Inputs
  import Builder

  /** A compaction from `level` to `level + 1`, and the range of its level-`level` inputs. */
  datatype Compaction = Compaction(level: nat, inputs0: seq<File>, inputs1: seq<File>,
                                   smallest: InternalKey, largest: InternalKey)

  /** What every way of setting up a compaction guarantees: the inputs at `level` are settled, and
      the inputs at `level + 1` are exactly the files that share a user key with their hull. */
  ghost predicate GoodInputs(levels: seq<seq<File>>, c: Compaction) {
    && |levels| == NUM_LEVELS && c.level + 1 < NUM_LEVELS
    && Settled(levels[c.level], c.inputs0) && Ordered(c.level, c.inputs0)
    && (forall f :: f in c.inputs0 ==> Inside(f, Some(c.smallest.key), Some(c.largest.key)))
    && c.inputs1 == Overlapping(levels[c.level + 1], Some(c.smallest.key), Some(c.largest.key))
  }

  lemma GoodInputsFacts(levels: seq<seq<File>>, c: Compaction)
    requires GoodInputs(levels, c)
    ensures |levels| == NUM_LEVELS && c.level + 1 < NUM_LEVELS
    ensures Subset(c.inputs0, levels[c.level]) && Subset(c.inputs1, levels[c.level + 1])
    ensures Settled(levels[c.level], c.inputs0)
  {
  }

  ghost predicate IsSmallest(files: seq<File>, k: InternalKey) {
    && (exists f :: f in files && f.smallest == k)
    && (forall f :: f in files ==> AtMost(k, f.smallest))
  }

  /** The minimal range covering all the inputs. */
  method GetRange(inputs: seq<File>) returns (smallest: InternalKey, largest: InternalKey)
    requires inputs != []
    ensures IsSmallest(inputs, smallest) && IsLargest(inputs, largest)
    ensures forall f :: f in inputs ==> Inside(f, Some(smallest.key), Some(largest.key))
  {
    smallest, largest := inputs[0].smallest, inputs[0].largest;
    for i := 1 to |inputs|
      invariant IsSmallest(inputs[..i], smallest) && IsLargest(inputs[..i], largest)
    {
      assert inputs[..i + 1] == inputs[..i] + [inputs[i]];
      if Less(inputs[i].smallest, smallest) {
        smallest := inputs[i].smallest;
      }
      if Less(largest, inputs[i].largest) {
        largest := inputs[i].largest;
      }
    }
    assert inputs[..|inputs|] == inputs;
  }

  // ------------------------------------------------------ contiguity of overlapping files

  lemma {:induction false} OverlappingDisjoint(files: seq<File>, begin: Option<UserKey>, end: Option<UserKey>)
    requires Disjoint(files)
    ensures Disjoint(Overlapping(files, begin, end))
  {
    if files != [] {
      var init, last := files[..|files| - 1], files[|files| - 1];
      OverlappingDisjoint(init, begin, end);
      var r := Overlapping(init, begin, end);
      forall i | 0 <= i < |r| ensures Less(r[i].largest, last.smallest) {
        assert r[i] in init;
      }
    }
  }

  /** Nor are files repeated when none were. */
  lemma {:induction false} OverlappingSorted(files: seq<File>, begin: Option<UserKey>, end: Option<UserKey>)
    requires SortedBySmallest(files)
    ensures SortedBySmallest(Overlapping(files, begin, end))
  {
    if files != [] {
      var init, last := files[..|files| - 1], files[|files| - 1];
      OverlappingSorted(init, begin, end);
      var r := Overlapping(init, begin, end);
      forall i | 0 <= i < |r| ensures BySmallest(r[i], last) {
        assert r[i] in init;
      }
    }
  }

  lemma OverlappingOrdered(files: seq<File>, level: nat, begin: Option<UserKey>, end: Option<UserKey>, n: nat)
    requires SortedBySmallest(files) && (level > 0 ==> Disjoint(files))
    requires n <= |Overlapping(files, begin, end)|
    ensures Ordered(level, Overlapping(files, begin, end)[..n])
  {
    if level == 0 {
      OverlappingSorted(files, begin, end);
    } else {
      OverlappingDisjoint(files, begin, end);
    }
  }

  /** A prefix of the overlapping files of a sorted level is contiguous. */
  lemma OverlappingContiguous(files: seq<File>, begin: Option<UserKey>, end: Option<UserKey>, n: nat)
    requires AllWellFormed(files) && Disjoint(files)
    requires n <= |Overlapping(files, begin, end)|
    ensures Contiguous(files, Overlapping(files, begin, end)[..n])
  {
    var r := Overlapping(files, begin, end);
    OverlappingDisjoint(files, begin, end);
    forall f, g, h | f in r[..n] && h in r[..n] && g in files && Between(f, g, h)
      ensures g in r[..n]
    {
      assert f in r && h in r;
      Bounds(g);
      Bounds(h);
      assert g in r;
      var i :| 0 <= i < |r| && r[i] == g;
      var j :| 0 <= j < n && r[j] == h;
      assert i < n;
    }
  }

  lemma SingleContiguous(files: seq<File>, f: File)
    requires AllWellFormed(files) && Disjoint(files) && f in files
    ensures Contiguous(files, [f])
  {
    Bounds(f);
    forall g | g in files ensures !Between(f, g, f) {
      Bounds(g);
    }
  }

  // --------------------------------------------------------------------- SetupOtherInputs

  lemma LevelDistinct(levels: seq<seq<File>>, level: nat)
    requires Distinct(AllEntries(levels)) && level < |levels|
    ensures Distinct(LevelEntries(levels[level]))
  {
  }

  lemma InsideOverlaps(files: seq<File>, f: File, lo: UserKey, hi: UserKey)
    requires AllWellFormed(files) && f in files && Inside(f, Some(lo), Some(hi))
    ensures Overlaps(f, Some(lo), Some(hi))
  {
    Bounds(f);
  }

  /** The files that overlap the range, closed at the boundary. */
  ghost predicate ClosedOverlap(files: seq<File>, level: nat, lo: UserKey, hi: UserKey, r: seq<File>) {
    Ordered(level, r) && exists overlap :: IsOverlap(files, level, Some(lo), Some(hi), overlap) && IsClosure(files, overlap, r)
  }

  /** The level's own overlapping files, closed at the boundary, are never empty when they come from
      a range that covers an input. */
  method ExpandInputs(levels: seq<seq<File>>, level: nat, inputs0: seq<File>, smallest: InternalKey, largest: InternalKey)
    returns (expanded0: seq<File>)
    requires Inv(levels) && level < NUM_LEVELS
    requires Settled(levels[level], inputs0)
    requires forall f :: f in inputs0 ==> Inside(f, Some(smallest.key), Some(largest.key))
    ensures Settled(levels[level], expanded0) && Ordered(level, expanded0)
    ensures forall f :: f in inputs0 ==> f in expanded0
    ensures ClosedOverlap(levels[level], level, smallest.key, largest.key, expanded0)
  {
    hide IsOverlap, IsClosure;
    ghost var lo, hi;
    expanded0, lo, hi := GetOverlappingInputs(levels[level], level, Some(smallest.key), Some(largest.key));
    LevelDistinct(levels, level);
    forall f | f in inputs0 ensures f in expanded0 {
      InsideOverlaps(levels[level], f, smallest.key, largest.key);
    }
    assert expanded0 != [] by {
      assert inputs0[0] in expanded0;
    }
    OverlappingOrdered(levels[level], level, lo, hi, |expanded0|);
    assert expanded0[..|expanded0|] == expanded0;
    if level > 0 {
      OverlappingContiguous(levels[level], lo, hi, |expanded0|);
    }
    ghost var overlap := expanded0;
    expanded0 := CloseInputs(levels[level], level, expanded0);
    assert IsOverlap(levels[level], level, Some(smallest.key), Some(largest.key), overlap) && IsClosure(levels[level], overlap, expanded0);
  }

  /** The recorded range is exactly the hull of the level's inputs. */
  ghost predicate ExactHull(c: Compaction) {
    IsSmallest(c.inputs0, c.smallest) && IsLargest(c.inputs0, c.largest)
  }

  /** The compaction of these inputs: their hull, and the files of the next level that overlap it. */
  ghost predicate IsCompactionOf(levels: seq<seq<File>>, level: nat, inputs0: seq<File>, c: Compaction)
    requires level + 1 < |levels|
  {
    && c.level == level && c.inputs0 == inputs0 && ExactHull(c)
    && c.inputs1 == Overlapping(levels[level + 1], Some(c.smallest.key), Some(c.largest.key))
  }

  /** The hull of both levels' inputs. */
  ghost predicate IsJointHull(c: Compaction, lo: InternalKey, hi: InternalKey) {
    IsSmallest(c.inputs0 + c.inputs1, lo) && IsLargest(c.inputs0 + c.inputs1, hi)
  }

  /** More files of the level, not too many bytes, and no more files of the next level. */
  ghost predicate Improves(first: Compaction, wide: Compaction, expandedLimit: nat) {
    && |wide.inputs0| > |first.inputs0|
    && TotalFileSize(first.inputs1) + TotalFileSize(wide.inputs0) < expandedLimit
    && |wide.inputs1| == |first.inputs1|
  }

  /** What the inputs are, given the files first picked: the least upward closed set that contains the picked files, or
      the closed overlap of the joint hull of those and the next level's inputs, exactly if that improves on it. */
  ghost predicate IsSetup(levels: seq<seq<File>>, level: nat, picked: seq<File>, expandedLimit: nat, c: Compaction)
    requires level + 1 < |levels|
  {
    exists first :: IsFirstSetup(levels, level, picked, first) && IsBestSetup(levels, level, first, expandedLimit, c)
  }

  ghost predicate IsFirstSetup(levels: seq<seq<File>>, level: nat, picked: seq<File>, first: Compaction)
    requires level + 1 < |levels|
  {
    IsClosure(levels[level], picked, first.inputs0) && Ordered(level, first.inputs0) && IsCompactionOf(levels, level, first.inputs0, first)
  }

  ghost predicate IsBestSetup(levels: seq<seq<File>>, level: nat, first: Compaction, expandedLimit: nat, c: Compaction)
    requires level + 1 < |levels|
  {
    if first.inputs1 == [] then c == first
    else exists wide :: IsWideSetup(levels, level, first, wide) && c == if Improves(first, wide, expandedLimit) then wide else first
  }

  ghost predicate IsWideSetup(levels: seq<seq<File>>, level: nat, first: Compaction, wide: Compaction)
    requires level + 1 < |levels|
  {
    && IsCompactionOf(levels, level, wide.inputs0, wide)
    && exists lo, hi :: IsJointHull(first, lo, hi) && ClosedOverlap(levels[level], level, lo.key, hi.key, wide.inputs0)
  }

  /** The range of settled inputs and the files of the next level that overlap it. */
  method NextLevelInputs(levels: seq<seq<File>>, level: nat, inputs0: seq<File>) returns (c: Compaction)
    requires |levels| == NUM_LEVELS && level + 1 < NUM_LEVELS
    requires Settled(levels[level], inputs0) && Ordered(level, inputs0)
    ensures GoodInputs(levels, c) && c.level == level && c.inputs0 == inputs0 && ExactHull(c)
    ensures IsCompactionOf(levels, level, inputs0, c)
  {
    var smallest, largest := GetRange(inputs0);
    var inputs1, _, _ := GetOverlappingInputs(levels[level + 1], level + 1, Some(smallest.key), Some(largest.key));
    c := Compaction(level, inputs0, inputs1, smallest, largest);
  }

  /** Boundary closure, the overlapping files of the next level, and the attempt to take more files
      of this level without taking more of the next one. */
  method SetupOtherInputs(levels: seq<seq<File>>, level: nat, picked: seq<File>, expandedLimit: nat)
    returns (c: Compaction)
    requires Inv(levels) && level + 1 < NUM_LEVELS
    requires Picked(levels[level], level, picked)
    ensures GoodInputs(levels, c) && c.level == level && ExactHull(c) && forall f :: f in picked ==> f in c.inputs0
    ensures IsSetup(levels, level, picked, expandedLimit, c)
  {
    LevelReady(levels, level);
    hide *;
    var inputs0 := CloseInputs(levels[level], level, picked);
    var first := NextLevelInputs(levels, level, inputs0);
    FoldFirst(levels, level, picked, first);
    c := first;
    if first.inputs1 == [] {
      FoldUnexpanded(levels, level, picked, first, expandedLimit);
    } else {
      c := TryToExpand(levels, level, first, expandedLimit);
      FoldBest(levels, level, picked, first, expandedLimit, c);
    }
  }

  lemma LevelReady(levels: seq<seq<File>>, level: nat)
    requires Inv(levels) && level + 1 < NUM_LEVELS
    ensures |levels| == NUM_LEVELS && AllWellFormed(levels[level]) && SortedBySmallest(levels[level])
    ensures Distinct(LevelEntries(levels[level])) && (level > 0 ==> Disjoint(levels[level]))
  {
    LevelDistinct(levels, level);
  }

  lemma FoldFirst(levels: seq<seq<File>>, level: nat, picked: seq<File>, first: Compaction)
    requires |levels| == NUM_LEVELS && level + 1 < NUM_LEVELS
    requires IsClosure(levels[level], picked, first.inputs0) && Ordered(level, first.inputs0) && IsCompactionOf(levels, level, first.inputs0, first)
    ensures IsFirstSetup(levels, level, picked, first) && forall f :: f in picked ==> f in first.inputs0
  {
    hide InEveryClosure, ClosedUpward, Ordered, IsCompactionOf;
  }

  lemma FoldUnexpanded(levels: seq<seq<File>>, level: nat, picked: seq<File>, first: Compaction, expandedLimit: nat)
    requires |levels| == NUM_LEVELS && level + 1 < NUM_LEVELS && IsFirstSetup(levels, level, picked, first) && first.inputs1 == []
    ensures IsSetup(levels, level, picked, expandedLimit, first)
  {
    hide IsFirstSetup;
    assert IsBestSetup(levels, level, first, expandedLimit, first);
  }

  lemma FoldBest(levels: seq<seq<File>>, level: nat, picked: seq<File>, first: Compaction, expandedLimit: nat, c: Compaction)
    requires |levels| == NUM_LEVELS && level + 1 < NUM_LEVELS
    requires IsFirstSetup(levels, level, picked, first) && IsBestSetup(levels, level, first, expandedLimit, c)
    requires forall f :: f in picked ==> f in first.inputs0
    ensures IsSetup(levels, level, picked, expandedLimit, c)
  {
    hide IsFirstSetup, IsBestSetup;
  }

  /** The wider inputs, if they improve on the first ones. */
  method TryToExpand(levels: seq<seq<File>>, level: nat, first: Compaction, expandedLimit: nat) returns (c: Compaction)
    requires Inv(levels) && level + 1 < NUM_LEVELS && GoodInputs(levels, first) && first.level == level && ExactHull(first) && first.inputs1 != []
    ensures GoodInputs(levels, c) && c.level == level && ExactHull(c) && forall f :: f in first.inputs0 ==> f in c.inputs0
    ensures IsBestSetup(levels, level, first, expandedLimit, c)
  {
    hide *;
    LevelReady(levels, level);
    GoodInputsFacts(levels, first);
    SettledSome(levels[level], first.inputs0);
    var allStart, allLimit := GetRange(first.inputs0 + first.inputs1);
    PartInside(first.inputs0, first.inputs1, allStart, allLimit);
    var expanded0 := ExpandInputs(levels, level, first.inputs0, allStart, allLimit);
    c := first;
    ghost var wide := CompactionOf(levels, level, expanded0);
    FoldWide(levels, level, first, allStart, allLimit, wide);
    if |expanded0| > |first.inputs0| && TotalFileSize(first.inputs1) + TotalFileSize(expanded0) < expandedLimit {
      var expanded := NextLevelInputs(levels, level, expanded0);
      CompactionOfUnique(levels, level, expanded0, expanded, wide);
      if |expanded.inputs1| == |first.inputs1| {
        c := expanded;
      }
    }
    FoldChoice(levels, level, first, wide, expandedLimit, c);
  }

  /** Some compaction of the inputs exists, and only one. */
  lemma CompactionOf(levels: seq<seq<File>>, level: nat, inputs0: seq<File>) returns (c: Compaction)
    requires |levels| == NUM_LEVELS && level + 1 < NUM_LEVELS && Settled(levels[level], inputs0)
    ensures IsCompactionOf(levels, level, inputs0, c) && c.inputs0 == inputs0
  {
    var largest := LargestExists(inputs0);
    var smallest := SmallestExists(inputs0);
    c := Compaction(level, inputs0, Overlapping(levels[level + 1], Some(smallest.key), Some(largest.key)), smallest, largest);
    hide IsSmallest, IsLargest, Overlapping, Settled;
  }

  lemma SettledSome(files: seq<File>, ins: seq<File>)
    requires Settled(files, ins)
    ensures ins != []
  {
  }

  lemma PartInside(a: seq<File>, b: seq<File>, lo: InternalKey, hi: InternalKey)
    requires forall f :: f in a + b ==> Inside(f, Some(lo.key), Some(hi.key))
    ensures forall f :: f in a ==> Inside(f, Some(lo.key), Some(hi.key))
  {
    hide Inside;
    assert forall f :: f in a ==> f in a + b;
  }

  lemma {:induction false} SmallestExists(files: seq<File>) returns (k: InternalKey)
    requires files != []
    ensures IsSmallest(files, k)
  {
    k := files[0].smallest;
    if |files| > 1 {
      assert files == [files[0]] + files[1..];
      var k' := SmallestExists(files[1..]);
      if Less(k', k) {
        k := k';
      }
    }
    assert files[0] in files;
  }

  lemma HullUnique(files: seq<File>, lo: InternalKey, lo': InternalKey, hi: InternalKey, hi': InternalKey)
    requires IsSmallest(files, lo) && IsSmallest(files, lo') && IsLargest(files, hi) && IsLargest(files, hi')
    ensures lo == lo' && hi == hi'
  {
    LessIsTotalOrder(lo, lo', lo);
    LessIsTotalOrder(hi, hi', hi);
  }

  lemma CompactionOfUnique(levels: seq<seq<File>>, level: nat, inputs0: seq<File>, c: Compaction, c': Compaction)
    requires level + 1 < |levels| && IsCompactionOf(levels, level, inputs0, c) && IsCompactionOf(levels, level, inputs0, c')
    ensures c == c'
  {
    HullUnique(inputs0, c.smallest, c'.smallest, c.largest, c'.largest);
    hide IsSmallest, IsLargest, Overlapping;
  }

  lemma FoldWide(levels: seq<seq<File>>, level: nat, first: Compaction, lo: InternalKey, hi: InternalKey, wide: Compaction)
    requires |levels| == NUM_LEVELS && level + 1 < NUM_LEVELS && IsSmallest(first.inputs0 + first.inputs1, lo) && IsLargest(first.inputs0 + first.inputs1, hi)
    requires IsCompactionOf(levels, level, wide.inputs0, wide) && ClosedOverlap(levels[level], level, lo.key, hi.key, wide.inputs0)
    ensures IsWideSetup(levels, level, first, wide)
  {
    hide IsSmallest, IsLargest, IsCompactionOf, ClosedOverlap;
    assert IsJointHull(first, lo, hi);
  }

  lemma FoldChoice(levels: seq<seq<File>>, level: nat, first: Compaction, wide: Compaction, expandedLimit: nat, c: Compaction)
    requires |levels| == NUM_LEVELS && level + 1 < NUM_LEVELS && first.inputs1 != [] && IsWideSetup(levels, level, first, wide)
    requires var improves := |wide.inputs0| > |first.inputs0| && TotalFileSize(first.inputs1) + TotalFileSize(wide.inputs0) < expandedLimit
               && |wide.inputs1| == |first.inputs1|;
             c == if improves then wide else first
    ensures IsBestSetup(levels, level, first, expandedLimit, c)
  {
    hide IsWideSetup, TotalFileSize;
    assert IsWideSetup(levels, level, first, wide) && c == if Improves(first, wide, expandedLimit) then wide else first;
  }

  /** A disjoint list of copies of one file has one element. */
  lemma OnlyInput(ins: seq<File>, f: File)
    requires ins != [] && WellFormed(f) && Disjoint(ins) && forall g :: g in ins ==> g == f
    ensures ins == [f]
  {
    Bounds(f);
    LessIsTotalOrder(f.smallest, f.largest, f.smallest);
    assert ins[0] in ins;
    if |ins| > 1 {
      FirstTwo(ins);
    }
  }

  lemma FirstTwo(ins: seq<File>)
    requires |ins| > 1 && Disjoint(ins)
    ensures ins[0] in ins && ins[1] in ins && Less(ins[0].largest, ins[1].smallest)
  {
  }

  // ---------------------------------------------------------- PickCompaction, CompactRange

  /** The first file after the level's compaction pointer, wrapping around to the first file. */
  method PickFile(files: seq<File>, pointer: Option<InternalKey>) returns (f: File)
    requires files != []
    ensures exists i :: 0 <= i < |files| && IsPicked(files, pointer, i) && f == files[i]
  {
    for i := 0 to |files|
      invariant pointer.None? ==> i == 0
      invariant pointer.Some? ==> forall j :: 0 <= j < i ==> !Less(pointer.value, files[j].largest)
    {
      if pointer.None? || Less(pointer.value, files[i].largest) {
        assert IsPicked(files, pointer, i);
        return files[i];
      }
    }
    assert IsPicked(files, pointer, 0);
    f := files[0];
  }

  ghost predicate IsPicked(files: seq<File>, pointer: Option<InternalKey>, i: nat)
    requires i < |files|
  {
    match pointer
    case None => i == 0
    case Some(p) =>
      if Less(p, files[i].largest) then forall j :: 0 <= j < i ==> !Less(p, files[j].largest)
      else i == 0 && forall j :: 0 <= j < |files| ==> !Less(p, files[j].largest)
  }

  /** The files an automatic compaction first picks: one file, or in level 0 everything its range reaches. */
  ghost predicate IsFirstPick(files: seq<File>, level: nat, f: File, picked: seq<File>) {
    if level > 0 then picked == [f] else IsOverlap(files, 0, Some(f.smallest.key), Some(f.largest.key), picked)
  }

  /** Exactly the compaction that starting from `f` gives. */
  ghost predicate IsAutomaticPick(levels: seq<seq<File>>, level: nat, f: File, expandedLimit: nat, c: Compaction)
    requires level + 1 < |levels|
  {
    exists picked :: IsFirstPick(levels[level], level, f, picked) && IsSetup(levels, level, picked, expandedLimit, c)
  }

  /** An automatic compaction started from one file of the level. */
  method PickCompaction(levels: seq<seq<File>>, level: nat, f: File, expandedLimit: nat) returns (c: Compaction)
    requires Inv(levels) && level + 1 < NUM_LEVELS && f in levels[level]
    ensures GoodInputs(levels, c) && c.level == level && ExactHull(c) && f in c.inputs0
    ensures IsAutomaticPick(levels, level, f, expandedLimit, c)
  {
    var picked := [f];
    hide IsSetup, IsOverlap, InEveryClosedRange;
    if level == 0 {
      var overlapping, lo, hi := GetOverlappingInputs(levels[0], 0, Some(f.smallest.key), Some(f.largest.key));
      OverlappingOrdered(levels[0], 0, lo, hi, |overlapping|);
      assert overlapping[..|overlapping|] == overlapping;
      picked := overlapping;
      Bounds(f);
      assert f in picked;
    } else {
      SingleContiguous(levels[level], f);
    }
    assert IsFirstPick(levels[level], level, f, picked);
    c := SetupOtherInputs(levels, level, picked, expandedLimit);
  }

  /** Widening a range to a closed one does not make an empty overlap non-empty. */
  lemma NoneOverlapping(files: seq<File>, begin: Option<UserKey>, end: Option<UserKey>, lo: Option<UserKey>, hi: Option<UserKey>)
    requires Covers(lo, hi, begin, end) && InEveryClosedRange(files, begin, end, lo, hi)
    requires lo.Some? == begin.Some? && hi.Some? == end.Some?
    ensures Overlapping(files, lo, hi) == [] <==> forall f :: f in files ==> !Overlaps(f, begin, end)
  {
    var r := Overlapping(files, lo, hi);
    assert r == [] <==> forall f :: f !in r by {
      assert r != [] ==> r[0] in r;
    }
    if forall f :: f in files ==> !Overlaps(f, begin, end) {
      assert Covers(begin, end, begin, end) && ClosedRange(files, begin, end);
    }
  }

  /** How many of the overlapping files are taken: all of them in level 0, elsewhere up to the one that reaches `limit` bytes. */
  ghost predicate IsCut(all: seq<File>, level: nat, limit: nat, n: nat) {
    && 1 <= n <= |all| && (level == 0 ==> n == |all|)
    && (level > 0 ==>
          && (forall m :: 1 <= m < n ==> TotalFileSize(all[..m]) < limit)
          && (n == |all| || TotalFileSize(all[..n]) >= limit))
  }

  /** Exactly the compaction of the range. */
  ghost predicate IsManualPick(levels: seq<seq<File>>, level: nat, begin: Option<UserKey>, end: Option<UserKey>,
                               limit: nat, expandedLimit: nat, c: Compaction)
    requires level + 1 < |levels|
  {
    exists all, n :: IsRangePick(levels[level], level, begin, end, limit, all, n) && IsSetup(levels, level, all[..n], expandedLimit, c)
  }

  ghost predicate IsRangePick(files: seq<File>, level: nat, begin: Option<UserKey>, end: Option<UserKey>, limit: nat, all: seq<File>, n: nat) {
    IsOverlap(files, level, begin, end, all) && IsCut(all, level, limit, n)
  }

  /** Take files until `limit` bytes are reached. */
  method CutAtLimit(all: seq<File>, limit: nat) returns (n: nat)
    requires all != []
    ensures forall level :: level > 0 ==> IsCut(all, level, limit, n)
    ensures n <= |all|
  {
    var total := 0;
    for i := 0 to |all|
      invariant total == TotalFileSize(all[..i]) && forall m :: 1 <= m <= i ==> TotalFileSize(all[..m]) < limit
    {
      assert all[..i + 1][..i] == all[..i];
      total := total + all[i].size;
      if total >= limit {
        return i + 1;
      }
    }
    n := |all|;
  }

  /** A manual compaction of a key range.  Outside level 0 it stops once `limit` bytes are picked. */
  method CompactRange(levels: seq<seq<File>>, level: nat, begin: Option<UserKey>, end: Option<UserKey>,
                      limit: nat, expandedLimit: nat) returns (c: Option<Compaction>)
    requires Inv(levels) && level + 1 < NUM_LEVELS
    ensures c.Some? ==> GoodInputs(levels, c.value) && c.value.level == level && ExactHull(c.value)
    ensures c.Some? ==> IsManualPick(levels, level, begin, end, limit, expandedLimit, c.value)
    ensures c.None? <==> forall f :: f in levels[level] ==> !Overlaps(f, begin, end)
  {
    hide *;
    LevelReady(levels, level);
    var inputs, lo, hi := GetOverlappingInputs(levels[level], level, begin, end);
    NoneOverlapping(levels[level], begin, end, lo, hi);
    if inputs == [] {
      return None;
    }
    var n := |inputs|;
    if level > 0 {
      n := CutAtLimit(inputs, limit);
    } else {
      AllOfIt(inputs, limit);
    }
    CutBounds(inputs, level, limit, n);
    RangeIsPicked(levels[level], level, lo, hi, inputs, n);
    var r := SetupOtherInputs(levels, level, inputs[..n], expandedLimit);
    FoldManual(levels, level, begin, end, limit, inputs, n, expandedLimit, r);
    return Some(r);
  }

  lemma AllOfIt(all: seq<File>, limit: nat)
    requires all != []
    ensures IsCut(all, 0, limit, |all|)
  {
  }

  lemma CutBounds(all: seq<File>, level: nat, limit: nat, n: nat)
    requires IsCut(all, level, limit, n)
    ensures 1 <= n <= |all| && (level == 0 ==> n == |all|)
  {
    hide TotalFileSize;
  }

  lemma FoldManual(levels: seq<seq<File>>, level: nat, begin: Option<UserKey>, end: Option<UserKey>, limit: nat, all: seq<File>, n: nat,
                   expandedLimit: nat, c: Compaction)
    requires level + 1 < |levels| && IsOverlap(levels[level], level, begin, end, all) && IsCut(all, level, limit, n) && n <= |all|
    requires IsSetup(levels, level, all[..n], expandedLimit, c)
    ensures IsManualPick(levels, level, begin, end, limit, expandedLimit, c)
  {
    hide IsOverlap, IsCut, IsSetup;
    assert IsRangePick(levels[level], level, begin, end, limit, all, n);
  }

  lemma RangeIsPicked(files: seq<File>, level: nat, lo: Option<UserKey>, hi: Option<UserKey>, r: seq<File>, n: nat)
    requires AllWellFormed(files) && SortedBySmallest(files) && (level > 0 ==> Disjoint(files))
    requires r == Overlapping(files, lo, hi) && 1 <= n <= |r| && (level == 0 ==> n == |r| && ClosedRange(files, lo, hi))
    ensures Picked(files, level, r[..n])
  {
    OverlappingOrdered(files, level, lo, hi, n);
    if level > 0 {
      OverlappingContiguous(files, lo, hi, n);
    } else {
      assert r[..n] == r;
    }
    hide AllWellFormed, SortedBySmallest, Disjoint, Overlapping, ClosedRange, Contiguous, Ordered;
    assert forall f :: f in r[..n] ==> f in r;
  }

  // ------------------------------------------------------------- the inputs are determined

  lemma {:induction false} DisjointListUnique(xs: seq<File>, ys: seq<File>)
    requires AllWellFormed(xs) && AllWellFormed(ys) && Disjoint(xs) && Disjoint(ys) && FilesOf(xs) == FilesOf(ys)
    ensures xs == ys
  {
    SameMembers(xs, ys);
    DisjointIsSorted(xs);
    DisjointIsSorted(ys);
    Builder.SortedListUnique(xs, ys);
  }

  lemma SameMembers(xs: seq<File>, ys: seq<File>)
    requires FilesOf(xs) == FilesOf(ys)
    ensures forall f :: f in xs <==> f in ys
  {
    forall f ensures f in xs <==> f in ys {
      assert f in FilesOf(xs) <==> f in FilesOf(ys);
    }
  }

  lemma DisjointIsSorted(xs: seq<File>)
    requires AllWellFormed(xs) && Disjoint(xs)
    ensures SortedBySmallest(xs)
  {
    forall i, j | 0 <= i < j < |xs| ensures BySmallest(xs[i], xs[j]) {
      Bounds(xs[i]);
      LessIsTotalOrder(xs[i].smallest, xs[i].largest, xs[j].smallest);
    }
  }

  lemma ClosureInside(files: seq<File>, picked: seq<File>, r: seq<File>)
    requires IsClosure(files, picked, r) && Subset(picked, files)
    ensures Subset(r, files)
  {
    assert ClosedUpward(files, FilesOf(files));
    assert FilesOf(picked) <= FilesOf(files);
    assert FilesOf(r) <= FilesOf(files);
    forall f | f in r ensures f in files {
      assert f in FilesOf(r);
    }
  }

  lemma ClosureUnique(files: seq<File>, level: nat, picked: seq<File>, r: seq<File>, r': seq<File>)
    requires AllWellFormed(files) && Subset(picked, files) && IsClosure(files, picked, r) && IsClosure(files, picked, r')
    requires Ordered(level, r) && Ordered(level, r') && (level == 0 ==> ClosedUpward(files, FilesOf(picked)))
    ensures r == r'
  {
    assert FilesOf(picked) <= FilesOf(r) && FilesOf(picked) <= FilesOf(r');
    assert FilesOf(r) == FilesOf(r');
    if level > 0 {
      ClosureInside(files, picked, r);
      ClosureInside(files, picked, r');
      hide IsClosure, ClosedUpward, Less;
      SubsetOk(r, files);
      SubsetOk(r', files);
      DisjointListUnique(r, r');
    } else {
      NothingMore(picked, r);
      NothingMore(picked, r');
    }
  }

  lemma SubsetOk(r: seq<File>, files: seq<File>)
    requires AllWellFormed(files) && Subset(r, files)
    ensures AllWellFormed(r)
  {
    forall i | 0 <= i < |r| ensures WellFormed(r[i]) {
      assert r[i] in files;
    }
  }

  lemma NothingMore(picked: seq<File>, r: seq<File>)
    requires picked <= r && FilesOf(r) <= FilesOf(picked) && forall i, j :: 0 <= i < j < |r| ==> r[i] != r[j]
    ensures r == picked
  {
    if |picked| < |r| {
      OneMore(picked, r);
    }
  }

  lemma OneMore(picked: seq<File>, r: seq<File>)
    requires picked <= r && |picked| < |r| && forall i, j :: 0 <= i < j < |r| ==> r[i] != r[j]
    ensures r[|picked|] in FilesOf(r) && r[|picked|] !in FilesOf(picked)
  {
  }

  lemma OverlapClosed(files: seq<File>, begin: Option<UserKey>, end: Option<UserKey>, r: seq<File>)
    requires AllWellFormed(files) && IsOverlap(files, 0, begin, end, r)
    ensures ClosedUpward(files, FilesOf(r))
  {
    hide Overlapping, ClosedRange, ClosedUpward;
    var lo, hi :| r == Overlapping(files, lo, hi) && IsLeastClosed(files, begin, end, lo, hi);
    ClosedRangeIsClosed(files, lo, hi);
  }

  lemma OverlapInside(files: seq<File>, level: nat, begin: Option<UserKey>, end: Option<UserKey>, r: seq<File>)
    requires IsOverlap(files, level, begin, end, r)
    ensures Subset(r, files)
  {
  }

  lemma ClosedOverlapUnique(files: seq<File>, level: nat, lo: UserKey, hi: UserKey, r: seq<File>, r': seq<File>)
    requires AllWellFormed(files) && ClosedOverlap(files, level, lo, hi, r) && ClosedOverlap(files, level, lo, hi, r')
    ensures r == r'
  {
    hide IsOverlap, IsClosure, Ordered, AllWellFormed;
    var o :| IsOverlap(files, level, Some(lo), Some(hi), o) && IsClosure(files, o, r);
    var o' :| IsOverlap(files, level, Some(lo), Some(hi), o') && IsClosure(files, o', r');
    OverlapUnique(files, level, Some(lo), Some(hi), o, o');
    OverlapInside(files, level, Some(lo), Some(hi), o);
    if level == 0 {
      OverlapClosed(files, Some(lo), Some(hi), o);
    }
    ClosureUnique(files, level, o, r, r');
  }

  /** The picked files and the limit determine the compaction. */
  lemma SetupUnique(levels: seq<seq<File>>, level: nat, picked: seq<File>, expandedLimit: nat, c: Compaction, c': Compaction)
    requires level + 1 < |levels| && AllWellFormed(levels[level]) && Subset(picked, levels[level])
    requires level == 0 ==> ClosedUpward(levels[level], FilesOf(picked))
    requires IsSetup(levels, level, picked, expandedLimit, c) && IsSetup(levels, level, picked, expandedLimit, c')
    ensures c == c'
  {
    hide AllWellFormed, Subset, ClosedUpward, IsFirstSetup, IsBestSetup;
    var first :| IsFirstSetup(levels, level, picked, first) && IsBestSetup(levels, level, first, expandedLimit, c);
    var first' :| IsFirstSetup(levels, level, picked, first') && IsBestSetup(levels, level, first', expandedLimit, c');
    FirstUnique(levels, level, picked, first, first');
    BestUnique(levels, level, first, expandedLimit, c, c');
  }

  lemma FirstUnique(levels: seq<seq<File>>, level: nat, picked: seq<File>, first: Compaction, first': Compaction)
    requires level + 1 < |levels| && AllWellFormed(levels[level]) && Subset(picked, levels[level])
    requires level == 0 ==> ClosedUpward(levels[level], FilesOf(picked))
    requires IsFirstSetup(levels, level, picked, first) && IsFirstSetup(levels, level, picked, first')
    ensures first == first'
  {
    hide AllWellFormed, Subset, ClosedUpward, IsClosure, Ordered, IsCompactionOf;
    ClosureUnique(levels[level], level, picked, first.inputs0, first'.inputs0);
    CompactionOfUnique(levels, level, first.inputs0, first, first');
  }

  lemma BestUnique(levels: seq<seq<File>>, level: nat, first: Compaction, expandedLimit: nat, c: Compaction, c': Compaction)
    requires level + 1 < |levels| && AllWellFormed(levels[level])
    requires IsBestSetup(levels, level, first, expandedLimit, c) && IsBestSetup(levels, level, first, expandedLimit, c')
    ensures c == c'
  {
    hide AllWellFormed, IsWideSetup, Improves;
    if first.inputs1 != [] {
      var wide :| IsWideSetup(levels, level, first, wide) && c == if Improves(first, wide, expandedLimit) then wide else first;
      var wide' :| IsWideSetup(levels, level, first, wide') && c' == if Improves(first, wide', expandedLimit) then wide' else first;
      WideUnique(levels, level, first, wide, wide');
    }
  }

  lemma WideUnique(levels: seq<seq<File>>, level: nat, first: Compaction, wide: Compaction, wide': Compaction)
    requires level + 1 < |levels| && AllWellFormed(levels[level]) && IsWideSetup(levels, level, first, wide) && IsWideSetup(levels, level, first, wide')
    ensures wide == wide'
  {
    hide AllWellFormed, IsCompactionOf, IsSmallest, IsLargest, ClosedOverlap;
    var lo, hi :| IsJointHull(first, lo, hi) && ClosedOverlap(levels[level], level, lo.key, hi.key, wide.inputs0);
    var lo', hi' :| IsJointHull(first, lo', hi') && ClosedOverlap(levels[level], level, lo'.key, hi'.key, wide'.inputs0);
    HullUnique(first.inputs0 + first.inputs1, lo, lo', hi, hi');
    ClosedOverlapUnique(levels[level], level, lo.key, hi.key, wide.inputs0, wide'.inputs0);
    CompactionOfUnique(levels, level, wide.inputs0, wide, wide');
  }

  /** A file of the level and the limit determine the automatic compaction. */
  lemma AutomaticPickUnique(levels: seq<seq<File>>, level: nat, f: File, expandedLimit: nat, c: Compaction, c': Compaction)
    requires Inv(levels) && level + 1 < NUM_LEVELS && f in levels[level]
    requires IsAutomaticPick(levels, level, f, expandedLimit, c) && IsAutomaticPick(levels, level, f, expandedLimit, c')
    ensures c == c'
  {
    LevelReady(levels, level);
    hide Inv, IsSetup, IsOverlap, AllWellFormed, ClosedUpward;
    var p :| IsFirstPick(levels[level], level, f, p) && IsSetup(levels, level, p, expandedLimit, c);
    var p' :| IsFirstPick(levels[level], level, f, p') && IsSetup(levels, level, p', expandedLimit, c');
    if level == 0 {
      OverlapUnique(levels[0], 0, Some(f.smallest.key), Some(f.largest.key), p, p');
      OverlapInside(levels[0], 0, Some(f.smallest.key), Some(f.largest.key), p);
      OverlapClosed(levels[0], Some(f.smallest.key), Some(f.largest.key), p);
    }
    SetupUnique(levels, level, p, expandedLimit, c, c');
  }

  lemma CutUnique(all: seq<File>, level: nat, limit: nat, n: nat, n': nat)
    requires IsCut(all, level, limit, n) && IsCut(all, level, limit, n')
    ensures n == n'
  {
    hide TotalFileSize;
  }

  /** The range and the limits determine the manual compaction. */
  lemma ManualPickUnique(levels: seq<seq<File>>, level: nat, begin: Option<UserKey>, end: Option<UserKey>,
                         limit: nat, expandedLimit: nat, c: Compaction, c': Compaction)
    requires Inv(levels) && level + 1 < NUM_LEVELS
    requires IsManualPick(levels, level, begin, end, limit, expandedLimit, c) && IsManualPick(levels, level, begin, end, limit, expandedLimit, c')
    ensures c == c'
  {
    LevelReady(levels, level);
    hide Inv, IsSetup, IsOverlap, AllWellFormed, ClosedUpward, IsCut;
    var all, n :| IsRangePick(levels[level], level, begin, end, limit, all, n) && IsSetup(levels, level, all[..n], expandedLimit, c);
    var all', n' :| IsRangePick(levels[level], level, begin, end, limit, all', n') && IsSetup(levels, level, all'[..n'], expandedLimit, c');
    OverlapUnique(levels[level], level, begin, end, all, all');
    OverlapInside(levels[level], level, begin, end, all);
    CutUnique(all, level, limit, n, n');
    if level == 0 {
      OverlapClosed(levels[0], begin, end, all);
      WholeCut(all, limit, n);
    }
    SetupUnique(levels, level, all[..n], expandedLimit, c, c');
  }

  lemma WholeCut(all: seq<File>, limit: nat, n: nat)
    requires IsCut(all, 0, limit, n)
    ensures n == |all| && all[..n] == all
  {
  }
}
