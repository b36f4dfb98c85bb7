/** Choosing files: overlap tests, the level of a flushed memtable, and the inputs of a compaction. */
module Picking {
  import opened DbFormat
  import opened Version

  /** Highest level a flushed memtable is pushed to. */
  const MAX_MEM_COMPACT_LEVEL := 2

  // ------------------------------------------------------------------------- overlap tests

  /** `f` holds a user key in the closed range; a missing bound is infinite. */
  predicate Overlaps(f: File, begin: Option<UserKey>, end: Option<UserKey>) {
    && (begin.Some? ==> begin.value <= f.largest.key)
    && (end.Some? ==> f.smallest.key <= end.value)
  }

  /** A linear scan over overlapping files, or one binary search over sorted ones, decides whether
      any file overlaps the range. */
  method SomeFileOverlapsRange(disjointSortedFiles: bool, files: seq<File>,
                               begin: Option<UserKey>, end: Option<UserKey>) returns (found: bool)
    requires AllWellFormed(files)
    requires disjointSortedFiles ==> Disjoint(files)
    ensures found <==> exists f :: f in files && Overlaps(f, begin, end)
  {
    if !disjointSortedFiles {
      for i := 0 to |files|
        invariant forall f :: f in files[..i] ==> !Overlaps(f, begin, end)
      {
        if Overlaps(files[i], begin, end) {
          return true;
        }
      }
      return false;
    }
    var index := 0;
    if begin.Some? {
      index := FindFile(files, LookupKey(begin.value, MAX_SEQUENCE_NUMBER));
      forall i | 0 <= i < |files|
        ensures i < index <==> files[i].largest.key < begin.value
      {
        VisibleIffAtOrAfterLookupKey(files[i].largest, MAX_SEQUENCE_NUMBER);
      }
    }
    if index >= |files| {
      return false;
    }
    found := end.Some? ==> files[index].smallest.key <= end.value;
    forall i | index < i < |files| ensures files[index].smallest.key <= files[i].smallest.key {
      LargestIncreasing(files, index, i);
    }
    assert files[index] in files;
  }

  method OverlapInLevel(levels: seq<seq<File>>, level: nat, begin: Option<UserKey>, end: Option<UserKey>)
    returns (found: bool)
    requires Inv(levels) && level < NUM_LEVELS
    ensures found <==> exists f :: f in levels[level] && Overlaps(f, begin, end)
  {
    found := SomeFileOverlapsRange(level > 0, levels[level], begin, end);
  }

  function TotalFileSize(files: seq<File>): (n: nat) {
    if files == [] then 0 else TotalFileSize(files[..|files| - 1]) + files[|files| - 1].size
  }

  /** The total is the sum of the sizes: that of one file is its size, that of two lists together both totals. */
  lemma {:induction false} TotalFileSizeConcat(a: seq<File>, b: seq<File>)
    ensures TotalFileSize(a + b) == TotalFileSize(a) + TotalFileSize(b)
    ensures |b| == 1 ==> TotalFileSize(b) == b[0].size
    decreases |b|
  {
    if b == [] {
      assert a + b == a;
    } else {
      var init := b[..|b| - 1];
      TotalFileSizeConcat(a, init);
      assert (a + b)[..|a + b| - 1] == a + init;
    }
  }

  // ----------------------------------------------------------------- GetOverlappingInputs

  /** The files of a list that overlap a range, in order. */
  function Overlapping(files: seq<File>, begin: Option<UserKey>, end: Option<UserKey>): (r: seq<File>)
    ensures forall f :: f in r <==> f in files && Overlaps(f, begin, end)
  {
    if files == [] then []
    else
      var init, f := files[..|files| - 1], files[|files| - 1];
      assert files == init + [f];
      if Overlaps(f, begin, end) then Overlapping(init, begin, end) + [f] else Overlapping(init, begin, end)
  }

  lemma OverlappingNext(files: seq<File>, i: nat, begin: Option<UserKey>, end: Option<UserKey>)
    requires i < |files|
    ensures Overlapping(files[..i + 1], begin, end)
         == Overlapping(files[..i], begin, end) + if Overlaps(files[i], begin, end) then [files[i]] else []
  {
    assert files[..i + 1][..i] == files[..i] && files[..i + 1][i] == files[i];
  }

  /** `f` does not stick out of the range. */
  predicate Inside(f: File, begin: Option<UserKey>, end: Option<UserKey>) {
    && (begin.Some? ==> begin.value <= f.smallest.key)
    && (end.Some? ==> f.largest.key <= end.value)
  }

  /** Every file that touches the range lies inside it. */
  ghost predicate ClosedRange(files: seq<File>, begin: Option<UserKey>, end: Option<UserKey>) {
    forall f :: f in files && Overlaps(f, begin, end) ==> Inside(f, begin, end)
  }

  /** The range `[b', e']` contains the range `[b, e]`. */
  predicate Covers(b': Option<UserKey>, e': Option<UserKey>, b: Option<UserKey>, e: Option<UserKey>) {
    && (b'.Some? ==> b.Some? && b'.value <= b.value)
    && (e'.Some? ==> e.Some? && e.value <= e'.value)
  }

  /** `[lo, hi]` is part of every closed range that contains `[begin, end]`. */
  ghost predicate InEveryClosedRange(files: seq<File>, begin: Option<UserKey>, end: Option<UserKey>,
                                     lo: Option<UserKey>, hi: Option<UserKey>)
  {
    forall b, e :: Covers(b, e, begin, end) && ClosedRange(files, b, e) ==> Covers(b, e, lo, hi)
  }

  lemma WidenInEveryClosedRange(files: seq<File>, begin: Option<UserKey>, end: Option<UserKey>,
                                lo: Option<UserKey>, hi: Option<UserKey>, f: File)
    requires InEveryClosedRange(files, begin, end, lo, hi)
    requires f in files && Overlaps(f, lo, hi)
    ensures lo.Some? ==> InEveryClosedRange(files, begin, end, Some(f.smallest.key), hi)
    ensures hi.Some? ==> InEveryClosedRange(files, begin, end, lo, Some(f.largest.key))
  {
    forall b, e | Covers(b, e, begin, end) && ClosedRange(files, b, e)
      ensures Covers(b, e, lo, hi) && Inside(f, b, e)
    {
    }
  }

  /** The files sticking out of the range on either side: the restart loop's measure. */
  ghost function Outside(files: seq<File>, begin: Option<UserKey>, end: Option<UserKey>): set<(nat, bool)> {
    (set i: nat | i < |files| && begin.Some? && files[i].smallest.key < begin.value :: (i, false))
    + (set i: nat | i < |files| && end.Some? && files[i].largest.key > end.value :: (i, true))
  }

  /** The scan that starts over whenever a level-0 file widens the range. */
  method ScanOverlaps(files: seq<File>, level: nat, begin: Option<UserKey>, end: Option<UserKey>)
    returns (inputs: seq<File>, ghost lo: Option<UserKey>, ghost hi: Option<UserKey>)
    ensures inputs == Overlapping(files, lo, hi)
    ensures level > 0 ==> lo == begin && hi == end
    ensures level == 0 ==> ClosedRange(files, lo, hi)
    ensures lo.Some? == begin.Some? && hi.Some? == end.Some? && Covers(lo, hi, begin, end)
    ensures InEveryClosedRange(files, begin, end, lo, hi)
  {
    inputs := [];
    var userBegin, userEnd := begin, end;
    var i := 0;
    while i < |files|
      invariant 0 <= i <= |files|
      invariant inputs == Overlapping(files[..i], userBegin, userEnd)
      invariant level > 0 ==> userBegin == begin && userEnd == end
      invariant level == 0 ==> forall f :: f in inputs ==> Inside(f, userBegin, userEnd)
      invariant userBegin.Some? == begin.Some? && userEnd.Some? == end.Some?
      invariant Covers(userBegin, userEnd, begin, end)
      invariant InEveryClosedRange(files, begin, end, userBegin, userEnd)
      decreases Outside(files, userBegin, userEnd), |files| - i
    {
      var f := files[i];
      ghost var before := Outside(files, userBegin, userEnd);
      OverlappingNext(files, i, userBegin, userEnd);
      i := i + 1;
      if Overlaps(f, userBegin, userEnd) {
        inputs := inputs + [f];
        if level == 0 {
          if userBegin.Some? && f.smallest.key < userBegin.value {
            assert (i - 1, false) in before;
            WidenInEveryClosedRange(files, begin, end, userBegin, userEnd, f);
            userBegin := Some(f.smallest.key);
            assert (i - 1, false) !in Outside(files, userBegin, userEnd);
            inputs, i := [], 0;
          } else if userEnd.Some? && f.largest.key > userEnd.value {
            assert (i - 1, true) in before;
            WidenInEveryClosedRange(files, begin, end, userBegin, userEnd, f);
            userEnd := Some(f.largest.key);
            assert (i - 1, true) !in Outside(files, userBegin, userEnd);
            inputs, i := [], 0;
          }
        }
      }
    }
    assert files[..i] == files;
    lo, hi := userBegin, userEnd;
  }

  /** The files that overlap the range; in level 0, those of the least closed range that contains it. */
  ghost predicate IsOverlap(files: seq<File>, level: nat, begin: Option<UserKey>, end: Option<UserKey>, r: seq<File>) {
    if level > 0 then r == Overlapping(files, begin, end)
    else exists lo, hi :: r == Overlapping(files, lo, hi) && IsLeastClosed(files, begin, end, lo, hi)
  }

  /** The least closed range that contains the given one. */
  ghost predicate IsLeastClosed(files: seq<File>, begin: Option<UserKey>, end: Option<UserKey>, lo: Option<UserKey>, hi: Option<UserKey>) {
    Covers(lo, hi, begin, end) && ClosedRange(files, lo, hi) && InEveryClosedRange(files, begin, end, lo, hi)
  }

  /** There is one such list. */
  lemma OverlapUnique(files: seq<File>, level: nat, begin: Option<UserKey>, end: Option<UserKey>, r: seq<File>, r': seq<File>)
    requires IsOverlap(files, level, begin, end, r) && IsOverlap(files, level, begin, end, r')
    ensures r == r'
  {
    if level == 0 {
      hide Overlapping, ClosedRange;
      var lo, hi :| r == Overlapping(files, lo, hi) && IsLeastClosed(files, begin, end, lo, hi);
      var lo', hi' :| r' == Overlapping(files, lo', hi') && IsLeastClosed(files, begin, end, lo', hi');
      assert Covers(lo, hi, lo', hi') && Covers(lo', hi', lo, hi);
    }
  }

  /** All files overlapping the range.  In level 0, where files overlap each other, the range grows
      until no file sticks out of it: the result is taken over the least closed range that contains
      the requested one.  Bounds are given as user keys. */
  method GetOverlappingInputs(files: seq<File>, level: nat, begin: Option<UserKey>, end: Option<UserKey>)
    returns (inputs: seq<File>, ghost lo: Option<UserKey>, ghost hi: Option<UserKey>)
    ensures inputs == Overlapping(files, lo, hi)
    ensures level > 0 ==> lo == begin && hi == end
    ensures level == 0 ==> ClosedRange(files, lo, hi)
    ensures lo.Some? == begin.Some? && hi.Some? == end.Some? && Covers(lo, hi, begin, end)
    ensures InEveryClosedRange(files, begin, end, lo, hi)
    ensures forall f :: f in files && Overlaps(f, begin, end) ==> f in inputs
    ensures level > 0 ==> inputs == Overlapping(files, begin, end)
    ensures level == 0 ==> forall f, g :: f in inputs && g in files && ShareRange(f, g) ==> g in inputs
    ensures IsOverlap(files, level, begin, end, inputs)
  {
    hide *;
    inputs, lo, hi := ScanOverlaps(files, level, begin, end);
    ClosedPick(files, begin, end, lo, hi);
    FoldOverlap(files, level, begin, end, lo, hi);
  }

  lemma FoldOverlap(files: seq<File>, level: nat, begin: Option<UserKey>, end: Option<UserKey>, lo: Option<UserKey>, hi: Option<UserKey>)
    requires level > 0 ==> lo == begin && hi == end
    requires level == 0 ==> Covers(lo, hi, begin, end) && ClosedRange(files, lo, hi) && InEveryClosedRange(files, begin, end, lo, hi)
    ensures IsOverlap(files, level, begin, end, Overlapping(files, lo, hi))
  {
    hide Overlapping, ClosedRange, InEveryClosedRange, Covers;
    assert level == 0 ==> IsLeastClosed(files, begin, end, lo, hi);
  }

  /** Two files' user-key ranges meet. */
  predicate ShareRange(f: File, g: File) {
    f.smallest.key <= g.largest.key && g.smallest.key <= f.largest.key
  }

  lemma ClosedPick(files: seq<File>, begin: Option<UserKey>, end: Option<UserKey>, lo: Option<UserKey>, hi: Option<UserKey>)
    requires Covers(lo, hi, begin, end)
    ensures forall f :: f in files && Overlaps(f, begin, end) ==> f in Overlapping(files, lo, hi)
    ensures ClosedRange(files, lo, hi) ==>
              forall f, g :: f in Overlapping(files, lo, hi) && g in files && ShareRange(f, g) ==> g in Overlapping(files, lo, hi)
  {
    hide Overlapping;
  }

  // -------------------------------------------------------- PickLevelForMemTableOutput

  ghost predicate NoneOverlap(files: seq<File>, begin: UserKey, end: UserKey) {
    forall f :: f in files ==> !Overlaps(f, Some(begin), Some(end))
  }

  /** A flushed memtable may go one level further down from `l`. */
  ghost predicate MayDescend(levels: seq<seq<File>>, l: nat, smallest: UserKey, largest: UserKey, maxGrandParentOverlap: nat)
    requires l + 2 < |levels|
  {
    && NoneOverlap(levels[l + 1], smallest, largest)
    && TotalFileSize(Overlapping(levels[l + 2], Some(smallest), Some(largest))) <= maxGrandParentOverlap
  }

  /** The descent stops at the first level from which it may not go on. */
  ghost predicate IsPickedLevel(levels: seq<seq<File>>, smallest: UserKey, largest: UserKey, maxGrandParentOverlap: nat, level: nat) {
    && |levels| == NUM_LEVELS && level <= MAX_MEM_COMPACT_LEVEL
    && (level > 0 ==> NoneOverlap(levels[0], smallest, largest))
    && (forall l :: 0 <= l < level ==> MayDescend(levels, l, smallest, largest, maxGrandParentOverlap))
    && (|| level == MAX_MEM_COMPACT_LEVEL
        || !MayDescend(levels, level, smallest, largest, maxGrandParentOverlap)
        || (level == 0 && !NoneOverlap(levels[0], smallest, largest)))
  }

  lemma DescentIsClear(levels: seq<seq<File>>, l: nat, smallest: UserKey, largest: UserKey, maxGrandParentOverlap: nat)
    requires l + 2 < |levels| && MayDescend(levels, l, smallest, largest, maxGrandParentOverlap)
    ensures NoneOverlap(levels[l + 1], smallest, largest)
  {
    hide NoneOverlap;
  }

  method CanDescend(levels: seq<seq<File>>, l: nat, smallest: UserKey, largest: UserKey, maxGrandParentOverlap: nat) returns (r: bool)
    requires Inv(levels) && l + 2 < NUM_LEVELS
    ensures |levels| == NUM_LEVELS && (r <==> MayDescend(levels, l, smallest, largest, maxGrandParentOverlap))
  {
    assert |levels| == NUM_LEVELS;
    hide Inv, Overlaps, TotalFileSize, Overlapping, ClosedRange, InEveryClosedRange, Covers, ShareRange;
    var overlap := OverlapInLevel(levels, l + 1, Some(smallest), Some(largest));
    if overlap {
      return false;
    }
    var overlaps, _, _ := GetOverlappingInputs(levels[l + 2], l + 2, Some(smallest), Some(largest));
    r := TotalFileSize(overlaps) <= maxGrandParentOverlap;
  }

  /** A flushed memtable goes to level 0 if a file there overlaps it; otherwise it descends, at most to level 2,
      as long as the next level has no overlapping file and the one after not too many. */
  method PickLevelForMemTableOutput(levels: seq<seq<File>>, smallest: UserKey, largest: UserKey,
                                    maxGrandParentOverlap: nat) returns (level: nat)
    requires Inv(levels)
    ensures level <= MAX_MEM_COMPACT_LEVEL && |levels| == NUM_LEVELS
    ensures level > 0 ==> forall l :: 0 <= l <= level ==> NoneOverlap(levels[l], smallest, largest)
    ensures IsPickedLevel(levels, smallest, largest, maxGrandParentOverlap, level)
  {
    hide *;
    DescentBounds(levels);
    level := 0;
    var overlap := OverlapInLevel(levels, 0, Some(smallest), Some(largest));
    NoneOverlapIs(levels[0], smallest, largest);
    if !overlap {
      while level < MAX_MEM_COMPACT_LEVEL
        invariant level <= MAX_MEM_COMPACT_LEVEL
        invariant forall l :: 0 <= l <= level ==> NoneOverlap(levels[l], smallest, largest)
        invariant forall l :: 0 <= l < level ==> MayDescend(levels, l, smallest, largest, maxGrandParentOverlap)
      {
        var further := CanDescend(levels, level, smallest, largest, maxGrandParentOverlap);
        if !further {
          break;
        }
        DescentIsClear(levels, level, smallest, largest, maxGrandParentOverlap);
        level := level + 1;
      }
    }
    FoldPickedLevel(levels, smallest, largest, maxGrandParentOverlap, level);
  }

  lemma DescentBounds(levels: seq<seq<File>>)
    requires Inv(levels)
    ensures |levels| == NUM_LEVELS && 0 < MAX_MEM_COMPACT_LEVEL && MAX_MEM_COMPACT_LEVEL + 2 < NUM_LEVELS
  {
  }

  lemma NoneOverlapIs(files: seq<File>, begin: UserKey, end: UserKey)
    ensures NoneOverlap(files, begin, end) <==> forall f :: f in files ==> !Overlaps(f, Some(begin), Some(end))
  {
    hide Overlaps;
  }

  lemma FoldPickedLevel(levels: seq<seq<File>>, smallest: UserKey, largest: UserKey, maxGrandParentOverlap: nat, level: nat)
    requires |levels| == NUM_LEVELS && level <= MAX_MEM_COMPACT_LEVEL
    requires level > 0 ==> NoneOverlap(levels[0], smallest, largest)
    requires forall l :: 0 <= l < level ==> MayDescend(levels, l, smallest, largest, maxGrandParentOverlap)
    requires || level == MAX_MEM_COMPACT_LEVEL
             || !MayDescend(levels, level, smallest, largest, maxGrandParentOverlap)
             || (level == 0 && !NoneOverlap(levels[0], smallest, largest))
    ensures IsPickedLevel(levels, smallest, largest, maxGrandParentOverlap, level)
  {
    hide NoneOverlap, MayDescend;
  }
}
