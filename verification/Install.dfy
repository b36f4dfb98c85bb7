/** Every version step keeps the version invariant: installing a compaction, moving a file down, and
    adding a flushed memtable. */
module Install {
  import opened DbFormat
  import opened Reads
  import opened Version
  import opened Picking
  import opened Inputs
  import opened Setup
  import opened CompactionReads

  // ------------------------------------------------------------------- sorted levels

  ghost predicate PairwiseApart(files: seq<File>) {
    forall f, g :: f in files && g in files && f != g ==> Less(f.largest, g.smallest) || Less(g.largest, f.smallest)
  }

  lemma DisjointIsApart(files: seq<File>)
    requires Disjoint(files)
    ensures PairwiseApart(files)
  {
    forall f, g | f in files && g in files && f != g
      ensures Less(f.largest, g.smallest) || Less(g.largest, f.smallest)
    {
      Apart(files, f, g);
    }
  }

  lemma ApartIsDisjoint(files: seq<File>)
    requires AllWellFormed(files) && SortedBySmallest(files) && PairwiseApart(files)
    ensures Disjoint(files)
  {
    forall i, j | 0 <= i < j < |files| ensures Less(files[i].largest, files[j].smallest) {
      Bounds(files[i]);
      Bounds(files[j]);
      assert files[i] in files && files[j] in files && BySmallest(files[i], files[j]);
    }
  }

  // ------------------------------------------------------- replacing the files of two levels

  /** The new version: `outputs` replace the inputs, everything else stays. */
  ghost predicate Replaced(levels: seq<seq<File>>, c: Compaction, outputs: seq<File>, levels': seq<seq<File>>) {
    && |levels| == |levels'| == NUM_LEVELS && c.level + 1 < NUM_LEVELS
    && (forall l :: 0 <= l < NUM_LEVELS ==> SortedBySmallest(levels'[l]))
    && (forall f :: f in levels'[c.level] <==> f in levels[c.level] && f !in c.inputs0)
    && (forall f :: f in levels'[c.level + 1] <==> (f in levels[c.level + 1] && f !in c.inputs1) || f in outputs)
    && (forall l :: 0 <= l < NUM_LEVELS && l != c.level && l != c.level + 1 ==> levels'[l] == levels[l])
  }

  /** What the outputs may hold: sorted files of input entries. */
  ghost predicate OutputsOk(c: Compaction, outputs: seq<File>) {
    && AllWellFormed(outputs) && Disjoint(outputs)
    && forall e :: e in LevelEntries(outputs) ==> e in InputEntries(c)
  }

  /** A file left out of the next level is entirely before or entirely after every input entry. */
  lemma RestBesideInputs(levels: seq<seq<File>>, c: Compaction, g: File, e: Entry, e': Entry)
    requires FilesOk(levels) && GoodInputs(levels, c)
    requires g in levels[c.level + 1] && g !in c.inputs1
    requires e in InputEntries(c) && e' in InputEntries(c)
    ensures (Less(g.largest, e.ik) && Less(g.largest, e'.ik)) || (Less(e.ik, g.smallest) && Less(e'.ik, g.smallest))
  {
    assert WellFormed(g);
    assert !Overlaps(g, Some(c.smallest.key), Some(c.largest.key));
    Bounds(g);
    RestBesideInput(levels, c, g, e);
    RestBesideInput(levels, c, g, e');
  }

  lemma RestBesideInput(levels: seq<seq<File>>, c: Compaction, g: File, e: Entry)
    requires FilesOk(levels) && GoodInputs(levels, c)
    requires g in levels[c.level + 1] && g !in c.inputs1 && e in InputEntries(c)
    ensures g.largest.key < c.smallest.key ==> Less(g.largest, e.ik)
    ensures c.largest.key < g.smallest.key ==> Less(e.ik, g.smallest)
  {
    if f :| f in c.inputs0 && e in f.run {
      assert f in levels[c.level] && Inside(f, Some(c.smallest.key), Some(c.largest.key)) && WellFormed(f);
      hide *;
      RestBesideUpper(f, g, e, c.smallest.key, c.largest.key);
    } else {
      var f :| f in c.inputs1 && e in f.run;
      assert f in levels[c.level + 1] && Overlaps(f, Some(c.smallest.key), Some(c.largest.key));
      assert WellFormed(f) && WellFormed(g);
      Apart(levels[c.level + 1], f, g);
      hide *;
      RestBesideLower(f, g, e, c.smallest.key, c.largest.key);
    }
  }

  lemma RestBesideUpper(f: File, g: File, e: Entry, lo: UserKey, hi: UserKey)
    requires WellFormed(f) && e in f.run && Inside(f, Some(lo), Some(hi))
    ensures g.largest.key < lo ==> Less(g.largest, e.ik)
    ensures hi < g.smallest.key ==> Less(e.ik, g.smallest)
  {
    EntryInBounds(f, e);
  }

  lemma RestBesideLower(f: File, g: File, e: Entry, lo: UserKey, hi: UserKey)
    requires WellFormed(f) && WellFormed(g) && e in f.run && Overlaps(f, Some(lo), Some(hi))
    requires Less(f.largest, g.smallest) || Less(g.largest, f.smallest)
    ensures g.largest.key < lo ==> Less(g.largest, e.ik)
    ensures hi < g.smallest.key ==> Less(e.ik, g.smallest)
  {
    EntryInBounds(f, e);
    Bounds(f);
    Bounds(g);
  }

  lemma RunInLevel(files: seq<File>, f: File, i: nat)
    requires f in files && i < |f.run|
    ensures f.run[i] in LevelEntries(files)
  {
    assert f.run[i] in f.run;
  }

  lemma OutputsApartFromRest(levels: seq<seq<File>>, c: Compaction, outputs: seq<File>, g: File, o: File)
    requires FilesOk(levels) && GoodInputs(levels, c) && OutputsOk(c, outputs)
    requires g in levels[c.level + 1] && g !in c.inputs1 && o in outputs
    ensures Less(g.largest, o.smallest) || Less(o.largest, g.smallest)
  {
    RunInLevel(outputs, o, 0);
    RunInLevel(outputs, o, |o.run| - 1);
    assert o.run[0] in InputEntries(c) && o.run[|o.run| - 1] in InputEntries(c);
    RestBesideInputs(levels, c, g, o.run[0], o.run[|o.run| - 1]);
  }

  lemma NextLevelStaysApart(levels: seq<seq<File>>, c: Compaction, outputs: seq<File>, files: seq<File>)
    requires FilesOk(levels) && GoodInputs(levels, c) && OutputsOk(c, outputs)
    requires forall f :: f in files <==> (f in levels[c.level + 1] && f !in c.inputs1) || f in outputs
    ensures PairwiseApart(files)
  {
    DisjointIsApart(levels[c.level + 1]);
    DisjointIsApart(outputs);
    forall g, o | g in levels[c.level + 1] && g !in c.inputs1 && o in outputs
      ensures Less(g.largest, o.smallest) || Less(o.largest, g.smallest)
    {
      OutputsApartFromRest(levels, c, outputs, g, o);
    }
    hide *;
    ApartUnion(levels[c.level + 1], c.inputs1, outputs, files);
  }

  lemma ApartUnion(lower: seq<File>, inputs1: seq<File>, outputs: seq<File>, files: seq<File>)
    requires PairwiseApart(lower) && PairwiseApart(outputs)
    requires forall f :: f in files <==> (f in lower && f !in inputs1) || f in outputs
    requires forall g, o :: g in lower && g !in inputs1 && o in outputs ==> Less(g.largest, o.smallest) || Less(o.largest, g.smallest)
    ensures PairwiseApart(files)
  {
    hide Less;
  }

  lemma ReplacedFilesOk(levels: seq<seq<File>>, c: Compaction, outputs: seq<File>, levels': seq<seq<File>>)
    requires FilesOk(levels) && GoodInputs(levels, c) && OutputsOk(c, outputs) && Replaced(levels, c, outputs, levels')
    ensures FilesOk(levels')
  {
    var L := c.level;
    forall l | 0 <= l < NUM_LEVELS ensures AllWellFormed(levels'[l]) && (l >= 1 ==> Disjoint(levels'[l])) {
      forall i | 0 <= i < |levels'[l]| ensures WellFormed(levels'[l][i]) {
        assert levels'[l][i] in levels'[l];
        assert levels'[l][i] in levels[l] || levels'[l][i] in outputs;
      }
      if l == L + 1 {
        NextLevelStaysApart(levels, c, outputs, levels'[l]);
        ApartIsDisjoint(levels'[l]);
      } else if l == L && l >= 1 {
        DisjointIsApart(levels[l]);
        ApartIsDisjoint(levels'[l]);
      }
    }
  }

  // -------------------------------------------------------------------------- recency

  /** Level `l` gains nothing, except that level `L + 1` may gain `moved`. */
  ghost predicate LevelWithin(levels: seq<seq<File>>, levels': seq<seq<File>>, l: nat, L: nat, moved: set<Entry>)
    requires l < |levels| && l < |levels'|
  {
    forall e :: e in LevelEntries(levels'[l]) ==> e in LevelEntries(levels[l]) || (l == L + 1 && e in moved)
  }

  /** Entries may move down one level, as long as what stays behind is newer. */
  lemma MovedDownRecency(levels: seq<seq<File>>, L: nat, moved: set<Entry>, levels': seq<seq<File>>)
    requires Recency(levels) && |levels| == |levels'| && L + 1 < |levels|
    requires forall l: nat :: l < |levels| ==> LevelWithin(levels, levels', l, L, moved)
    requires forall e :: e in moved ==> e in LevelEntries(levels[L])
    requires Newer(LevelEntries(levels'[L]), moved)
    ensures Recency(levels')
  {
    forall a: nat, b: nat | a < b < |levels'| ensures Newer(LevelEntries(levels'[a]), LevelEntries(levels'[b])) {
      assert LevelWithin(levels, levels', a, L, moved);
      assert LevelWithin(levels, levels', b, L, moved);
      assert Newer(LevelEntries(levels[a]), LevelEntries(levels[b]));
      assert a < L ==> Newer(LevelEntries(levels[a]), LevelEntries(levels[L]));
      assert b > L ==> Newer(LevelEntries(levels[L]), LevelEntries(levels[b]));
      hide LevelEntries, Recency;
    }
  }

  lemma ReplacedWithin(levels: seq<seq<File>>, c: Compaction, outputs: seq<File>, levels': seq<seq<File>>, moved: set<Entry>, l: nat)
    requires Replaced(levels, c, outputs, levels') && Subset(c.inputs1, levels[c.level + 1])
    requires forall e :: e in LevelEntries(outputs) ==> e in InputEntries(c)
    requires moved == LevelEntries(c.inputs0) && l < NUM_LEVELS
    ensures LevelWithin(levels, levels', l, c.level, moved)
  {
    forall e | e in LevelEntries(levels'[l])
      ensures e in LevelEntries(levels[l]) || (l == c.level + 1 && e in moved)
    {
      var f :| f in levels'[l] && e in f.run;
      if f in outputs {
        assert e in LevelEntries(outputs);
        if e in LevelEntries(c.inputs1) {
          var g :| g in c.inputs1 && e in g.run;
        }
      }
    }
  }

  lemma ReplacedRecency(levels: seq<seq<File>>, c: Compaction, outputs: seq<File>, levels': seq<seq<File>>)
    requires Recency(levels) && GoodInputs(levels, c) && OutputsOk(c, outputs) && Replaced(levels, c, outputs, levels')
    ensures Recency(levels')
  {
    var L, moved := c.level, LevelEntries(c.inputs0);
    LeftOutIsNewer(levels[L], c.inputs0);
    assert forall e :: e in LevelEntries(levels'[L]) ==> e in LeftOut(levels[L], c.inputs0);
    assert Newer(LevelEntries(levels'[L]), moved);
    assert forall e :: e in moved ==> e in LevelEntries(levels[L]);
    forall l: nat | l < NUM_LEVELS ensures LevelWithin(levels, levels', l, L, moved) {
      ReplacedWithin(levels, c, outputs, levels', moved, l);
    }
    hide *;
    MovedDownRecency(levels, L, moved, levels');
  }

  // ------------------------------------------------------------------ numbers and contents

  ghost predicate FreshNumbers(levels: seq<seq<File>>, outputs: seq<File>) {
    && (forall l, f, o :: 0 <= l < |levels| && f in levels[l] && o in outputs ==> f.number != o.number)
    && (forall o, o' :: o in outputs && o' in outputs && o.number == o'.number ==> o == o')
  }

  /** Outputs carry fresh numbers, or are the very file being moved. */
  lemma ReplacedNumbers(levels: seq<seq<File>>, c: Compaction, outputs: seq<File>, levels': seq<seq<File>>)
    requires UniqueNumbers(levels) && Replaced(levels, c, outputs, levels')
    requires FreshNumbers(levels, outputs) || (outputs == c.inputs0 && Subset(c.inputs0, levels[c.level]))
    ensures UniqueNumbers(levels')
  {
    forall a, b, f, g | 0 <= a < NUM_LEVELS && 0 <= b < NUM_LEVELS && f in levels'[a] && g in levels'[b] && f.number == g.number
      ensures a == b && f == g
    {
      Origin(levels, c, outputs, levels', a, f);
      Origin(levels, c, outputs, levels', b, g);
      hide Replaced;
      if FreshNumbers(levels, outputs) {
        assert f in outputs <==> g in outputs;
      }
    }
  }

  lemma Origin(levels: seq<seq<File>>, c: Compaction, outputs: seq<File>, levels': seq<seq<File>>, l: nat, f: File)
    requires Replaced(levels, c, outputs, levels') && l < NUM_LEVELS && f in levels'[l]
    ensures (f in levels[l] && (l == c.level ==> f !in c.inputs0)) || (l == c.level + 1 && f in outputs)
  {
  }

  lemma ReplacedEntries(levels: seq<seq<File>>, c: Compaction, outputs: seq<File>, levels': seq<seq<File>>)
    requires GoodInputs(levels, c) && Replaced(levels, c, outputs, levels')
    ensures LevelEntries(levels'[c.level]) == LeftOut(levels[c.level], c.inputs0)
    ensures LevelEntries(levels'[c.level + 1]) == LeftOut(levels[c.level + 1], c.inputs1) + LevelEntries(outputs)
  {
  }

  lemma UnfoldAfter(mem: set<Entry>, levels: seq<seq<File>>, c: Compaction, kept: set<Entry>)
    requires |levels| == NUM_LEVELS && c.level + 1 < NUM_LEVELS
    ensures SplitOf(mem, levels, c).After(kept)
         == mem + LevelsBetween(levels, 0, c.level) + LeftOut(levels[c.level], c.inputs0) + kept
            + LeftOut(levels[c.level + 1], c.inputs1) + LevelsBetween(levels, c.level + 2, NUM_LEVELS)
  {
  }

  lemma AfterAlgebra(m: set<Entry>, up: set<Entry>, o0: set<Entry>, kept: set<Entry>, o1: set<Entry>, down: set<Entry>)
    ensures m + up + o0 + kept + o1 + down == m + (up + o0 + (o1 + kept) + down)
  {
  }

  /** After the step the store holds exactly what the split predicts. */
  lemma ReplacedAll(mem: set<Entry>, levels: seq<seq<File>>, c: Compaction, outputs: seq<File>, levels': seq<seq<File>>, p: Split)
    requires GoodInputs(levels, c) && Replaced(levels, c, outputs, levels') && p == SplitOf(mem, levels, c)
    ensures p.After(LevelEntries(outputs)) == mem + AllEntries(levels')
  {
    var L := c.level;
    SameBetween(levels, levels', 0, L);
    SameBetween(levels, levels', L + 2, NUM_LEVELS);
    assert |levels'| == NUM_LEVELS && L + 1 < NUM_LEVELS;
    hide *;
    ReplacedEntries(levels, c, outputs, levels');
    AllEntriesSplit(levels', L);
    UnfoldAfter(mem, levels, c, LevelEntries(outputs));
    AfterAlgebra(mem, LevelsBetween(levels, 0, L), LeftOut(levels[L], c.inputs0), LevelEntries(outputs),
                 LeftOut(levels[L + 1], c.inputs1), LevelsBetween(levels, L + 2, NUM_LEVELS));
  }

  lemma SameBetween(levels: seq<seq<File>>, levels': seq<seq<File>>, lo: nat, hi: nat)
    requires |levels| == |levels'| && forall l :: lo <= l < hi && l < |levels| ==> levels[l] == levels'[l]
    ensures LevelsBetween(levels, lo, hi) == LevelsBetween(levels', lo, hi)
  {
    hide LevelEntries;
  }

  lemma FewerEntriesDistinct(levels: seq<seq<File>>, c: Compaction, outputs: seq<File>, levels': seq<seq<File>>)
    requires Distinct(AllEntries(levels)) && GoodInputs(levels, c) && OutputsOk(c, outputs) && Replaced(levels, c, outputs, levels')
    ensures AllEntries(levels') <= AllEntries(levels) && Distinct(AllEntries(levels'))
  {
    var p := SplitOf({}, levels, c);
    SplitIsWhole({}, levels, c, p);
    ReplacedAll({}, levels, c, outputs, levels', p);
    assert p.input == InputEntries(c);
    assert LevelEntries(outputs) <= p.input;
    hide *;
    AfterWithinAll(p, LevelEntries(outputs), AllEntries(levels), AllEntries(levels'));
  }

  lemma AfterWithinAll(p: Split, kept: set<Entry>, all: set<Entry>, all': set<Entry>)
    requires kept <= p.input && p.All() == {} + all && p.After(kept) == {} + all' && Distinct(all)
    ensures all' <= all && Distinct(all')
  {
    forall e | e in all' ensures e in all {
      assert e in p.After(kept);
      assert e in p.All();
    }
  }

  /** Installing a compaction, or moving a file down, keeps the version invariant. */
  lemma ReplacedInv(levels: seq<seq<File>>, c: Compaction, outputs: seq<File>, levels': seq<seq<File>>)
    requires Inv(levels) && GoodInputs(levels, c) && OutputsOk(c, outputs) && Replaced(levels, c, outputs, levels')
    requires FreshNumbers(levels, outputs) || outputs == c.inputs0
    ensures Inv(levels')
  {
    assert c.level + 1 != 0 && forall f :: f in levels'[0] ==> f in levels[0];
    assert Subset(c.inputs0, levels[c.level]);
    SubsetNumberOrdered(levels[0], levels'[0]);
    ReplacedFilesOk(levels, c, outputs, levels');
    hide *;
    ReplacedNumbers(levels, c, outputs, levels');
    FewerEntriesDistinct(levels, c, outputs, levels');
    ReplacedRecency(levels, c, outputs, levels');
    InvFromParts(levels');
  }

  lemma SubsetNumberOrdered(files: seq<File>, files': seq<File>)
    requires NumberOrdered(files) && forall f :: f in files' ==> f in files
    ensures NumberOrdered(files')
  {
  }

  lemma InvFromParts(levels: seq<seq<File>>)
    requires FilesOk(levels) && NumberOrdered(levels[0]) && UniqueNumbers(levels)
    requires Distinct(AllEntries(levels)) && Recency(levels)
    ensures Inv(levels)
  {
    hide FilesOk, NumberOrdered, UniqueNumbers, Distinct, Recency;
  }

  // ------------------------------------------------------------------------------ flush

  /** The new version: one more file at one level. */
  ghost predicate Added(levels: seq<seq<File>>, level: nat, f: File, levels': seq<seq<File>>) {
    && |levels| == |levels'| == NUM_LEVELS && level < NUM_LEVELS
    && (forall l :: 0 <= l < NUM_LEVELS ==> SortedBySmallest(levels'[l]))
    && (forall g :: g in levels'[level] <==> g in levels[level] || g == f)
    && (forall l :: 0 <= l < NUM_LEVELS && l != level ==> levels'[l] == levels[l])
  }

  /** A flushed file: newer than every file, and below level 0 only where nothing overlaps it. */
  ghost predicate Flushable(levels: seq<seq<File>>, level: nat, f: File) {
    && |levels| == NUM_LEVELS && level < NUM_LEVELS && WellFormed(f)
    && Newer(Contents(f.run), AllEntries(levels))
    && Distinct(AllEntries(levels) + Contents(f.run))
    && (forall l, g :: 0 <= l < NUM_LEVELS && g in levels[l] ==> g.number < f.number)
    && (level > 0 ==> forall l, g :: 0 <= l <= level && g in levels[l] ==> !Overlaps(g, Some(f.smallest.key), Some(f.largest.key)))
  }

  lemma AddedFilesOk(levels: seq<seq<File>>, level: nat, f: File, levels': seq<seq<File>>)
    requires FilesOk(levels) && Flushable(levels, level, f) && Added(levels, level, f, levels')
    ensures FilesOk(levels')
  {
    forall l | 0 <= l < NUM_LEVELS ensures AllWellFormed(levels'[l]) && (l >= 1 ==> Disjoint(levels'[l])) {
      forall i | 0 <= i < |levels'[l]| ensures WellFormed(levels'[l][i]) {
        assert levels'[l][i] in levels'[l];
      }
      if l == level && l >= 1 {
        DisjointIsApart(levels[l]);
        forall g | g in levels[l] ensures Less(f.largest, g.smallest) || Less(g.largest, f.smallest) {
          assert !Overlaps(g, Some(f.smallest.key), Some(f.largest.key));
        }
        ApartIsDisjoint(levels'[l]);
      }
    }
  }

  lemma AddedEntries(levels: seq<seq<File>>, level: nat, f: File, levels': seq<seq<File>>)
    requires Added(levels, level, f, levels')
    ensures LevelEntries(levels'[level]) == LevelEntries(levels[level]) + Contents(f.run)
    ensures AllEntries(levels') == AllEntries(levels) + Contents(f.run)
  {
    assert f in levels'[level];
    assert LevelEntries(levels'[level]) == LevelEntries(levels[level]) + Contents(f.run);
    hide LevelEntries;
    forall e ensures e in AllEntries(levels') <==> e in AllEntries(levels) + Contents(f.run) {
      if e in AllEntries(levels) {
        var l :| 0 <= l < NUM_LEVELS && e in LevelEntries(levels[l]);
        assert e in LevelEntries(levels'[l]);
      }
      assert e in Contents(f.run) ==> e in LevelEntries(levels'[level]);
    }
  }

  /** Where the file goes, no upper level shares a user key with it. */
  lemma NoOverlapAbove(levels: seq<seq<File>>, level: nat, f: File, a: nat)
    requires FilesOk(levels) && Flushable(levels, level, f) && a < level
    ensures Newer(LevelEntries(levels[a]), Contents(f.run))
  {
    forall e, e' | e in LevelEntries(levels[a]) && e' in Contents(f.run) ensures e.ik.key != e'.ik.key {
      var g :| g in levels[a] && e in g.run;
      assert !Overlaps(g, Some(f.smallest.key), Some(f.largest.key)) && WellFormed(g);
      hide *;
      RangesApart(f, g, e, e');
    }
  }

  lemma RangesApart(f: File, g: File, e: Entry, e': Entry)
    requires WellFormed(f) && WellFormed(g) && e in g.run && e' in Contents(f.run)
    requires !Overlaps(g, Some(f.smallest.key), Some(f.largest.key))
    ensures e.ik.key != e'.ik.key
  {
    EntryInBounds(g, e);
    EntryInBounds(f, e');
  }

  lemma AddedRecency(levels: seq<seq<File>>, level: nat, f: File, levels': seq<seq<File>>)
    requires FilesOk(levels) && Recency(levels) && Flushable(levels, level, f) && Added(levels, level, f, levels')
    ensures Recency(levels')
  {
    AddedEntries(levels, level, f, levels');
    forall a: nat, b: nat | a < b < NUM_LEVELS ensures Newer(LevelEntries(levels'[a]), LevelEntries(levels'[b])) {
      assert Newer(LevelEntries(levels[a]), LevelEntries(levels[b]));
      assert a != level ==> levels'[a] == levels[a];
      assert b != level ==> levels'[b] == levels[b];
      if b == level {
        NoOverlapAbove(levels, level, f, a);
      }
      assert Newer(Contents(f.run), AllEntries(levels));
      assert forall e :: e in LevelEntries(levels[b]) ==> e in AllEntries(levels);
      hide FilesOk, Recency, Flushable, Added, LevelEntries, Contents, AllEntries;
    }
  }

  lemma AddedNumbers(levels: seq<seq<File>>, level: nat, f: File, levels': seq<seq<File>>)
    requires Flushable(levels, level, f) && Added(levels, level, f, levels')
    requires NumberOrdered(levels[0]) && UniqueNumbers(levels)
    ensures NumberOrdered(levels'[0]) && UniqueNumbers(levels')
  {
    forall g | g in levels[0] ensures Newer(Contents(f.run), Contents(g.run)) {
      forall e | e in g.run ensures e in AllEntries(levels) {
        assert e in LevelEntries(levels[0]);
      }
    }
    forall l, g | 0 <= l < NUM_LEVELS && g in levels'[l] ensures g in levels[l] || (l == level && g == f) {
    }
    hide LevelEntries, AllEntries, WellFormed;
  }

  /** Installing a flushed memtable keeps the version invariant. */
  lemma AddedInv(levels: seq<seq<File>>, level: nat, f: File, levels': seq<seq<File>>)
    requires Inv(levels) && Flushable(levels, level, f) && Added(levels, level, f, levels')
    ensures Inv(levels') && AllEntries(levels') == AllEntries(levels) + Contents(f.run)
  {
    assert Distinct(AllEntries(levels) + Contents(f.run));
    assert FilesOk(levels) && NumberOrdered(levels[0]) && UniqueNumbers(levels) && Recency(levels);
    hide *;
    AddedEntries(levels, level, f, levels');
    AddedFilesOk(levels, level, f, levels');
    AddedNumbers(levels, level, f, levels');
    AddedRecency(levels, level, f, levels');
    InvFromParts(levels');
  }
}
