/** A compaction changes no read at or above the oldest live snapshot, exactly when it exposes no key.

    The level-`L` inputs are closed at their upper boundary but the level-`L+1` inputs are not: a
    file left out of level `L+1` may hold older entries of an input's last user key.  If the newest
    visible entry of such a key is a deletion marker that the compaction drops, the older value comes
    back.  `Exposes` is that situation, stated on the inputs alone. */
module CompactionReads {
  import opened DbFormat
  import opened Reads
  import opened Version
  import opened Picking
  import opened Inputs
  import opened Setup
  import opened CompactionWork

  // ---------------------------------------------------------------- the argument on sets

  /** What a compaction works on: everything above its inputs, the inputs, the rest of the next
      level, everything below. */
  datatype Split = Split(above: set<Entry>, input: set<Entry>, next: set<Entry>, below: set<Entry>) {
    ghost function All(): set<Entry> {
      above + input + next + below
    }

    ghost function After(kept: set<Entry>): set<Entry> {
      above + kept + next + below
    }
  }

  ghost predicate NoSharedEntry(S: set<Entry>, T: set<Entry>) {
    forall e :: e in S ==> e !in T
  }

  /** `kept` is the input without the hidden entries and without the obsolete `markers`. */
  ghost predicate Filtered(p: Split, s0: nat, markers: set<Entry>, kept: set<Entry>) {
    && Distinct(p.All()) && Newer(p.above, p.input) && NoSharedEntry(p.input, p.next)
    && (forall e :: e in markers ==> e in p.input && e.ik.kind.Deletion? && e.ik.seqno <= s0)
    && NoSharedKey(markers, p.below)
    && (forall e :: e in kept <==> e in p.input && !Hidden(p.input, s0, e) && e !in markers)
  }

  /** The visible entry of `k` is an obsolete marker, and the rest of the next level would answer
      with a value. */
  ghost predicate ExposedBy(p: Split, s0: nat, markers: set<Entry>, k: UserKey) {
    exists d, r :: d in markers && IsVisible(p.All(), k, s0, d) && IsVisible(p.next, k, s0, r) && r.ik.kind.Put?
  }

  /** A read whose visible entry survives is unchanged. */
  lemma SurvivorStaysVisible(S: set<Entry>, S': set<Entry>, k: UserKey, s: nat, v: Entry)
    requires Distinct(S) && S' <= S && v in S' && IsVisible(S, k, s, v)
    ensures Read(S', k, s) == Read(S, k, s)
  {
    ReadVisible(S, k, s, v);
    ReadVisible(S', k, s, v);
  }

  /** Once an obsolete marker was the visible entry, only the rest of the next level can hold an older
      entry of its key. */
  lemma OnlyNextLevelLeft(p: Split, s0: nat, markers: set<Entry>, kept: set<Entry>, k: UserKey, s: nat, d: Entry, e: Entry)
    requires Filtered(p, s0, markers, kept) && s >= s0
    requires d in markers && IsVisible(p.All(), k, s, d)
    requires e in p.After(kept) && Candidate(k, s, e)
    ensures e in p.next && e.ik.seqno < d.ik.seqno
  {
    assert e in p.All() && e != d;
    assert e.ik.seqno < d.ik.seqno;
    assert e in kept ==> Hidden(p.input, s0, e);
  }

  /** Every dropped entry that was visible is an obsolete marker. */
  lemma VisibleDroppedIsMarker(p: Split, s0: nat, markers: set<Entry>, kept: set<Entry>, k: UserKey, s: nat, v: Entry)
    requires Filtered(p, s0, markers, kept) && s >= s0
    requires IsVisible(p.All(), k, s, v) && v !in p.After(kept)
    ensures v in markers
  {
    assert !Hidden(p.input, s0, v);
  }

  lemma UnexposedReadSame(p: Split, s0: nat, markers: set<Entry>, kept: set<Entry>, k: UserKey, s: nat)
    requires Filtered(p, s0, markers, kept) && s >= s0
    requires !ExposedBy(p, s0, markers, k)
    ensures Read(p.After(kept), k, s) == Read(p.All(), k, s)
  {
    var S, S' := p.All(), p.After(kept);
    if v :| IsVisible(S, k, s, v) {
      if v in S' {
        SurvivorStaysVisible(S, S', k, s, v);
      } else {
        VisibleDroppedIsMarker(p, s0, markers, kept, k, s, v);
        ReadVisible(S, k, s, v);
        if r :| IsVisible(S', k, s, r) {
          OnlyNextLevelLeft(p, s0, markers, kept, k, s, v, r);
          assert IsVisible(S, k, s0, v) && IsVisible(p.next, k, s0, r);
          ReadVisible(S', k, s, r);
        }
      }
    } else {
      forall e | e in S ensures !Candidate(k, s, e) {
        if Candidate(k, s, e) {
          VisibleExists(S, k, s, e);
        }
      }
      ReadAbsent(S, k, s);
      ReadAbsent(S', k, s);
    }
  }

  lemma ExposedReadDiffers(p: Split, s0: nat, markers: set<Entry>, kept: set<Entry>, k: UserKey)
    requires Filtered(p, s0, markers, kept) && ExposedBy(p, s0, markers, k)
    ensures Read(p.All(), k, s0) == None && Read(p.After(kept), k, s0).Some?
  {
    var d, r :| d in markers && IsVisible(p.All(), k, s0, d) && IsVisible(p.next, k, s0, r) && r.ik.kind.Put?;
    ReadVisible(p.All(), k, s0, d);
    forall e | e in p.After(kept) && Candidate(k, s0, e) ensures e.ik.seqno <= r.ik.seqno {
      OnlyNextLevelLeft(p, s0, markers, kept, k, s0, d, e);
    }
    ReadVisible(p.After(kept), k, s0, r);
  }

  /** Reads at or above the oldest snapshot are unchanged if and only if no key is exposed. */
  lemma PreservedIffUnexposed(p: Split, s0: nat, markers: set<Entry>, kept: set<Entry>)
    requires Filtered(p, s0, markers, kept)
    ensures Agree(p.After(kept), p.All(), s0) <==> forall k :: !ExposedBy(p, s0, markers, k)
  {
    if k :| ExposedBy(p, s0, markers, k) {
      ExposedReadDiffers(p, s0, markers, kept, k);
    } else {
      forall k, s | s >= s0 ensures Read(p.After(kept), k, s) == Read(p.All(), k, s) {
        UnexposedReadSame(p, s0, markers, kept, k, s);
      }
    }
  }

  // ------------------------------------------------------------- the argument on levels

  ghost function LeftOut(files: seq<File>, ins: seq<File>): set<Entry> {
    set f, e | f in files && f !in ins && e in f.run :: e
  }

  ghost function LevelsBetween(levels: seq<seq<File>>, lo: nat, hi: nat): set<Entry> {
    set l, e | lo <= l < hi && l < |levels| && e in LevelEntries(levels[l]) :: e
  }

  ghost function InputEntries(c: Compaction): set<Entry> {
    LevelEntries(c.inputs0) + LevelEntries(c.inputs1)
  }

  /** The split of a store with memtable entries `mem` that a compaction induces. */
  ghost function SplitOf(mem: set<Entry>, levels: seq<seq<File>>, c: Compaction): Split
    requires |levels| == NUM_LEVELS && c.level + 1 < NUM_LEVELS
  {
    Split(mem + LevelsBetween(levels, 0, c.level) + LeftOut(levels[c.level], c.inputs0),
          InputEntries(c),
          LeftOut(levels[c.level + 1], c.inputs1),
          LevelsBetween(levels, c.level + 2, NUM_LEVELS))
  }

  lemma LevelSplits(files: seq<File>, ins: seq<File>)
    requires Subset(ins, files)
    ensures LevelEntries(files) == LevelEntries(ins) + LeftOut(files, ins)
  {
  }

  lemma AllEntriesSplit(levels: seq<seq<File>>, L: nat)
    requires |levels| == NUM_LEVELS && L + 1 < NUM_LEVELS
    ensures AllEntries(levels) == LevelsBetween(levels, 0, L) + LevelEntries(levels[L]) + LevelEntries(levels[L + 1])
                                  + LevelsBetween(levels, L + 2, NUM_LEVELS)
  {
    hide LevelEntries;
    forall e | e in AllEntries(levels)
      ensures e in LevelsBetween(levels, 0, L) + LevelEntries(levels[L]) + LevelEntries(levels[L + 1])
                   + LevelsBetween(levels, L + 2, NUM_LEVELS)
    {
      var l :| 0 <= l < |levels| && e in LevelEntries(levels[l]);
    }
  }

  lemma SplitIsWhole(mem: set<Entry>, levels: seq<seq<File>>, c: Compaction, p: Split)
    requires GoodInputs(levels, c) && p == SplitOf(mem, levels, c)
    ensures p.All() == mem + AllEntries(levels)
  {
    hide *;
    GoodInputsFacts(levels, c);
    LevelSplits(levels[c.level], c.inputs0);
    LevelSplits(levels[c.level + 1], c.inputs1);
    AllEntriesSplit(levels, c.level);
    UnfoldSplit(mem, levels, c);
    SetAlgebra(mem, LevelsBetween(levels, 0, c.level), LevelEntries(c.inputs0), LeftOut(levels[c.level], c.inputs0),
               LevelEntries(c.inputs1), LeftOut(levels[c.level + 1], c.inputs1), LevelsBetween(levels, c.level + 2, NUM_LEVELS));
  }

  lemma UnfoldSplit(mem: set<Entry>, levels: seq<seq<File>>, c: Compaction)
    requires |levels| == NUM_LEVELS && c.level + 1 < NUM_LEVELS
    ensures SplitOf(mem, levels, c).All()
         == mem + LevelsBetween(levels, 0, c.level) + LeftOut(levels[c.level], c.inputs0)
            + (LevelEntries(c.inputs0) + LevelEntries(c.inputs1))
            + LeftOut(levels[c.level + 1], c.inputs1) + LevelsBetween(levels, c.level + 2, NUM_LEVELS)
  {
  }

  lemma SetAlgebra(m: set<Entry>, up: set<Entry>, i0: set<Entry>, o0: set<Entry>, i1: set<Entry>, o1: set<Entry>, down: set<Entry>)
    ensures m + up + o0 + (i0 + i1) + o1 + down == m + (up + (i0 + o0) + (i1 + o1) + down)
  {
  }

  lemma LeftOutIsNewer(files: seq<File>, ins: seq<File>)
    requires Settled(files, ins)
    ensures Newer(LeftOut(files, ins), LevelEntries(ins))
  {
    forall e, e' | e in LeftOut(files, ins) && e' in LevelEntries(ins) && e.ik.key == e'.ik.key
      ensures e.ik.seqno > e'.ik.seqno
    {
      var g :| g in files && g !in ins && e in g.run;
      var f :| f in ins && e' in f.run;
      assert Newer(Contents(g.run), Contents(f.run));
      assert e in Contents(g.run) && e' in Contents(f.run);
    }
  }

  lemma UpperLevelsAreNewer(levels: seq<seq<File>>, L: nat, l: nat)
    requires Recency(levels) && L <= l < |levels|
    ensures Newer(LevelsBetween(levels, 0, L), LevelEntries(levels[l]))
  {
    forall e, e' | e in LevelsBetween(levels, 0, L) && e' in LevelEntries(levels[l]) && e.ik.key == e'.ik.key
      ensures e.ik.seqno > e'.ik.seqno
    {
      var a :| 0 <= a < L && e in LevelEntries(levels[a]);
      assert Newer(LevelEntries(levels[a]), LevelEntries(levels[l]));
    }
  }

  lemma RecencyAt(levels: seq<seq<File>>, a: nat, b: nat)
    requires Recency(levels) && a < b < |levels|
    ensures Newer(LevelEntries(levels[a]), LevelEntries(levels[b]))
  {
    hide Newer, LevelEntries;
  }

  lemma LevelInAll(levels: seq<seq<File>>, l: nat)
    requires l < |levels|
    ensures LevelEntries(levels[l]) <= AllEntries(levels)
  {
    hide LevelEntries;
  }

  lemma UnfoldFields(mem: set<Entry>, levels: seq<seq<File>>, c: Compaction)
    requires |levels| == NUM_LEVELS && c.level + 1 < NUM_LEVELS
    ensures SplitOf(mem, levels, c).above == mem + LevelsBetween(levels, 0, c.level) + LeftOut(levels[c.level], c.inputs0)
    ensures SplitOf(mem, levels, c).input == InputEntries(c) == LevelEntries(c.inputs0) + LevelEntries(c.inputs1)
    ensures SplitOf(mem, levels, c).next == LeftOut(levels[c.level + 1], c.inputs1)
    ensures SplitOf(mem, levels, c).below == LevelsBetween(levels, c.level + 2, NUM_LEVELS)
  {
  }

  lemma AboveIsNewer(mem: set<Entry>, levels: seq<seq<File>>, c: Compaction, p: Split)
    requires Recency(levels) && GoodInputs(levels, c) && Newer(mem, AllEntries(levels))
    requires p == SplitOf(mem, levels, c)
    ensures Newer(p.above, p.input)
  {
    hide *;
    GoodInputsFacts(levels, c);
    var L := c.level;
    UnfoldFields(mem, levels, c);
    LevelSplits(levels[L], c.inputs0);
    LevelSplits(levels[L + 1], c.inputs1);
    LevelInAll(levels, L);
    LevelInAll(levels, L + 1);
    UpperLevelsAreNewer(levels, L, L);
    UpperLevelsAreNewer(levels, L, L + 1);
    LeftOutIsNewer(levels[L], c.inputs0);
    RecencyAt(levels, L, L + 1);
    NewerUnion(mem, LevelsBetween(levels, 0, L), LeftOut(levels[L], c.inputs0), LevelEntries(c.inputs0), LevelEntries(c.inputs1),
               LeftOut(levels[L + 1], c.inputs1), AllEntries(levels));
  }

  lemma NewerUnion(m: set<Entry>, up: set<Entry>, o0: set<Entry>, i0: set<Entry>, i1: set<Entry>, o1: set<Entry>, all: set<Entry>)
    requires Newer(m, all) && i0 + o0 <= all && i1 + o1 <= all
    requires Newer(up, i0 + o0) && Newer(up, i1 + o1) && Newer(o0, i0) && Newer(i0 + o0, i1 + o1)
    ensures Newer(m + up + o0, i0 + i1)
  {
    forall e, e' | e in m + up + o0 && e' in i0 + i1 && e.ik.key == e'.ik.key ensures e.ik.seqno > e'.ik.seqno {
      assert e' in i0 ==> e' in i0 + o0;
      assert e' in i1 ==> e' in i1 + o1;
      assert e in o0 ==> e in i0 + o0;
    }
  }

  lemma LeftOutApart(files: seq<File>, ins: seq<File>)
    requires AllWellFormed(files) && Disjoint(files) && Subset(ins, files)
    ensures NoSharedEntry(LevelEntries(ins), LeftOut(files, ins))
  {
    forall e, f, g | f in ins && g in files && g !in ins && e in f.run ensures e !in g.run {
      if e in g.run {
        EntryInBounds(g, e);
        EntryInBounds(f, e);
        Apart(files, f, g);
      }
    }
  }

  /** Files of one sorted level share no entry, so inputs and left-out files share none. */
  lemma InputsApartFromRest(upper: seq<File>, lower: seq<File>, inputs0: seq<File>, inputs1: seq<File>)
    requires Newer(LevelEntries(upper), LevelEntries(lower)) && AllWellFormed(lower) && Disjoint(lower)
    requires Subset(inputs0, upper) && Subset(inputs1, lower)
    ensures NoSharedEntry(LevelEntries(inputs0) + LevelEntries(inputs1), LeftOut(lower, inputs1))
  {
    LevelSplits(upper, inputs0);
    LevelSplits(lower, inputs1);
    NewerSubsets(LevelEntries(upper), LevelEntries(lower), LevelEntries(inputs0), LeftOut(lower, inputs1));
    LeftOutApart(lower, inputs1);
  }

  /** The obsolete markers among the inputs. */
  ghost function Markers(levels: seq<seq<File>>, c: Compaction, s0: nat): set<Entry> {
    set e | e in InputEntries(c) && Obsolete(levels, c.level, s0, e)
  }

  lemma UnfoldMarkers(levels: seq<seq<File>>, c: Compaction, s0: nat)
    ensures forall e :: e in Markers(levels, c, s0) <==> e in InputEntries(c) && Obsolete(levels, c.level, s0, e)
  {
    hide Obsolete, InputEntries;
  }

  lemma LevelOk(levels: seq<seq<File>>, l: nat)
    requires FilesOk(levels) && l < NUM_LEVELS
    ensures AllWellFormed(levels[l]) && (l > 0 ==> Disjoint(levels[l]))
  {
    hide AllWellFormed, Disjoint, SortedBySmallest;
  }

  lemma MarkersAreInputs(levels: seq<seq<File>>, c: Compaction, s0: nat)
    ensures Markers(levels, c, s0) <= LevelEntries(c.inputs0) + LevelEntries(c.inputs1)
  {
  }

  ghost predicate NoSharedKey(S: set<Entry>, T: set<Entry>) {
    forall e, e' :: e in S && e' in T ==> e.ik.key != e'.ik.key
  }

  lemma NothingBelow(mem: set<Entry>, levels: seq<seq<File>>, c: Compaction, s0: nat, p: Split, markers: set<Entry>)
    requires FilesOk(levels) && c.level + 1 < NUM_LEVELS
    requires p == SplitOf(mem, levels, c) && markers == Markers(levels, c, s0)
    ensures NoSharedKey(markers, p.below)
  {
    forall e, b | e in markers && b in p.below
      ensures b.ik.key != e.ik.key
    {
      var l :| c.level + 2 <= l < NUM_LEVELS && b in LevelEntries(levels[l]);
      var f :| f in levels[l] && b in f.run;
      EntryInBounds(f, b);
    }
  }

  lemma FilteredFromFacts(p: Split, levels: seq<seq<File>>, level: nat, s0: nat, markers: set<Entry>, kept: set<Entry>)
    requires Distinct(p.All()) && Newer(p.above, p.input) && NoSharedEntry(p.input, p.next) && NoSharedKey(markers, p.below)
    requires forall e :: e in markers <==> e in p.input && Obsolete(levels, level, s0, e)
    requires forall e :: e in kept <==> e in p.input && !Dropped(levels, level, p.input, s0, e)
    ensures Filtered(p, s0, markers, kept)
  {
  }

  lemma CompactionFiltered(mem: set<Entry>, levels: seq<seq<File>>, c: Compaction, s0: nat, kept: set<Entry>,
                           p: Split, markers: set<Entry>)
    requires FilesOk(levels) && Recency(levels) && GoodInputs(levels, c) && Newer(mem, AllEntries(levels))
    requires Distinct(mem + AllEntries(levels))
    requires p == SplitOf(mem, levels, c) && markers == Markers(levels, c, s0)
    requires forall e :: e in kept <==> e in p.input && !Dropped(levels, c.level, p.input, s0, e)
    ensures p.All() == mem + AllEntries(levels) && Filtered(p, s0, markers, kept)
  {
    hide *;
    GoodInputsFacts(levels, c);
    UnfoldFields(mem, levels, c);
    UnfoldMarkers(levels, c, s0);
    SplitIsWhole(mem, levels, c, p);
    AboveIsNewer(mem, levels, c, p);
    NextLevelApart(levels, c, p.input, p.next);
    NothingBelow(mem, levels, c, s0, p, markers);
    FilteredFromFacts(p, levels, c.level, s0, markers, kept);
  }

  /** For any store and any well-chosen inputs: replacing the inputs by the surviving entries leaves
      every read at or above the oldest snapshot unchanged if and only if no key is exposed. */
  lemma CompactionPreservesReads(mem: set<Entry>, levels: seq<seq<File>>, c: Compaction, s0: nat, kept: set<Entry>,
                                 p: Split, markers: set<Entry>)
    requires FilesOk(levels) && Recency(levels) && GoodInputs(levels, c) && Newer(mem, AllEntries(levels))
    requires Distinct(mem + AllEntries(levels))
    requires p == SplitOf(mem, levels, c) && markers == Markers(levels, c, s0)
    requires forall e :: e in kept <==> e in p.input && !Dropped(levels, c.level, p.input, s0, e)
    ensures p.All() == mem + AllEntries(levels)
    ensures Agree(p.After(kept), p.All(), s0) <==> forall k :: !ExposedBy(p, s0, markers, k)
  {
    hide *;
    CompactionFiltered(mem, levels, c, s0, kept, p, markers);
    PreservedIffUnexposed(p, s0, markers, kept);
  }

  lemma NextLevelApart(levels: seq<seq<File>>, c: Compaction, input: set<Entry>, next: set<Entry>)
    requires FilesOk(levels) && Recency(levels) && GoodInputs(levels, c)
    requires input == InputEntries(c) && next == LeftOut(levels[c.level + 1], c.inputs1)
    ensures NoSharedEntry(input, next)
  {
    hide *;
    GoodInputsFacts(levels, c);
    RecencyAt(levels, c.level, c.level + 1);
    LevelOk(levels, c.level + 1);
    UnfoldFields({}, levels, c);
    InputsApartFromRest(levels[c.level], levels[c.level + 1], c.inputs0, c.inputs1);
  }

  /** No file left out of the next level shares a user key with one of its inputs. */
  ghost predicate NextLevelClosed(levels: seq<seq<File>>, c: Compaction)
    requires |levels| == NUM_LEVELS && c.level + 1 < NUM_LEVELS
  {
    forall f, g, e, e' :: f in c.inputs1 && g in levels[c.level + 1] && g !in c.inputs1 && e in f.run && e' in g.run
      ==> e.ik.key != e'.ik.key
  }

  lemma UpperInputsApart(levels: seq<seq<File>>, c: Compaction, next: set<Entry>)
    requires FilesOk(levels) && GoodInputs(levels, c)
    requires next == LeftOut(levels[c.level + 1], c.inputs1)
    ensures NoSharedKey(LevelEntries(c.inputs0), next)
  {
    forall d, r | d in LevelEntries(c.inputs0) && r in next ensures d.ik.key != r.ik.key {
      var g :| g in levels[c.level + 1] && g !in c.inputs1 && r in g.run;
      var f :| f in c.inputs0 && d in f.run;
      InputHullApart(levels, c, f, g, d, r);
    }
  }

  lemma LowerInputsApart(levels: seq<seq<File>>, c: Compaction, next: set<Entry>)
    requires |levels| == NUM_LEVELS && c.level + 1 < NUM_LEVELS && NextLevelClosed(levels, c)
    requires next == LeftOut(levels[c.level + 1], c.inputs1)
    ensures NoSharedKey(LevelEntries(c.inputs1), next)
  {
    forall d, r | d in LevelEntries(c.inputs1) && r in next ensures d.ik.key != r.ik.key {
      var g :| g in levels[c.level + 1] && g !in c.inputs1 && r in g.run;
      var f :| f in c.inputs1 && d in f.run;
    }
  }

  /** Closing the next level's inputs too would be enough. */
  lemma ClosedExposesNothing(mem: set<Entry>, levels: seq<seq<File>>, c: Compaction, s0: nat, p: Split, markers: set<Entry>, k: UserKey)
    requires FilesOk(levels) && GoodInputs(levels, c) && NextLevelClosed(levels, c)
    requires p == SplitOf(mem, levels, c) && markers == Markers(levels, c, s0)
    ensures !ExposedBy(p, s0, markers, k)
  {
    hide *;
    GoodInputsFacts(levels, c);
    UnfoldFields(mem, levels, c);
    MarkersAreInputs(levels, c, s0);
    UpperInputsApart(levels, c, p.next);
    LowerInputsApart(levels, c, p.next);
    ApartIsUnexposed(p, s0, markers, k, LevelEntries(c.inputs0), LevelEntries(c.inputs1));
  }

  lemma ApartIsUnexposed(p: Split, s0: nat, markers: set<Entry>, k: UserKey, upper: set<Entry>, lower: set<Entry>)
    requires NoSharedKey(upper, p.next) && NoSharedKey(lower, p.next) && markers <= upper + lower
    ensures !ExposedBy(p, s0, markers, k)
  {
  }

  /** A file left out of the next level holds no user key of a level-`L` input. */
  lemma InputHullApart(levels: seq<seq<File>>, c: Compaction, f: File, g: File, d: Entry, r: Entry)
    requires FilesOk(levels) && GoodInputs(levels, c)
    requires f in c.inputs0 && d in f.run
    requires g in levels[c.level + 1] && g !in c.inputs1 && r in g.run
    ensures r.ik.key != d.ik.key
  {
    EntryInBounds(g, r);
    assert f in levels[c.level];
    EntryInBounds(f, d);
    assert !Overlaps(g, Some(c.smallest.key), Some(c.largest.key));
  }

  /** No user key is split across two files. */
  predicate UserDisjoint(files: seq<File>) {
    forall i, j :: 0 <= i < j < |files| ==> files[i].largest.key < files[j].smallest.key
  }

  /** In particular when no two neighbours of the next level share a user key. */
  lemma UserDisjointIsClosed(levels: seq<seq<File>>, c: Compaction)
    requires FilesOk(levels) && GoodInputs(levels, c) && UserDisjoint(levels[c.level + 1])
    ensures NextLevelClosed(levels, c)
  {
    forall f, g, e, e' | f in c.inputs1 && g in levels[c.level + 1] && g !in c.inputs1 && e in f.run && e' in g.run
      ensures e.ik.key != e'.ik.key
    {
      UserDisjointApart(levels[c.level + 1], f, g, e, e');
    }
  }

  lemma UserDisjointApart(files: seq<File>, f: File, g: File, e: Entry, e': Entry)
    requires AllWellFormed(files) && UserDisjoint(files) && f in files && g in files && f != g
    requires e in f.run && e' in g.run
    ensures e.ik.key != e'.ik.key
  {
    EntryInBounds(f, e);
    EntryInBounds(g, e');
    var i :| 0 <= i < |files| && files[i] == f;
    var j :| 0 <= j < |files| && files[j] == g;
  }
}
