/** A version and a compaction of it, chosen exactly as the code chooses inputs, that brings a deleted
    value back.  Level 2 splits user key 2 across two files: the first ends with the deletion marker,
    the second starts with the older value.  A level-1 file covering keys 0 to 1 pulls in only the
    first. */
module CompactionCounterexample {
  import opened DbFormat
  import opened Reads
  import opened Version
  import opened Picking
  import opened Inputs
  import opened Setup
  import opened CompactionWork
  import opened CompactionReads

  function Put(k: UserKey, n: nat): Entry {
    Entry(InternalKey(k, n, ValueType.Put), [7])
  }

  function FileOf(number: nat, run: seq<Entry>): File
    requires run != []
  {
    File(number, 1, run[0].ik, run[|run| - 1].ik, run)
  }

  const UPPER := FileOf(30, [Put(0.0, 6), Put(1.0, 5)])
  const MARKER := Entry(InternalKey(2.0, 4, Deletion), [])
  const FIRST := FileOf(10, [Put(1.0, 1), MARKER])
  const SECOND := FileOf(11, [Put(2.0, 3)])
  const LEVELS := [[], [UPPER], [FIRST, SECOND], [], [], [], []]
  const PICKED := Compaction(1, [UPPER], [FIRST], UPPER.smallest, UPPER.largest)

  /** The entries of each level, listed. */
  predicate Listed(l: nat, e: Entry) {
    || (l == 1 && (e == Put(0.0, 6) || e == Put(1.0, 5)))
    || (l == 2 && (e == Put(1.0, 1) || e == MARKER || e == Put(2.0, 3)))
  }

  lemma OneFile(f: File, e: Entry)
    ensures e in LevelEntries([f]) <==> e in f.run
  {
    assert f in [f];
  }

  lemma TwoFiles(f: File, g: File, e: Entry)
    ensures e in LevelEntries([f, g]) <==> e in f.run || e in g.run
  {
    assert f in [f, g] && g in [f, g];
  }

  lemma EntriesOfLevels(l: nat, e: Entry)
    requires l < NUM_LEVELS
    ensures e in LevelEntries(LEVELS[l]) <==> Listed(l, e)
  {
    OneFile(UPPER, e);
    TwoFiles(FIRST, SECOND, e);
    hide LevelEntries;
    if l != 1 && l != 2 {
      assert LEVELS[l] == [];
      NoFile(e);
    }
  }

  lemma NoFile(e: Entry)
    ensures e !in LevelEntries([])
  {
  }

  lemma AllEntriesListed(e: Entry)
    ensures e in AllEntries(LEVELS) <==> Listed(1, e) || Listed(2, e)
  {
    forall l: nat | l < NUM_LEVELS ensures e in LevelEntries(LEVELS[l]) <==> Listed(l, e) {
      EntriesOfLevels(l, e);
    }
    hide LevelEntries;
    assert e in LevelEntries(LEVELS[1]) || e in LevelEntries(LEVELS[2]) <==> Listed(1, e) || Listed(2, e);
  }

  lemma LevelsFilesOk()
    ensures FilesOk(LEVELS)
  {
    assert WellFormed(UPPER) && WellFormed(FIRST) && WellFormed(SECOND);
    assert Less(FIRST.largest, SECOND.smallest) && Less(FIRST.smallest, SECOND.smallest);
    hide WellFormed;
  }

  lemma LevelsNumbers()
    ensures NumberOrdered(LEVELS[0]) && UniqueNumbers(LEVELS)
  {
    forall l, f | 0 <= l < NUM_LEVELS && f in LEVELS[l]
      ensures (l == 1 && f == UPPER) || (l == 2 && (f == FIRST || f == SECOND))
    {
      assert LEVELS[l] == if l == 1 then [UPPER] else if l == 2 then [FIRST, SECOND] else [];
    }
    assert UPPER.number == 30 && FIRST.number == 10 && SECOND.number == 11;
  }

  lemma LevelsDistinct()
    ensures Distinct(AllEntries(LEVELS))
  {
    forall e, e' | e in AllEntries(LEVELS) && e' in AllEntries(LEVELS) && e.ik.seqno == e'.ik.seqno
      ensures e == e'
    {
      AllEntriesListed(e);
      AllEntriesListed(e');
      hide AllEntries;
    }
  }

  lemma LevelsRecency()
    ensures Recency(LEVELS)
  {
    forall a: nat, b: nat | a < b < NUM_LEVELS ensures Newer(LevelEntries(LEVELS[a]), LevelEntries(LEVELS[b])) {
      forall e, e' | e in LevelEntries(LEVELS[a]) && e' in LevelEntries(LEVELS[b]) && e.ik.key == e'.ik.key
        ensures e.ik.seqno > e'.ik.seqno
      {
        EntriesOfLevels(a, e);
        EntriesOfLevels(b, e');
        hide LevelEntries;
      }
    }
  }

  lemma LevelsInv()
    ensures Inv(LEVELS)
  {
    LevelsFilesOk();
    LevelsNumbers();
    LevelsDistinct();
    LevelsRecency();
    hide FilesOk, NumberOrdered, UniqueNumbers, Distinct, Recency;
  }

  lemma InputsAreGood()
    ensures GoodInputs(LEVELS, PICKED)
  {
    var lo, hi := Some(0.0), Some(1.0);
    assert [FIRST, SECOND][..1] == [FIRST] && [FIRST][..0] == [];
    assert Overlapping([FIRST, SECOND], lo, hi) == Overlapping([FIRST], lo, hi) == [FIRST];
  }

  lemma PickedIs(c: Compaction)
    requires GoodInputs(LEVELS, c) && c.level == 1 && ExactHull(c)
    ensures c == PICKED
  {
    assert LEVELS[1] == [UPPER] && LEVELS[2] == [FIRST, SECOND];
    assert WellFormed(UPPER) && forall f :: f in c.inputs0 ==> f in [UPPER];
    OnlyInput(c.inputs0, UPPER);
    assert forall f :: f in [UPPER] ==> f == UPPER;
    InputsAreGood();
    hide Overlapping, Settled;
  }

  /** An automatic compaction of the level-1 file picks exactly these inputs. */
  method PicksThem(expandedLimit: nat) returns (c: Compaction)
    ensures c == PICKED
  {
    hide *;
    LevelsInv();
    UpperIsThere();
    c := PickCompaction(LEVELS, 1, UPPER, expandedLimit);
    PickedIs(c);
  }

  lemma UpperIsThere()
    ensures |LEVELS| == NUM_LEVELS == 7 && UPPER in LEVELS[1]
  {
  }

  lemma MarkerIsObsolete()
    ensures MARKER in Markers(LEVELS, PICKED, 6)
  {
    OneFile(FIRST, MARKER);
    assert FIRST.run == [Put(1.0, 1), MARKER];
    assert BaseLevel(LEVELS, 1, 2.0);
    hide BaseLevel, LevelEntries;
  }

  lemma MarkerIsVisible(S: set<Entry>)
    requires S == {} + AllEntries(LEVELS)
    ensures IsVisible(S, 2.0, 6, MARKER)
  {
    AllEntriesListed(MARKER);
    forall e | e in S ensures Listed(1, e) || Listed(2, e) {
      AllEntriesListed(e);
    }
    hide AllEntries;
  }

  lemma ValueIsNext(next: set<Entry>)
    requires next == LeftOut(LEVELS[2], [FIRST])
    ensures IsVisible(next, 2.0, 6, Put(2.0, 3))
  {
    assert LEVELS[2] == [FIRST, SECOND] && SECOND in [FIRST, SECOND] && SECOND !in [FIRST];
    assert SECOND.run == [Put(2.0, 3)] && Put(2.0, 3) in SECOND.run;
    forall e | e in next ensures e == Put(2.0, 3) {
    }
  }

  /** The read of key 2 was absent and becomes a value, whatever the cuts of the output. */
  lemma DeletedValueComesBack(kept: set<Entry>, p: Split)
    requires p == SplitOf({}, LEVELS, PICKED)
    requires forall e :: e in kept <==> e in p.input && !Dropped(LEVELS, PICKED.level, p.input, 6, e)
    ensures Inv(LEVELS) && GoodInputs(LEVELS, PICKED)
    ensures p.All() == {} + AllEntries(LEVELS)
    ensures Read(p.All(), 2.0, 6) == None && Read(p.After(kept), 2.0, 6).Some?
  {
    LevelsInv();
    InputsAreGood();
    LevelsDistinct();
    MarkerIsObsolete();
    ValueIsNext(p.next);
    Compacts(kept, p);
  }

  lemma Compacts(kept: set<Entry>, p: Split)
    requires p == SplitOf({}, LEVELS, PICKED) && Inv(LEVELS) && GoodInputs(LEVELS, PICKED)
    requires IsVisible(p.next, 2.0, 6, Put(2.0, 3)) && MARKER in Markers(LEVELS, PICKED, 6)
    requires forall e :: e in kept <==> e in p.input && !Dropped(LEVELS, PICKED.level, p.input, 6, e)
    ensures p.All() == {} + AllEntries(LEVELS)
    ensures Read(p.All(), 2.0, 6) == None && Read(p.After(kept), 2.0, 6).Some?
  {
    var markers := Markers(LEVELS, PICKED, 6);
    assert FilesOk(LEVELS) && Recency(LEVELS);
    assert {} + AllEntries(LEVELS) == AllEntries(LEVELS);
    assert Newer({}, AllEntries(LEVELS));
    assert Put(2.0, 3).ik.kind.Put?;
    hide *;
    CompactionFiltered({}, LEVELS, PICKED, 6, kept, p, markers);
    MarkerIsVisible(p.All());
    ExposedHere(p, markers);
    ExposedReadDiffers(p, 6, markers, kept, 2.0);
  }

  lemma ExposedHere(p: Split, markers: set<Entry>)
    requires IsVisible(p.All(), 2.0, 6, MARKER) && MARKER in markers && IsVisible(p.next, 2.0, 6, Put(2.0, 3))
    ensures ExposedBy(p, 6, markers, 2.0)
  {
    assert Put(2.0, 3).ik.kind.Put?;
  }
}
