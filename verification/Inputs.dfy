/** The inputs of a compaction: boundary files, the next level, expansion.

    `Settled` is what a compaction needs of its level-`L` inputs: a file left out of them is newer on
    every user key it shares with them. */
module Inputs {
  import opened DbFormat
  import opened Reads
  import opened Version
  import opened Picking

  // ------------------------------------------------------------------------ boundary files

  ghost predicate IsLargest(files: seq<File>, k: InternalKey) {
    && (exists f :: f in files && f.largest == k)
    && (forall f :: f in files ==> AtMost(f.largest, k))
  }

  /** The largest key of a list of files; false iff there are none. */
  method FindLargestKey(files: seq<File>) returns (found: bool, k: InternalKey)
    ensures found <==> files != []
    ensures found ==> IsLargest(files, k)
  {
    if files == [] {
      return false, InternalKey(0.0, 0, Deletion);
    }
    found, k := true, files[0].largest;
    for i := 1 to |files|
      invariant IsLargest(files[..i], k)
    {
      if Less(k, files[i].largest) {
        k := files[i].largest;
      }
      assert files[i] in files[..i + 1];
      assert forall f :: f in files[..i + 1] <==> f in files[..i] || f == files[i];
    }
    assert files[..|files|] == files;
  }

  /** `f` starts after `k` with the same user key. */
  predicate Boundary(f: File, k: InternalKey) {
    Less(k, f.smallest) && f.smallest.key == k.key
  }

  method FindSmallestBoundaryFile(levelFiles: seq<File>, k: InternalKey) returns (r: Option<File>)
    ensures r.None? ==> forall f :: f in levelFiles ==> !Boundary(f, k)
    ensures r.Some? ==> r.value in levelFiles && Boundary(r.value, k)
    ensures r.Some? ==> forall f :: f in levelFiles && Boundary(f, k) ==> AtMost(r.value.smallest, f.smallest)
  {
    r := None;
    for i := 0 to |levelFiles|
      invariant r.None? ==> forall f :: f in levelFiles[..i] ==> !Boundary(f, k)
      invariant r.Some? ==> r.value in levelFiles && Boundary(r.value, k)
      invariant r.Some? ==> forall f :: f in levelFiles[..i] && Boundary(f, k) ==> AtMost(r.value.smallest, f.smallest)
    {
      var f := levelFiles[i];
      if Boundary(f, k) {
        if r.None? || Less(f.smallest, r.value.smallest) {
          r := Some(f);
        }
      }
    }
  }

  ghost predicate Subset(ins: seq<File>, files: seq<File>) {
    forall f :: f in ins ==> f in files
  }

  /** `g` lies strictly between `f` and `h`. */
  predicate Between(f: File, g: File, h: File) {
    Less(f.largest, g.smallest) && Less(g.largest, h.smallest)
  }

  /** Inputs drawn from a sorted level without leaving out a file between two of them. */
  ghost predicate Contiguous(files: seq<File>, ins: seq<File>) {
    && Disjoint(files) && Subset(ins, files)
    && forall f, g, h :: f in ins && h in ins && g in files && Between(f, g, h) ==> g in ins
  }

  lemma Bounds(f: File)
    requires WellFormed(f)
    ensures AtMost(f.smallest, f.largest)
  {
    EntryInBounds(f, f.run[0]);
  }

  lemma Apart(files: seq<File>, f: File, g: File)
    requires Disjoint(files) && f in files && g in files && f != g
    ensures Less(f.largest, g.smallest) || Less(g.largest, f.smallest)
  {
    var i :| 0 <= i < |files| && files[i] == f;
    var j :| 0 <= j < |files| && files[j] == g;
  }

  /** Some file of the level starts right after the inputs with the same user key. */
  ghost predicate HasBoundary(levelFiles: seq<File>, ins: seq<File>) {
    exists k, f :: IsLargest(ins, k) && f in levelFiles && Boundary(f, k)
  }

  /** `result` is `ins` followed by distinct files of the level that were not among `ins`. */
  ghost predicate Extension(levelFiles: seq<File>, ins: seq<File>, result: seq<File>) {
    && ins <= result
    && (forall i :: |ins| <= i < |result| ==> result[i] in levelFiles && result[i] !in ins)
    && (forall i, j :: |ins| <= i < j < |result| ==> result[i] != result[j])
  }

  lemma ExtensionSnoc(levelFiles: seq<File>, ins: seq<File>, result: seq<File>, b: File)
    requires AllWellFormed(levelFiles) && AllWellFormed(result)
    requires Extension(levelFiles, ins, result) && b in levelFiles && b !in result
    ensures Extension(levelFiles, ins, result + [b]) && AllWellFormed(result + [b])
  {
    forall i | 0 <= i < |result| ensures result[i] in result {
    }
    forall f | f in ins ensures f in result {
    }
  }

  /** `b` is the first file of the level that starts right after `f` with the same user key. */
  ghost predicate NextBoundary(files: seq<File>, f: File, b: File) {
    && b in files && Boundary(b, f.largest)
    && forall g :: g in files && Boundary(g, f.largest) ==> AtMost(b.smallest, g.smallest)
  }

  /** With every file the set contains the one that starts right after it with the same user key. */
  ghost predicate ClosedUpward(files: seq<File>, S: set<File>) {
    forall f, b :: f in S && NextBoundary(files, f, b) ==> b in S
  }

  ghost function FilesOf(files: seq<File>): set<File> {
    set f | f in files
  }

  /** `ins` lies in every upward closed set that contains `picked`. */
  ghost predicate InEveryClosure(files: seq<File>, picked: seq<File>, ins: seq<File>) {
    forall S: set<File> :: FilesOf(picked) <= S && ClosedUpward(files, S) ==> FilesOf(ins) <= S
  }

  /** `result` is the least upward closed set of files that contains the picked ones, which come first. */
  ghost predicate IsClosure(files: seq<File>, picked: seq<File>, result: seq<File>) {
    && picked <= result && ClosedUpward(files, FilesOf(result)) && InEveryClosure(files, picked, result)
  }

  lemma ClosureGrows(files: seq<File>, picked: seq<File>, ins: seq<File>, k: InternalKey, b: File)
    requires InEveryClosure(files, picked, ins) && IsLargest(ins, k) && b in files && Boundary(b, k)
    requires forall g :: g in files && Boundary(g, k) ==> AtMost(b.smallest, g.smallest)
    ensures InEveryClosure(files, picked, ins + [b])
  {
    var top :| top in ins && top.largest == k;
    assert NextBoundary(files, top, b);
    hide NextBoundary;
    forall S: set<File> | FilesOf(picked) <= S && ClosedUpward(files, S) ensures FilesOf(ins + [b]) <= S {
      assert top in FilesOf(ins);
    }
  }

  lemma ClosureStarts(files: seq<File>, picked: seq<File>)
    ensures InEveryClosure(files, picked, picked)
  {
  }

  /** In a sorted level, contiguous inputs with no boundary file left are upward closed. */
  lemma ContiguousIsClosed(files: seq<File>, ins: seq<File>)
    requires AllWellFormed(files) && Contiguous(files, ins) && !HasBoundary(files, ins)
    ensures ClosedUpward(files, FilesOf(ins))
  {
    forall f, b | f in FilesOf(ins) && NextBoundary(files, f, b) ensures b in FilesOf(ins) {
      var largest := LargestExists(ins);
      var top :| top in ins && top.largest == largest;
      if b !in ins {
        Bounds(b);
        Bounds(f);
        Bounds(top);
        Apart(files, b, top);
        if f != top {
          Apart(files, f, top);
        }
        assert Boundary(b, f.largest) && !Boundary(b, largest);
        assert Between(f, b, top);
      }
    }
  }

  /** A closed set of level-0 files shares no user key with the others, so it is upward closed. */
  lemma ClosedRangeIsClosed(files: seq<File>, lo: Option<UserKey>, hi: Option<UserKey>)
    requires AllWellFormed(files) && ClosedRange(files, lo, hi)
    ensures ClosedUpward(files, FilesOf(Overlapping(files, lo, hi)))
  {
    var ins := Overlapping(files, lo, hi);
    forall f, b | f in FilesOf(ins) && NextBoundary(files, f, b) ensures b in ins {
      Bounds(b);
      Bounds(f);
    }
  }

  /** The files starting after `k`: the boundary loop's measure. */
  ghost function After(levelFiles: seq<File>, k: InternalKey): set<File> {
    set f | f in levelFiles && Less(k, f.smallest)
  }

  /** Extends the inputs until no file of the level starts right after them with the same user key.
      Nothing is added twice, and in a sorted level the inputs stay contiguous. */
  method AddBoundaryInputs(levelFiles: seq<File>, compactionFiles: seq<File>) returns (result: seq<File>)
    requires AllWellFormed(levelFiles) && AllWellFormed(compactionFiles)
    ensures Extension(levelFiles, compactionFiles, result)
    ensures compactionFiles == [] ==> result == []
    ensures !HasBoundary(levelFiles, result)
    ensures !HasBoundary(levelFiles, compactionFiles) ==> result == compactionFiles
    ensures Contiguous(levelFiles, compactionFiles) ==> Contiguous(levelFiles, result)
    ensures Disjoint(compactionFiles) ==> Disjoint(result)
    ensures InEveryClosure(levelFiles, compactionFiles, result)
  {
    hide *;
    NothingAdded(levelFiles, compactionFiles);
    ClosureStarts(levelFiles, compactionFiles);
    result := compactionFiles;
    var found, largest := FindLargestKey(compactionFiles);
    if !found {
      return;
    }
    var continueSearching := true;
    while continueSearching
      invariant AllWellFormed(result) && Extension(levelFiles, compactionFiles, result)
      invariant IsLargest(result, largest)
      invariant result != compactionFiles ==> HasBoundary(levelFiles, compactionFiles)
      invariant Contiguous(levelFiles, compactionFiles) ==> Contiguous(levelFiles, result)
      invariant Disjoint(compactionFiles) ==> Disjoint(result)
      invariant InEveryClosure(levelFiles, compactionFiles, result)
      invariant !continueSearching ==> forall f :: f in levelFiles ==> !Boundary(f, largest)
      decreases continueSearching, After(levelFiles, largest)
    {
      var b := FindSmallestBoundaryFile(levelFiles, largest);
      if b.Some? {
        BoundaryExtends(levelFiles, result, largest, b.value);
        ExtensionSnoc(levelFiles, compactionFiles, result, b.value);
        AfterShrinks(levelFiles, result, largest, b.value);
        ClosureGrows(levelFiles, compactionFiles, result, largest, b.value);
        result := result + [b.value];
        largest := b.value.largest;
      } else {
        continueSearching := false;
      }
    }
    NoBoundaryLeft(levelFiles, result, largest);
  }

  lemma NothingAdded(levelFiles: seq<File>, ins: seq<File>)
    ensures Extension(levelFiles, ins, ins) && (ins == [] ==> !HasBoundary(levelFiles, ins))
  {
  }

  lemma NoBoundaryLeft(levelFiles: seq<File>, ins: seq<File>, largest: InternalKey)
    requires IsLargest(ins, largest) && forall f :: f in levelFiles ==> !Boundary(f, largest)
    ensures !HasBoundary(levelFiles, ins)
  {
    forall k | IsLargest(ins, k) ensures k == largest {
      LessIsTotalOrder(k, largest, k);
    }
  }

  lemma AfterShrinks(levelFiles: seq<File>, ins: seq<File>, largest: InternalKey, b: File)
    requires IsLargest(ins, largest) && b in levelFiles && Boundary(b, largest) && AtMost(b.smallest, b.largest)
    ensures After(levelFiles, b.largest) < After(levelFiles, largest) && HasBoundary(levelFiles, ins)
  {
    assert b in After(levelFiles, largest) && b !in After(levelFiles, b.largest);
  }

  lemma BoundaryExtends(levelFiles: seq<File>, ins: seq<File>, largest: InternalKey, b: File)
    requires AllWellFormed(levelFiles) && AllWellFormed(ins)
    requires IsLargest(ins, largest)
    requires b in levelFiles && Boundary(b, largest)
    requires forall f :: f in levelFiles && Boundary(f, largest) ==> AtMost(b.smallest, f.smallest)
    ensures b !in ins && IsLargest(ins + [b], b.largest)
    ensures AtMost(b.smallest, b.largest)
    ensures Contiguous(levelFiles, ins) ==> Contiguous(levelFiles, ins + [b])
    ensures Disjoint(ins) ==> Disjoint(ins + [b])
  {
    Bounds(b);
    forall i | 0 <= i < |ins| ensures Less(ins[i].largest, b.smallest) {
      assert ins[i] in ins;
    }
    forall f | f in ins + [b] ensures f in ins || f == b {
    }
    assert b in ins + [b];
    if Contiguous(levelFiles, ins) {
      var top :| top in ins && top.largest == largest;
      forall f, g, h | f in ins + [b] && h in ins + [b] && g in levelFiles && Between(f, g, h)
        ensures g in ins + [b]
      {
        BetweenInputsAndBoundary(levelFiles, ins, top, b, f, g, h);
      }
    }
  }

  lemma BetweenInputsAndBoundary(levelFiles: seq<File>, ins: seq<File>, top: File, b: File, f: File, g: File, h: File)
    requires AllWellFormed(levelFiles) && Contiguous(levelFiles, ins)
    requires top in ins && forall x :: x in ins ==> AtMost(x.largest, top.largest)
    requires b in levelFiles && Boundary(b, top.largest)
    requires forall x :: x in levelFiles && Boundary(x, top.largest) ==> AtMost(b.smallest, x.smallest)
    requires (f in ins || f == b) && (h in ins || h == b) && g in levelFiles && Between(f, g, h)
    ensures g in ins || g == b
  {
    Bounds(f);
    Bounds(g);
    Bounds(h);
    if g !in ins {
      Apart(levelFiles, g, top);
    }
  }

  // --------------------------------------------------------------- what the inputs must satisfy

  /** A file left out of the inputs is newer than them on every user key they share. */
  ghost predicate Settled(files: seq<File>, ins: seq<File>) {
    && ins != [] && Subset(ins, files)
    && forall f, g :: f in ins && g in files && g !in ins ==> Newer(Contents(g.run), Contents(f.run))
  }

  /** Inputs are listed without repetition, and in order outside level 0. */
  ghost predicate Ordered(level: nat, ins: seq<File>) {
    && (level == 0 ==> forall i, j :: 0 <= i < j < |ins| ==> ins[i] != ins[j])
    && (level > 0 ==> Disjoint(ins))
  }

  /** Inputs as first picked: a closed set in level 0, a contiguous one elsewhere. */
  ghost predicate Picked(files: seq<File>, level: nat, ins: seq<File>) {
    && ins != [] && Subset(ins, files) && Ordered(level, ins)
    && (level == 0 ==> exists lo, hi :: ClosedRange(files, lo, hi) && ins == Overlapping(files, lo, hi))
    && (level > 0 ==> Contiguous(files, ins))
  }

  /** In level 0 a closed set of inputs has no boundary file left to add. */
  lemma ClosedHasNoBoundary(files: seq<File>, lo: Option<UserKey>, hi: Option<UserKey>, k: InternalKey, b: File)
    requires AllWellFormed(files) && ClosedRange(files, lo, hi)
    requires IsLargest(Overlapping(files, lo, hi), k) && b in files
    ensures !Boundary(b, k)
  {
    EntryInBounds(b, b.run[0]);
    var h :| h in Overlapping(files, lo, hi) && h.largest == k;
    EntryInBounds(h, h.run[0]);
  }

  lemma ClosedIsSettled(files: seq<File>, lo: Option<UserKey>, hi: Option<UserKey>)
    requires AllWellFormed(files) && ClosedRange(files, lo, hi)
    requires Overlapping(files, lo, hi) != []
    ensures Settled(files, Overlapping(files, lo, hi))
  {
    var ins := Overlapping(files, lo, hi);
    forall f, g, e, e' | f in ins && g in files && g !in ins && e in g.run && e' in f.run
      ensures e.ik.key != e'.ik.key
    {
      EntryInBounds(g, e);
      EntryInBounds(f, e');
    }
  }

  /** In a sorted level, contiguous inputs with no boundary file left are settled. */
  lemma ContiguousIsSettled(files: seq<File>, ins: seq<File>)
    requires AllWellFormed(files) && Distinct(LevelEntries(files))
    requires ins != [] && Contiguous(files, ins) && !HasBoundary(files, ins)
    ensures Settled(files, ins)
  {
    var largest := LargestExists(ins);
    var top :| top in ins && top.largest == largest;
    forall f, g | f in ins && g in files && g !in ins
      ensures Newer(Contents(g.run), Contents(f.run))
    {
      forall e, e' | e in g.run && e' in f.run && e.ik.key == e'.ik.key
        ensures e.ik.seqno > e'.ik.seqno
      {
        SharedIsNewer(files, ins, top, f, g, e, e');
      }
    }
  }

  lemma {:induction false} LargestExists(files: seq<File>) returns (k: InternalKey)
    requires files != []
    ensures IsLargest(files, k)
  {
    k := files[0].largest;
    if |files| > 1 {
      assert files == [files[0]] + files[1..];
      var k' := LargestExists(files[1..]);
      if Less(k, k') {
        k := k';
      }
    }
    assert files[0] in files;
  }

  lemma SharedIsNewer(files: seq<File>, ins: seq<File>, top: File, f: File, g: File, e: Entry, e': Entry)
    requires AllWellFormed(files) && Distinct(LevelEntries(files)) && Contiguous(files, ins)
    requires f in ins && top in ins && AtMost(f.largest, top.largest)
    requires g in files && g !in ins && !Boundary(g, top.largest)
    requires e in g.run && e' in f.run && e.ik.key == e'.ik.key
    ensures e.ik.seqno > e'.ik.seqno
  {
    EntryInBounds(g, e);
    EntryInBounds(f, e');
    Bounds(top);
    Bounds(g);
    Apart(files, f, g);
    Apart(files, top, g);
    assert e in LevelEntries(files) && e' in LevelEntries(files);
  }

  /** Boundary closure turns picked inputs into settled ones. */
  method CloseInputs(files: seq<File>, level: nat, ins: seq<File>) returns (result: seq<File>)
    requires AllWellFormed(files) && Distinct(LevelEntries(files)) && (level > 0 ==> Disjoint(files))
    requires Picked(files, level, ins)
    ensures ins <= result && Settled(files, result) && Ordered(level, result)
    ensures level == 0 ==> result == ins
    ensures IsClosure(files, ins, result)
  {
    hide InEveryClosure, ClosedUpward;
    assert AllWellFormed(ins) by {
      forall i | 0 <= i < |ins| ensures WellFormed(ins[i]) {
        assert ins[i] in files;
      }
    }
    result := AddBoundaryInputs(files, ins);
    if level == 0 {
      ghost var lo, hi :| ClosedRange(files, lo, hi) && ins == Overlapping(files, lo, hi);
      forall k, f | IsLargest(ins, k) && f in files ensures !Boundary(f, k) {
        ClosedHasNoBoundary(files, lo, hi, k, f);
      }
      ClosedIsSettled(files, lo, hi);
      ClosedRangeIsClosed(files, lo, hi);
    } else {
      ContiguousIsSettled(files, result);
      ContiguousIsClosed(files, result);
    }
  }
}
