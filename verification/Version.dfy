/** A version: seven levels of table files, and the searches over them.

    `Inv` is the invariant that the read path relies on and that every version step keeps. */
module Version {
  import opened DbFormat
  import opened Reads

  const NUM_LEVELS := 7

  /** A table file's metadata together with its contents. */
  datatype File = File(number: nat, size: nat, smallest: InternalKey, largest: InternalKey, run: seq<Entry>)

  predicate WellFormed(f: File) {
    && f.run != [] && Sorted(f.run)
    && f.smallest == f.run[0].ik && f.largest == f.run[|f.run| - 1].ik
    && forall i :: 0 <= i < |f.run| ==> f.run[i].ik.seqno <= MAX_SEQUENCE_NUMBER
  }

  predicate AllWellFormed(files: seq<File>) {
    forall i :: 0 <= i < |files| ==> WellFormed(files[i])
  }

  /** Every entry lies between the file's recorded bounds. */
  lemma EntryInBounds(f: File, e: Entry)
    requires WellFormed(f) && e in f.run
    ensures AtMost(f.smallest, e.ik) && AtMost(e.ik, f.largest)
    ensures f.smallest.key <= e.ik.key <= f.largest.key
  {
    var i :| 0 <= i < |f.run| && f.run[i] == e;
    assert i > 0 ==> Less(f.run[0].ik, f.run[i].ik);
    assert i < |f.run| - 1 ==> Less(f.run[i].ik, f.run[|f.run| - 1].ik);
  }

  /** Sorted by internal key, without overlap. */
  predicate Disjoint(files: seq<File>) {
    forall i, j :: 0 <= i < j < |files| ==> Less(files[i].largest, files[j].smallest)
  }

  ghost function LevelEntries(files: seq<File>): set<Entry> {
    set f, e | f in files && e in f.run :: e
  }

  ghost function AllEntries(levels: seq<seq<File>>): set<Entry> {
    set l, e | 0 <= l < |levels| && e in LevelEntries(levels[l]) :: e
  }

  /** On every user key they share, the entries of `S` are newer than those of `T`. */
  ghost predicate Newer(S: set<Entry>, T: set<Entry>) {
    forall e, e' :: e in S && e' in T && e.ik.key == e'.ik.key ==> e.ik.seqno > e'.ik.seqno
  }

  /** Level-0 files may overlap; the one with the greater number is the newer. */
  ghost predicate NumberOrdered(files: seq<File>) {
    forall f, g :: f in files && g in files && f.number > g.number
      ==> Newer(Contents(f.run), Contents(g.run))
  }

  ghost predicate UniqueNumbers(levels: seq<seq<File>>) {
    forall a, b, f, g ::
      (0 <= a < |levels| && 0 <= b < |levels| && f in levels[a] && g in levels[b] && f.number == g.number)
      ==> a == b && f == g
  }

  /** The order in which a version lists its files: smallest key, then number. */
  predicate BySmallest(f: File, g: File) {
    Less(f.smallest, g.smallest) || (f.smallest == g.smallest && f.number < g.number)
  }

  predicate SortedBySmallest(files: seq<File>) {
    forall i, j :: 0 <= i < j < |files| ==> BySmallest(files[i], files[j])
  }

  /** The shape of each level on its own. */
  ghost predicate FilesOk(levels: seq<seq<File>>) {
    && |levels| == NUM_LEVELS
    && (forall l :: 0 <= l < NUM_LEVELS ==> AllWellFormed(levels[l]) && SortedBySmallest(levels[l]))
    && (forall l :: 1 <= l < NUM_LEVELS ==> Disjoint(levels[l]))
  }

  /** For each user key, every entry in a lower-numbered level is newer than every entry in a
      higher-numbered one. */
  ghost predicate Recency(levels: seq<seq<File>>) {
    forall a, b :: 0 <= a < b < |levels| ==> Newer(LevelEntries(levels[a]), LevelEntries(levels[b]))
  }

  ghost predicate Inv(levels: seq<seq<File>>) {
    && FilesOk(levels)
    && NumberOrdered(levels[0])
    && UniqueNumbers(levels)
    && Distinct(AllEntries(levels))
    && Recency(levels)
  }

  lemma NewerSubsets(S: set<Entry>, T: set<Entry>, S': set<Entry>, T': set<Entry>)
    requires Newer(S, T) && S' <= S && T' <= T
    ensures Newer(S', T') && forall e :: e in S' ==> e !in T'
  {
  }

  // -------------------------------------------------------------------------- search results

  /** `r` is the newest entry of `k` visible at `s`, or `None` because there is none. */
  ghost predicate Answers(S: set<Entry>, k: UserKey, s: nat, r: Option<Entry>) {
    match r
    case Some(e) => IsVisible(S, k, s, e)
    case None => forall e :: e in S ==> !Candidate(k, s, e)
  }

  /** An answer from a newer layer hides everything in an older one. */
  lemma AnswersLayered(S: set<Entry>, T: set<Entry>, k: UserKey, s: nat, r: Option<Entry>, r': Option<Entry>)
    requires Newer(S, T)
    requires Answers(S, k, s, r)
    requires r.None? ==> Answers(T, k, s, r')
    ensures Answers(S + T, k, s, if r.Some? then r else r')
  {
  }

  /** What a correct search returns is what a read means. */
  lemma AnswersIsRead(S: set<Entry>, k: UserKey, s: nat, r: Option<Entry>)
    requires Distinct(S) && Answers(S, k, s, r)
    ensures Read(S, k, s) == if r.Some? then Outcome(r.value) else None
  {
    if r.Some? {
      ReadVisible(S, k, s, r.value);
    } else {
      ReadAbsent(S, k, s);
    }
  }

  /** Seek to the lookup key and check the user key: the lookup in a memtable or a table. */
  function Search(run: seq<Entry>, k: UserKey, s: nat): (r: Option<Entry>) {
    var i := SeekIndex(run, LookupKey(k, s));
    if i < |run| && run[i].ik.key == k then Some(run[i]) else None
  }

  lemma SearchAnswers(run: seq<Entry>, k: UserKey, s: nat)
    requires Sorted(run)
    ensures Answers(Contents(run), k, s, Search(run, k, s))
  {
    var target := LookupKey(k, s);
    var i := SeekIndex(run, target);
    forall e | e in run && Candidate(k, s, e)
      ensures i < |run| && run[i].ik.key == k && run[i].ik.seqno >= e.ik.seqno
    {
      VisibleIffAtOrAfterLookupKey(e.ik, s);
      var j :| 0 <= j < |run| && run[j] == e;
      assert i <= j;
      assert i < j ==> Less(run[i].ik, run[j].ik);
    }
    if i < |run| && run[i].ik.key == k {
      VisibleIffAtOrAfterLookupKey(run[i].ik, s);
    }
  }

  /** The lookup of one table file. */
  method TableGet(f: File, k: UserKey, s: nat) returns (r: Option<Entry>)
    requires WellFormed(f)
    ensures Answers(Contents(f.run), k, s, r)
  {
    r := Search(f.run, k, s);
    SearchAnswers(f.run, k, s);
  }

  // ---------------------------------------------------------------------------- FindFile

  /** Binary search for the first file whose largest key is at or after `key`. */
  method FindFile(files: seq<File>, key: InternalKey) returns (index: nat)
    requires AllWellFormed(files) && Disjoint(files)
    ensures index <= |files|
    ensures forall i :: 0 <= i < index ==> Less(files[i].largest, key)
    ensures forall i :: index <= i < |files| ==> AtMost(key, files[i].largest)
  {
    var left, right := 0, |files|;
    while left < right
      invariant 0 <= left <= right <= |files|
      invariant forall i :: 0 <= i < left ==> Less(files[i].largest, key)
      invariant forall i :: right <= i < |files| ==> AtMost(key, files[i].largest)
    {
      var mid := (left + right) / 2;
      if Less(files[mid].largest, key) {
        forall i | 0 <= i < mid ensures Less(files[i].largest, key) {
          LargestIncreasing(files, i, mid);
        }
        left := mid + 1;
      } else {
        forall i | mid < i < |files| ensures AtMost(key, files[i].largest) {
          LargestIncreasing(files, mid, i);
        }
        right := mid;
      }
    }
    index := right;
  }

  lemma LargestIncreasing(files: seq<File>, i: nat, j: nat)
    requires AllWellFormed(files) && Disjoint(files) && i < j < |files|
    ensures Less(files[i].largest, files[j].largest)
    ensures Less(files[i].smallest, files[j].smallest)
  {
    var f, g := files[i], files[j];
    EntryInBounds(f, f.run[0]);
    EntryInBounds(g, g.run[0]);
  }

  /** In a sorted level, the one file found by `FindFile` holds the answer for the whole level. */
  lemma OneFileAnswersLevel(files: seq<File>, k: UserKey, s: nat, index: nat)
    requires AllWellFormed(files) && Disjoint(files) && index <= |files|
    requires forall i :: 0 <= i < index ==> Less(files[i].largest, LookupKey(k, s))
    requires index < |files| ==> AtMost(LookupKey(k, s), files[index].largest)
    ensures Answers(LevelEntries(files), k, s,
                    if index < |files| && files[index].smallest.key <= k
                    then Search(files[index].run, k, s) else None)
  {
    var target := LookupKey(k, s);
    forall i, e | 0 <= i < |files| && e in files[i].run && Candidate(k, s, e)
      ensures index <= i
      ensures index < i ==> files[index].largest.key == k && e.ik.seqno <= files[index].largest.seqno <= s
    {
      VisibleIffAtOrAfterLookupKey(e.ik, s);
      EntryInBounds(files[i], e);
      if index < i {
        assert Less(files[index].largest, files[i].smallest);
        VisibleIffAtOrAfterLookupKey(files[index].largest, s);
      }
    }
    if index < |files| {
      var f := files[index];
      SearchAnswers(f.run, k, s);
      var last := f.run[|f.run| - 1];
      assert last in Contents(f.run);
      EntryInBounds(f, last);
      assert f.largest.key == k && f.largest.seqno <= s ==> Candidate(k, s, last);
      forall e | e in f.run && Candidate(k, s, e) ensures f.smallest.key <= k {
        EntryInBounds(f, e);
      }
      forall e | e in LevelEntries(files) && Candidate(k, s, e)
        ensures f.smallest.key <= k && Search(f.run, k, s).Some?
        ensures e.ik.seqno <= Search(f.run, k, s).value.ik.seqno
      {
        var i :| 0 <= i < |files| && e in files[i].run;
        assert i == index ==> e in Contents(f.run);
      }
      if f.smallest.key <= k && Search(f.run, k, s).Some? {
        assert Search(f.run, k, s).value in f.run;
      }
    }
  }

  // ------------------------------------------------------------------------- Version::Get

  function InsertNewestFirst(f: File, files: seq<File>): (r: seq<File>)
    requires forall i, j :: 0 <= i < j < |files| ==> files[i].number >= files[j].number
    ensures forall i, j :: 0 <= i < j < |r| ==> r[i].number >= r[j].number
    ensures forall g :: g in r <==> g == f || g in files
  {
    if files == [] || files[0].number <= f.number then [f] + files
    else
      var rest := InsertNewestFirst(f, files[1..]);
      assert forall g :: g in files[1..] ==> g.number <= files[0].number;
      assert forall i :: 0 <= i < |rest| ==> rest[i] in rest;
      [files[0]] + rest
  }

  /** The library sort by `NewestFirst`: decreasing file number. */
  function NewestFirst(files: seq<File>): (r: seq<File>)
    ensures forall i, j :: 0 <= i < j < |r| ==> r[i].number >= r[j].number
    ensures forall f :: f in r <==> f in files
  {
    if files == [] then [] else InsertNewestFirst(files[0], NewestFirst(files[1..]))
  }

  /** The files whose range holds `k`, newest first. */
  method FilesHolding(files: seq<File>, k: UserKey) returns (tmp: seq<File>)
    ensures forall f :: f in tmp <==> f in files && f.smallest.key <= k <= f.largest.key
    ensures forall i, j :: 0 <= i < j < |tmp| ==> tmp[i].number >= tmp[j].number
  {
    tmp := [];
    for i := 0 to |files|
      invariant forall f :: f in tmp <==> f in files[..i] && f.smallest.key <= k <= f.largest.key
    {
      if files[i].smallest.key <= k <= files[i].largest.key {
        tmp := tmp + [files[i]];
      }
    }
    tmp := NewestFirst(tmp);
  }

  /** Search level 0: every file whose range holds the user key, newest first, stopping at the
      first hit. */
  method GetLevel0(files: seq<File>, k: UserKey, s: nat) returns (r: Option<Entry>)
    requires AllWellFormed(files) && NumberOrdered(files)
    requires forall f, g :: f in files && g in files && f.number == g.number ==> f == g
    ensures Answers(LevelEntries(files), k, s, r)
  {
    var tmp := FilesHolding(files, k);
    for i := 0 to |tmp|
      invariant forall j :: 0 <= j < i ==> Answers(Contents(tmp[j].run), k, s, None)
    {
      assert tmp[i] in tmp;
      r := TableGet(tmp[i], k, s);
      if r.Some? {
        HitAnswersLevel0(files, tmp, i, k, s, r.value);
        return;
      }
    }
    r := None;
    MissAnswersLevel0(files, tmp, k, s);
  }

  lemma MissAnswersLevel0(files: seq<File>, tmp: seq<File>, k: UserKey, s: nat)
    requires AllWellFormed(files)
    requires forall f :: f in tmp <==> f in files && f.smallest.key <= k <= f.largest.key
    requires forall j :: 0 <= j < |tmp| ==> Answers(Contents(tmp[j].run), k, s, None)
    ensures Answers(LevelEntries(files), k, s, None)
  {
    forall f, e | f in files && e in f.run ensures !Candidate(k, s, e) {
      EntryInBounds(f, e);
      assert e in Contents(f.run);
    }
  }

  lemma HitAnswersLevel0(files: seq<File>, tmp: seq<File>, i: nat, k: UserKey, s: nat, hit: Entry)
    requires AllWellFormed(files) && NumberOrdered(files)
    requires forall f, g :: f in files && g in files && f.number == g.number ==> f == g
    requires forall f :: f in tmp <==> f in files && f.smallest.key <= k <= f.largest.key
    requires forall a, b :: 0 <= a < b < |tmp| ==> tmp[a].number >= tmp[b].number
    requires i < |tmp| && IsVisible(Contents(tmp[i].run), k, s, hit)
    requires forall j :: 0 <= j < i ==> Answers(Contents(tmp[j].run), k, s, None)
    ensures IsVisible(LevelEntries(files), k, s, hit)
  {
    assert tmp[i] in files && hit in tmp[i].run;
    forall f, e | f in files && e in f.run && Candidate(k, s, e)
      ensures e.ik.seqno <= hit.ik.seqno
    {
      EntryInBounds(f, e);
      assert e in Contents(f.run);
      var j :| 0 <= j < |tmp| && tmp[j] == f;
      assert j >= i;
      if f.number != tmp[i].number {
        assert Newer(Contents(tmp[i].run), Contents(f.run));
      }
    }
  }

  /** Level by level, one binary-searched file per sorted level, stopping at the first hit: the
      result is the newest visible entry over all the data in the version. */
  method Get(levels: seq<seq<File>>, k: UserKey, s: nat) returns (r: Option<Entry>)
    requires Inv(levels)
    ensures Answers(AllEntries(levels), k, s, r)
  {
    for level := 0 to NUM_LEVELS
      invariant forall l, e :: 0 <= l < level && e in LevelEntries(levels[l]) ==> !Candidate(k, s, e)
    {
      if level == 0 {
        r := GetLevel0(levels[0], k, s);
      } else {
        var index := FindFile(levels[level], LookupKey(k, s));
        OneFileAnswersLevel(levels[level], k, s, index);
        if index < |levels[level]| && levels[level][index].smallest.key <= k {
          r := Search(levels[level][index].run, k, s);
        } else {
          r := None;
        }
      }
      if r.Some? {
        forall l, e | 0 <= l < NUM_LEVELS && e in LevelEntries(levels[l]) && Candidate(k, s, e)
          ensures e.ik.seqno <= r.value.ik.seqno
        {
          if level < l {
            assert Newer(LevelEntries(levels[level]), LevelEntries(levels[l]));
          }
        }
        return;
      }
    }
    r := None;
  }
}
