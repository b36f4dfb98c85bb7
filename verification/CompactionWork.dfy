/** The compaction loop: which entries survive, and why no read at a live snapshot can tell.

    `Hidden` and `Obsolete` state the two drop rules declaratively; `DoCompactionWork` computes them
    with one pass and moving cursors. */
module CompactionWork {
  import opened DbFormat
  import opened Reads
  import opened Version

  // ---------------------------------------------------------------------- the drop rules

  /** Some newer input entry of the same user key is already visible at the oldest snapshot. */
  ghost predicate Hidden(input: set<Entry>, smallestSnapshot: nat, e: Entry) {
    exists e' :: e' in input && e'.ik.key == e.ik.key && e.ik.seqno < e'.ik.seqno <= smallestSnapshot
  }

  /** No file below the output level covers the user key. */
  ghost predicate BaseLevel(levels: seq<seq<File>>, level: nat, k: UserKey) {
    forall l, f :: level + 2 <= l < |levels| && f in levels[l] ==> !(f.smallest.key <= k <= f.largest.key)
  }

  /** A deletion marker that every live snapshot sees and that has nothing left to hide below. */
  ghost predicate Obsolete(levels: seq<seq<File>>, level: nat, smallestSnapshot: nat, e: Entry) {
    e.ik.kind.Deletion? && e.ik.seqno <= smallestSnapshot && BaseLevel(levels, level, e.ik.key)
  }

  ghost predicate Dropped(levels: seq<seq<File>>, level: nat, input: set<Entry>, smallestSnapshot: nat, e: Entry) {
    Hidden(input, smallestSnapshot, e) || Obsolete(levels, level, smallestSnapshot, e)
  }

  /** Of the entries of a user key that every live snapshot can see past, at most one survives. */
  lemma OneOldVersionLeft(levels: seq<seq<File>>, level: nat, input: set<Entry>, smallestSnapshot: nat, e: Entry, e': Entry)
    requires Distinct(input) && e in input && e' in input && e.ik.key == e'.ik.key
    requires e.ik.seqno <= smallestSnapshot && e'.ik.seqno <= smallestSnapshot
    requires !Dropped(levels, level, input, smallestSnapshot, e) && !Dropped(levels, level, input, smallestSnapshot, e')
    ensures e == e'
  {
    assert e.ik.seqno < e'.ik.seqno ==> Hidden(input, smallestSnapshot, e);
    assert e'.ik.seqno < e.ik.seqno ==> Hidden(input, smallestSnapshot, e');
  }

  /** The entries of a run prefix that survive, in order. */
  ghost function Kept(levels: seq<seq<File>>, level: nat, input: set<Entry>, smallestSnapshot: nat, run: seq<Entry>): (r: seq<Entry>)
    ensures forall e :: e in r <==> e in run && !Dropped(levels, level, input, smallestSnapshot, e)
  {
    if run == [] then []
    else
      var init, e := run[..|run| - 1], run[|run| - 1];
      var rest := Kept(levels, level, input, smallestSnapshot, init);
      assert run == init + [e];
      if Dropped(levels, level, input, smallestSnapshot, e) then rest else rest + [e]
  }

  lemma {:induction false} KeptSorted(levels: seq<seq<File>>, level: nat, input: set<Entry>, smallestSnapshot: nat, run: seq<Entry>)
    requires Sorted(run)
    ensures Sorted(Kept(levels, level, input, smallestSnapshot, run))
  {
    if run != [] {
      var init, e := run[..|run| - 1], run[|run| - 1];
      KeptSorted(levels, level, input, smallestSnapshot, init);
      var rest := Kept(levels, level, input, smallestSnapshot, init);
      forall i | 0 <= i < |rest| ensures Less(rest[i].ik, e.ik) {
        assert rest[i] in init;
      }
    }
  }

  // ------------------------------------------------------------------- IsBaseLevelForKey

  /** The per-level cursors a compaction keeps while it walks user keys in order. */
  class BaseLevelCursor {
    const levels: seq<seq<File>>
    const level: nat
    const levelPtrs: array<nat>
    ghost var asked: Option<UserKey>

    ghost predicate Valid()
      reads this, levelPtrs
    {
      && |levels| == NUM_LEVELS && levelPtrs.Length == NUM_LEVELS
      && (forall l :: 1 <= l < NUM_LEVELS ==> AllWellFormed(levels[l]) && Disjoint(levels[l]))
      && (forall l :: 0 <= l < NUM_LEVELS ==> levelPtrs[l] <= |levels[l]|)
      && (forall l, i :: level + 2 <= l < NUM_LEVELS && 0 <= i < levelPtrs[l]
            ==> asked.Some? && levels[l][i].largest.key < asked.value)
    }

    constructor (levels: seq<seq<File>>, level: nat)
      requires |levels| == NUM_LEVELS
      requires forall l :: 1 <= l < NUM_LEVELS ==> AllWellFormed(levels[l]) && Disjoint(levels[l])
      ensures Valid() && fresh(levelPtrs) && this.levels == levels && this.level == level && asked == None
    {
      this.levels, this.level := levels, level;
      levelPtrs := new nat[NUM_LEVELS](_ => 0);
      asked := None;
    }

    /** For keys asked in nondecreasing order, the cursors answer exactly as a scan of every deeper
        file would. */
    method IsBaseLevelForKey(k: UserKey) returns (r: bool)
      requires Valid() && (asked.Some? ==> asked.value <= k)
      modifies this, levelPtrs
      ensures Valid() && asked == Some(k)
      ensures r <==> BaseLevel(levels, level, k)
    {
      asked := Some(k);
      for l := level + 2 to if level + 2 <= NUM_LEVELS then NUM_LEVELS else level + 2
        invariant Valid() && asked == Some(k)
        invariant forall m, f :: level + 2 <= m < l && m < NUM_LEVELS && f in levels[m] ==> !(f.smallest.key <= k <= f.largest.key)
      {
        while levelPtrs[l] < |levels[l]|
          invariant Valid() && asked == Some(k)
          decreases |levels[l]| - levelPtrs[l]
        {
          var f := levels[l][levelPtrs[l]];
          if k <= f.largest.key {
            if k >= f.smallest.key {
              return false;
            }
            forall i | levelPtrs[l] < i < |levels[l]| ensures k < levels[l][i].smallest.key {
              LargestIncreasing(levels[l], levelPtrs[l], i);
            }
            break;
          }
          levelPtrs[l] := levelPtrs[l] + 1;
        }
      }
      r := true;
    }
  }

  // -------------------------------------------------------------------- DoCompactionWork

  ghost function Flatten(outputs: seq<seq<Entry>>): seq<Entry> {
    if outputs == [] then [] else Flatten(outputs[..|outputs| - 1]) + outputs[|outputs| - 1]
  }

  ghost predicate NonEmpty(outputs: seq<seq<Entry>>) {
    forall i :: 0 <= i < |outputs| ==> outputs[i] != []
  }

  /** Everything written so far: the finished outputs and the one being built. */
  ghost function Written(outputs: seq<seq<Entry>>, builder: seq<Entry>): seq<Entry> {
    Flatten(outputs) + builder
  }

  /** The choices a compaction makes by size and by overlap with the grandparents: where to close an output
      before or after an entry, and how large a file is. */
  datatype Plan = Plan(stopBefore: Entry -> bool, stopAfter: Entry -> bool, size: seq<Entry> -> nat)

  /** Finished outputs and the one being built. */
  datatype Building = Building(outputs: seq<seq<Entry>>, builder: seq<Entry>) {
    function Closed(): Building {
      if builder == [] then this else Building(outputs + [builder], [])
    }

    function With(e: Entry): Building {
      Building(outputs, builder + [e])
    }
  }

  /** What one entry does to the outputs. */
  function Placed(b: Building, e: Entry, drop: bool, plan: Plan): (r: Building) {
    var b1 := if plan.stopBefore(e) then b.Closed() else b;
    if drop then b1 else if plan.stopAfter(e) then b1.With(e).Closed() else b1.With(e)
  }

  /** The outputs after a prefix of the input. */
  ghost function Cutting(levels: seq<seq<File>>, level: nat, all: set<Entry>, smallestSnapshot: nat, plan: Plan, run: seq<Entry>): Building {
    if run == [] then Building([], [])
    else
      var e := run[|run| - 1];
      Placed(Cutting(levels, level, all, smallestSnapshot, plan, run[..|run| - 1]), e, Dropped(levels, level, all, smallestSnapshot, e), plan)
  }

  lemma CuttingNext(levels: seq<seq<File>>, level: nat, all: set<Entry>, smallestSnapshot: nat, plan: Plan, input: seq<Entry>, i: nat)
    requires i < |input|
    ensures Cutting(levels, level, all, smallestSnapshot, plan, input[..i + 1])
         == Placed(Cutting(levels, level, all, smallestSnapshot, plan, input[..i]), input[i],
                   Dropped(levels, level, all, smallestSnapshot, input[i]), plan)
  {
    assert input[..i + 1][..i] == input[..i] && input[..i + 1][i] == input[i];
  }

  lemma ClosedWrites(b: Building)
    requires NonEmpty(b.outputs)
    ensures NonEmpty(b.Closed().outputs) && Written(b.Closed().outputs, b.Closed().builder) == Written(b.outputs, b.builder)
  {
    if b.builder != [] {
      assert (b.outputs + [b.builder])[..|b.outputs|] == b.outputs;
    }
  }

  /** Wherever the outputs are cut, what is written grows by the entry unless it is dropped. */
  lemma PlacedWrites(b: Building, e: Entry, drop: bool, plan: Plan)
    requires NonEmpty(b.outputs)
    ensures NonEmpty(Placed(b, e, drop, plan).outputs)
    ensures Written(Placed(b, e, drop, plan).outputs, Placed(b, e, drop, plan).builder)
         == Written(b.outputs, b.builder) + if drop then [] else [e]
  {
    hide NonEmpty, Flatten;
    ClosedWrites(b);
    var b1 := if plan.stopBefore(e) then b.Closed() else b;
    assert Written(b1.outputs, b1.builder + [e]) == Written(b1.outputs, b1.builder) + [e];
    ClosedWrites(b1.With(e));
  }

  /** The loop's running variables decide rule (A). */
  lemma HiddenByPrevious(input: seq<Entry>, i: nat, smallestSnapshot: nat)
    requires Sorted(input) && Distinct(Contents(input)) && i < |input|
    ensures Hidden(Contents(input), smallestSnapshot, input[i])
       <==> i > 0 && input[i - 1].ik.key == input[i].ik.key && input[i - 1].ik.seqno <= smallestSnapshot
  {
    var e := input[i];
    if i > 0 && input[i - 1].ik.key == e.ik.key && input[i - 1].ik.seqno <= smallestSnapshot {
      assert input[i - 1] in Contents(input) && e in Contents(input);
      assert Less(input[i - 1].ik, e.ik);
    }
    if e' :| e' in Contents(input) && e'.ik.key == e.ik.key && e.ik.seqno < e'.ik.seqno <= smallestSnapshot {
      var j :| 0 <= j < |input| && input[j] == e';
      assert j < i by {
        assert i < j ==> Less(e.ik, e'.ik);
      }
      assert j < i - 1 ==> Less(e'.ik, input[i - 1].ik);
      assert Less(input[i - 1].ik, e.ik);
    }
  }

  /** Both drop rules for one entry, given the sequence number of the previous entry of its key. */
  method ShouldDrop(e: Entry, lastSequenceForKey: nat, smallestSnapshot: nat, cursor: BaseLevelCursor) returns (drop: bool)
    requires cursor.Valid() && (cursor.asked.Some? ==> cursor.asked.value <= e.ik.key)
    modifies cursor, cursor.levelPtrs
    ensures cursor.Valid() && (cursor.asked.Some? ==> cursor.asked.value <= e.ik.key)
    ensures drop <==> lastSequenceForKey <= smallestSnapshot || Obsolete(cursor.levels, cursor.level, smallestSnapshot, e)
  {
    drop := false;
    if lastSequenceForKey <= smallestSnapshot {
      drop := true;
    } else if e.ik.kind.Deletion? && e.ik.seqno <= smallestSnapshot {
      drop := cursor.IsBaseLevelForKey(e.ik.key);
    }
  }

  lemma KeptNext(levels: seq<seq<File>>, level: nat, all: set<Entry>, smallestSnapshot: nat, input: seq<Entry>, i: nat)
    requires i < |input|
    ensures Kept(levels, level, all, smallestSnapshot, input[..i + 1])
         == Kept(levels, level, all, smallestSnapshot, input[..i])
            + if Dropped(levels, level, all, smallestSnapshot, input[i]) then [] else [input[i]]
  {
    assert input[..i + 1][..i] == input[..i] && input[..i + 1][i] == input[i];
  }

  /** One pass over the merged inputs.  Output files are cut as the plan says; what is written, in order, is
      exactly the entries that neither rule drops. */
  method DoCompactionWork(input: seq<Entry>, smallestSnapshot: nat, cursor: BaseLevelCursor, plan: Plan)
    returns (outputs: seq<seq<Entry>>)
    requires Sorted(input) && Distinct(Contents(input))
    requires smallestSnapshot < MAX_SEQUENCE_NUMBER
    requires cursor.Valid() && cursor.asked == None
    modifies cursor, cursor.levelPtrs
    ensures Flatten(outputs) == Kept(cursor.levels, cursor.level, Contents(input), smallestSnapshot, input)
    ensures NonEmpty(outputs)
    ensures outputs == Cutting(cursor.levels, cursor.level, Contents(input), smallestSnapshot, plan, input).Closed().outputs
  {
    var b := Building([], []);
    var currentUserKey: Option<UserKey> := None;
    var lastSequenceForKey := MAX_SEQUENCE_NUMBER;
    ghost var levels, level, all := cursor.levels, cursor.level, Contents(input);
    for i := 0 to |input|
      invariant cursor.Valid()
      invariant cursor.asked.Some? ==> i > 0 && cursor.asked.value <= input[i - 1].ik.key
      invariant currentUserKey == if i == 0 then None else Some(input[i - 1].ik.key)
      invariant i > 0 ==> lastSequenceForKey == input[i - 1].ik.seqno
      invariant b == Cutting(levels, level, all, smallestSnapshot, plan, input[..i])
      invariant Written(b.outputs, b.builder) == Kept(levels, level, all, smallestSnapshot, input[..i])
      invariant NonEmpty(b.outputs)
    {
      var e := input[i];
      if currentUserKey != Some(e.ik.key) {
        currentUserKey := Some(e.ik.key);
        lastSequenceForKey := MAX_SEQUENCE_NUMBER;
      }
      HiddenByPrevious(input, i, smallestSnapshot);
      KeptNext(levels, level, all, smallestSnapshot, input, i);
      CuttingNext(levels, level, all, smallestSnapshot, plan, input, i);
      assert i > 0 ==> Less(input[i - 1].ik, e.ik);
      var drop := ShouldDrop(e, lastSequenceForKey, smallestSnapshot, cursor);
      lastSequenceForKey := e.ik.seqno;
      PlacedWrites(b, e, drop, plan);
      b := Placed(b, e, drop, plan);
    }
    assert input[..|input|] == input;
    ClosedWrites(b);
    outputs := b.Closed().outputs;
  }
}
