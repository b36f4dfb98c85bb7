/** The merging iterator: several sorted children seen as one sorted sequence, in both directions. */
module MergingIterator {
  import opened DbFormat

  predicate InChild(children: seq<seq<Entry>>, i: int, x: int, e: Entry) {
    0 <= i < |children| && 0 <= x < |children[i]| && children[i][x] == e
  }

  ghost predicate Covered(children: seq<seq<Entry>>, e: Entry) {
    exists i, x :: InChild(children, i, x, e)
  }

  /** `merged` is the sorted union of sorted children that share no entry. */
  ghost predicate IsMerge(children: seq<seq<Entry>>, merged: seq<Entry>) {
    && Sorted(merged)
    && (forall i :: 0 <= i < |children| ==> Sorted(children[i]))
    && (forall i, x :: 0 <= i < |children| && 0 <= x < |children[i]| ==> children[i][x] in merged)
    && (forall p :: 0 <= p < |merged| ==> Covered(children, merged[p]))
    && (forall i, j, x, y ::
          (0 <= i < |children| && 0 <= j < |children| && 0 <= x < |children[i]| && 0 <= y < |children[j]| && i != j)
          ==> children[i][x].ik != children[j][y].ik)
  }

  /** Forward state: each child stands on its first entry at or after position `p`. */
  ghost predicate ForwardAt(child: seq<Entry>, pos: nat, merged: seq<Entry>, p: int) {
    && pos <= |child|
    && (p == |merged| ==> pos == |child|)
    && (0 <= p < |merged| ==> forall x :: 0 <= x < |child| ==> (x < pos <==> Less(child[x].ik, merged[p].ik)))
  }

  /** Reverse state: each child stands on its last entry at or before position `p`, or on none. */
  ghost predicate ReverseAt(child: seq<Entry>, pos: nat, merged: seq<Entry>, p: int) {
    && pos <= |child|
    && (p == -1 ==> pos == |child|)
    && (0 <= p < |merged| ==>
          forall x :: 0 <= x < |child| ==> (AtMost(child[x].ik, merged[p].ik) <==> pos < |child| && x <= pos))
  }

  /** In a sorted sequence, before the next position means before or at this one. */
  lemma StepPosition(merged: seq<Entry>, p: int, e: Entry)
    requires Sorted(merged) && e in merged && 0 <= p < |merged|
    ensures p + 1 < |merged| ==> (Less(e.ik, merged[p + 1].ik) <==> AtMost(e.ik, merged[p].ik))
    ensures p + 1 == |merged| ==> AtMost(e.ik, merged[p].ik)
    ensures p == 0 ==> AtMost(merged[0].ik, e.ik)
    ensures AtMost(e.ik, merged[p].ik) <==> Less(e.ik, merged[p].ik) || e == merged[p]
  {
    var r :| 0 <= r < |merged| && merged[r] == e;
    assert r < p ==> Less(merged[r].ik, merged[p].ik);
    assert p < r ==> Less(merged[p].ik, merged[r].ik);
    assert p + 1 < r ==> Less(merged[p + 1].ik, merged[r].ik);
    assert r < p + 1 < |merged| ==> Less(merged[r].ik, merged[p + 1].ik);
  }

  // ------------------------------------------------------------------ moving one child

  lemma ForwardStep(child: seq<Entry>, pos: nat, merged: seq<Entry>, p: int)
    requires Sorted(child) && Sorted(merged) && (forall x :: 0 <= x < |child| ==> child[x] in merged)
    requires 0 <= p < |merged| && ForwardAt(child, pos, merged, p)
    ensures ForwardAt(child, if pos < |child| && child[pos] == merged[p] then pos + 1 else pos, merged, p + 1)
  {
    forall x | 0 <= x < |child|
      ensures p + 1 < |merged| ==> (Less(child[x].ik, merged[p + 1].ik) <==> Less(child[x].ik, merged[p].ik) || child[x] == merged[p])
      ensures p + 1 == |merged| ==> Less(child[x].ik, merged[p].ik) || child[x] == merged[p]
    {
      StepPosition(merged, p, child[x]);
    }
    if pos + 1 < |child| {
      assert Less(child[pos].ik, child[pos + 1].ik);
    }
    assert pos < |child| ==> forall x :: pos < x < |child| ==> Less(child[pos].ik, child[x].ik);
  }

  lemma ReverseStep(child: seq<Entry>, pos: nat, merged: seq<Entry>, p: int)
    requires Sorted(child) && Sorted(merged) && (forall x :: 0 <= x < |child| ==> child[x] in merged)
    requires 0 <= p < |merged| && ReverseAt(child, pos, merged, p)
    ensures ReverseAt(child, if pos < |child| && child[pos] == merged[p] then PrevIndex(child, pos) else pos, merged, p - 1)
  {
    forall x | 0 <= x < |child|
      ensures p > 0 ==> (AtMost(child[x].ik, merged[p - 1].ik) <==> AtMost(child[x].ik, merged[p].ik) && child[x] != merged[p])
      ensures p == 0 ==> (AtMost(child[x].ik, merged[p].ik) <==> child[x] == merged[p])
    {
      StepPosition(merged, p, child[x]);
      if p > 0 {
        StepPosition(merged, p - 1, child[x]);
      }
    }
    if 0 < pos < |child| {
      assert Less(child[pos - 1].ik, child[pos].ik);
    }
    assert pos < |child| ==> forall x :: 0 <= x < pos ==> Less(child[x].ik, child[pos].ik);
  }

  /** A child's step back; stepping back from its first entry makes it invalid. */
  function PrevIndex(child: seq<Entry>, pos: nat): (r: nat)
    requires pos < |child|
  {
    if pos == 0 then |child| else pos - 1
  }

  function LastIndex(child: seq<Entry>): (r: nat)
    ensures r <= |child|
  {
    if child == [] then 0 else |child| - 1
  }

  /** A child of the reverse state repositioned for going forward. */
  function SeekAfter(child: seq<Entry>, key: InternalKey): (pos: nat)
    ensures pos <= |child|
  {
    var i := SeekIndex(child, key);
    if i < |child| && child[i].ik == key then i + 1 else i
  }

  /** A child of the forward state repositioned for going back. */
  function SeekBefore(child: seq<Entry>, key: InternalKey): (pos: nat)
    ensures pos <= |child|
  {
    var i := SeekIndex(child, key);
    if i < |child| then PrevIndex(child, i) else LastIndex(child)
  }

  lemma SeekSplits(run: seq<Entry>, key: InternalKey)
    requires Sorted(run)
    ensures forall x :: 0 <= x < |run| ==> (x < SeekIndex(run, key) <==> Less(run[x].ik, key))
  {
    var i := SeekIndex(run, key);
    assert forall x :: i < x < |run| ==> Less(run[i].ik, run[x].ik);
  }

  lemma TurnForward(child: seq<Entry>, merged: seq<Entry>, p: int)
    requires Sorted(child) && 0 <= p < |merged| && forall x :: 0 <= x < |child| ==> child[x].ik != merged[p].ik
    ensures ForwardAt(child, SeekAfter(child, merged[p].ik), merged, p)
  {
    SeekSplits(child, merged[p].ik);
  }

  lemma TurnBack(child: seq<Entry>, merged: seq<Entry>, p: int)
    requires Sorted(child) && 0 <= p < |merged| && forall x :: 0 <= x < |child| ==> child[x].ik != merged[p].ik
    ensures ReverseAt(child, SeekBefore(child, merged[p].ik), merged, p)
  {
    SeekSplits(child, merged[p].ik);
    forall x | 0 <= x < |child| ensures AtMost(child[x].ik, merged[p].ik) <==> Less(child[x].ik, merged[p].ik) {
      LessIsTotalOrder(child[x].ik, merged[p].ik, child[x].ik);
    }
  }

  // ------------------------------------------------------------ choosing the current child

  ghost predicate AllForward(children: seq<seq<Entry>>, pos: seq<nat>, merged: seq<Entry>, p: int) {
    |pos| == |children| && 0 <= p <= |merged| && forall i :: 0 <= i < |children| ==> ForwardAt(children[i], pos[i], merged, p)
  }

  ghost predicate AllReverse(children: seq<seq<Entry>>, pos: seq<nat>, merged: seq<Entry>, p: int) {
    |pos| == |children| && -1 <= p < |merged| && forall i :: 0 <= i < |children| ==> ReverseAt(children[i], pos[i], merged, p)
  }

  /** Child `i` stands on the merged entry at position `p`. */
  ghost predicate Here(children: seq<seq<Entry>>, pos: seq<nat>, merged: seq<Entry>, p: int, i: int)
    requires |pos| == |children|
  {
    0 <= i < |children| && pos[i] < |children[i]| && 0 <= p < |merged| && children[i][pos[i]] == merged[p]
  }

  predicate Positioned(children: seq<seq<Entry>>, pos: seq<nat>) {
    |pos| == |children| && forall i :: 0 <= i < |children| ==> pos[i] <= |children[i]|
  }

  method FindSmallest(children: seq<seq<Entry>>, pos: seq<nat>) returns (smallest: int)
    requires Positioned(children, pos)
    ensures smallest == -1 ==> forall j :: 0 <= j < |children| ==> pos[j] == |children[j]|
    ensures smallest != -1 ==> 0 <= smallest < |children| && pos[smallest] < |children[smallest]|
    ensures smallest != -1 ==> forall j :: 0 <= j < |children| && pos[j] < |children[j]| ==>
              AtMost(children[smallest][pos[smallest]].ik, children[j][pos[j]].ik)
  {
    smallest := -1;
    for i := 0 to |children|
      invariant smallest == -1 ==> forall j :: 0 <= j < i ==> pos[j] == |children[j]|
      invariant smallest != -1 ==> 0 <= smallest < i && pos[smallest] < |children[smallest]|
      invariant smallest != -1 ==> forall j :: 0 <= j < i && pos[j] < |children[j]| ==>
                  AtMost(children[smallest][pos[smallest]].ik, children[j][pos[j]].ik)
    {
      if pos[i] < |children[i]| {
        if smallest == -1 {
          smallest := i;
        } else if Less(children[i][pos[i]].ik, children[smallest][pos[smallest]].ik) {
          smallest := i;
        }
      }
    }
  }

  method FindLargest(children: seq<seq<Entry>>, pos: seq<nat>) returns (largest: int)
    requires Positioned(children, pos)
    ensures largest == -1 ==> forall j :: 0 <= j < |children| ==> pos[j] == |children[j]|
    ensures largest != -1 ==> 0 <= largest < |children| && pos[largest] < |children[largest]|
    ensures largest != -1 ==> forall j :: 0 <= j < |children| && pos[j] < |children[j]| ==>
              AtMost(children[j][pos[j]].ik, children[largest][pos[largest]].ik)
  {
    largest := -1;
    var i := |children| - 1;
    while i >= 0
      invariant -1 <= i < |children|
      invariant largest == -1 ==> forall j :: i < j < |children| ==> pos[j] == |children[j]|
      invariant largest != -1 ==> i < largest < |children| && pos[largest] < |children[largest]|
      invariant largest != -1 ==> forall j :: i < j < |children| && pos[j] < |children[j]| ==>
                  AtMost(children[j][pos[j]].ik, children[largest][pos[largest]].ik)
    {
      if pos[i] < |children[i]| {
        if largest == -1 {
          largest := i;
        } else if Less(children[largest][pos[largest]].ik, children[i][pos[i]].ik) {
          largest := i;
        }
      }
      i := i - 1;
    }
  }

  /** Some child stands on the entry at the position. */
  lemma SomeChildHereForward(children: seq<seq<Entry>>, pos: seq<nat>, merged: seq<Entry>, p: int) returns (i: int)
    requires IsMerge(children, merged) && 0 <= p < |merged| && AllForward(children, pos, merged, p)
    ensures Here(children, pos, merged, p, i)
  {
    var x;
    i, x :| InChild(children, i, x, merged[p]);
    assert ForwardAt(children[i], pos[i], merged, p);
  }

  lemma SomeChildHereReverse(children: seq<seq<Entry>>, pos: seq<nat>, merged: seq<Entry>, p: int) returns (i: int)
    requires IsMerge(children, merged) && 0 <= p < |merged| && AllReverse(children, pos, merged, p)
    ensures Here(children, pos, merged, p, i)
  {
    var x;
    i, x :| InChild(children, i, x, merged[p]);
    assert ReverseAt(children[i], pos[i], merged, p);
  }

  lemma SmallestIsHere(children: seq<seq<Entry>>, pos: seq<nat>, merged: seq<Entry>, p: int, c: int)
    requires IsMerge(children, merged) && AllForward(children, pos, merged, p) && p < |merged|
    requires 0 <= c < |children| && pos[c] < |children[c]|
    requires forall j :: 0 <= j < |children| && pos[j] < |children[j]| ==> AtMost(children[c][pos[c]].ik, children[j][pos[j]].ik)
    ensures Here(children, pos, merged, p, c)
  {
    var i := SomeChildHereForward(children, pos, merged, p);
    var e := children[c][pos[c]];
    assert ForwardAt(children[c], pos[c], merged, p) && e in merged;
    StepPosition(merged, p, e);
  }

  lemma LargestIsHere(children: seq<seq<Entry>>, pos: seq<nat>, merged: seq<Entry>, p: int, c: int)
    requires IsMerge(children, merged) && AllReverse(children, pos, merged, p) && p >= 0
    requires 0 <= c < |children| && pos[c] < |children[c]|
    requires forall j :: 0 <= j < |children| && pos[j] < |children[j]| ==> AtMost(children[j][pos[j]].ik, children[c][pos[c]].ik)
    ensures Here(children, pos, merged, p, c)
  {
    var i := SomeChildHereReverse(children, pos, merged, p);
    var e := children[c][pos[c]];
    assert ReverseAt(children[c], pos[c], merged, p) && e in merged;
    StepPosition(merged, p, e);
  }

  // ------------------------------------------------------------- moving all the children

  lemma FirstIsForward(children: seq<seq<Entry>>, pos: seq<nat>, merged: seq<Entry>)
    requires IsMerge(children, merged) && |pos| == |children| && forall i :: 0 <= i < |pos| ==> pos[i] == 0
    ensures AllForward(children, pos, merged, 0)
  {
    forall i | 0 <= i < |children| ensures ForwardAt(children[i], pos[i], merged, 0) {
      forall x | 0 <= x < |children[i]| ensures |merged| > 0 && !Less(children[i][x].ik, merged[0].ik) {
        assert children[i][x] in merged;
        StepPosition(merged, 0, children[i][x]);
      }
      assert |children[i]| > 0 ==> children[i][0] in merged;
    }
  }

  lemma LastIsReverse(children: seq<seq<Entry>>, pos: seq<nat>, merged: seq<Entry>)
    requires IsMerge(children, merged) && |pos| == |children| && forall i :: 0 <= i < |pos| ==> pos[i] == LastIndex(children[i])
    ensures AllReverse(children, pos, merged, |merged| - 1)
  {
    forall i | 0 <= i < |children| ensures ReverseAt(children[i], pos[i], merged, |merged| - 1) {
      forall x | 0 <= x < |children[i]| ensures |merged| > 0 && AtMost(children[i][x].ik, merged[|merged| - 1].ik) {
        assert children[i][x] in merged;
        StepPosition(merged, |merged| - 1, children[i][x]);
      }
      assert |children[i]| > 0 ==> children[i][0] in merged;
    }
  }

  lemma SeekIsForward(children: seq<seq<Entry>>, pos: seq<nat>, merged: seq<Entry>, target: InternalKey)
    requires IsMerge(children, merged) && |pos| == |children|
    requires forall i :: 0 <= i < |pos| ==> pos[i] == SeekIndex(children[i], target)
    ensures AllForward(children, pos, merged, SeekIndex(merged, target))
  {
    forall i | 0 <= i < |children| ensures ForwardAt(children[i], pos[i], merged, SeekIndex(merged, target)) {
      assert Sorted(children[i]) && forall x :: 0 <= x < |children[i]| ==> children[i][x] in merged;
      hide IsMerge;
      SeekChildForward(children[i], merged, target);
    }
  }

  lemma SeekChildForward(child: seq<Entry>, merged: seq<Entry>, target: InternalKey)
    requires Sorted(child) && Sorted(merged) && forall x :: 0 <= x < |child| ==> child[x] in merged
    ensures ForwardAt(child, SeekIndex(child, target), merged, SeekIndex(merged, target))
  {
    var p := SeekIndex(merged, target);
    SeekSplits(merged, target);
    SeekSplits(child, target);
    forall x | 0 <= x < |child|
      ensures Less(child[x].ik, target) <==> (p < |merged| ==> Less(child[x].ik, merged[p].ik))
    {
      var r :| 0 <= r < |merged| && merged[r] == child[x];
      assert p < |merged| && p < r ==> Less(merged[p].ik, merged[r].ik);
      assert r < p < |merged| ==> Less(merged[r].ik, merged[p].ik);
    }
  }

  lemma OtherChildrenElsewhere(children: seq<seq<Entry>>, pos: seq<nat>, merged: seq<Entry>, p: int, c: int, i: int)
    requires IsMerge(children, merged) && |pos| == |children| && Here(children, pos, merged, p, c)
    requires 0 <= i < |children| && i != c
    ensures forall x :: 0 <= x < |children[i]| ==> children[i][x].ik != merged[p].ik
  {
    forall x | 0 <= x < |children[i]| ensures children[i][x].ik != merged[p].ik {
      assert children[i][x].ik != children[c][pos[c]].ik;
    }
  }

  /** The current child needs no repositioning when the direction changes. */
  lemma CurrentTurns(child: seq<Entry>, pos: nat, merged: seq<Entry>, p: int)
    requires Sorted(child) && pos < |child| && 0 <= p < |merged| && child[pos] == merged[p]
    ensures ForwardAt(child, pos, merged, p) && ReverseAt(child, pos, merged, p)
  {
    assert forall x :: 0 <= x < pos ==> Less(child[x].ik, child[pos].ik);
    assert forall x :: pos < x < |child| ==> Less(child[pos].ik, child[x].ik);
  }

  /** Reposition every other child after the current key. */
  method TurnAllForward(children: seq<seq<Entry>>, pos: seq<nat>, ghost merged: seq<Entry>, ghost p: int, c: int)
    returns (pos': seq<nat>)
    requires IsMerge(children, merged) && 0 <= p < |merged| && |pos| == |children| && Here(children, pos, merged, p, c)
    ensures AllForward(children, pos', merged, p) && pos'[c] == pos[c]
  {
    var key := children[c][pos[c]].ik;
    pos' := pos;
    for i := 0 to |children|
      invariant |pos'| == |children| && pos'[c] == pos[c]
      invariant forall j :: 0 <= j < i ==> ForwardAt(children[j], pos'[j], merged, p)
    {
      if i != c {
        OtherChildrenElsewhere(children, pos, merged, p, c, i);
        TurnForward(children[i], merged, p);
        pos' := pos'[i := SeekAfter(children[i], key)];
      } else {
        CurrentTurns(children[c], pos[c], merged, p);
      }
    }
  }

  /** Reposition every other child before the current key. */
  method TurnAllBack(children: seq<seq<Entry>>, pos: seq<nat>, ghost merged: seq<Entry>, ghost p: int, c: int)
    returns (pos': seq<nat>)
    requires IsMerge(children, merged) && 0 <= p < |merged| && |pos| == |children| && Here(children, pos, merged, p, c)
    ensures AllReverse(children, pos', merged, p) && pos'[c] == pos[c]
  {
    var key := children[c][pos[c]].ik;
    pos' := pos;
    for i := 0 to |children|
      invariant |pos'| == |children| && pos'[c] == pos[c]
      invariant forall j :: 0 <= j < i ==> ReverseAt(children[j], pos'[j], merged, p)
    {
      if i != c {
        OtherChildrenElsewhere(children, pos, merged, p, c, i);
        TurnBack(children[i], merged, p);
        pos' := pos'[i := SeekBefore(children[i], key)];
      } else {
        CurrentTurns(children[c], pos[c], merged, p);
      }
    }
  }

  lemma StepAllForward(children: seq<seq<Entry>>, pos: seq<nat>, merged: seq<Entry>, p: int, c: int)
    requires IsMerge(children, merged) && AllForward(children, pos, merged, p) && Here(children, pos, merged, p, c)
    ensures AllForward(children, pos[c := pos[c] + 1], merged, p + 1)
  {
    forall i | 0 <= i < |children| ensures ForwardAt(children[i], pos[c := pos[c] + 1][i], merged, p + 1) {
      assert ForwardAt(children[i], pos[i], merged, p);
      ForwardStep(children[i], pos[i], merged, p);
      if i != c {
        OtherChildrenElsewhere(children, pos, merged, p, c, i);
      }
    }
  }

  lemma StepAllReverse(children: seq<seq<Entry>>, pos: seq<nat>, merged: seq<Entry>, p: int, c: int)
    requires IsMerge(children, merged) && AllReverse(children, pos, merged, p) && Here(children, pos, merged, p, c)
    ensures AllReverse(children, pos[c := PrevIndex(children[c], pos[c])], merged, p - 1)
  {
    forall i | 0 <= i < |children|
      ensures ReverseAt(children[i], pos[c := PrevIndex(children[c], pos[c])][i], merged, p - 1)
    {
      assert ReverseAt(children[i], pos[i], merged, p);
      ReverseStep(children[i], pos[i], merged, p);
      if i != c {
        OtherChildrenElsewhere(children, pos, merged, p, c, i);
      }
    }
  }

  // --------------------------------------------------------------------- the iterator

  /** The position is `at` in the merged sequence; outside it the iterator is not valid. */
  class Iterator {
    const children: seq<seq<Entry>>
    var pos: seq<nat>
    var current: int
    var forward: bool
    ghost const merged: seq<Entry>
    ghost var at: int

    ghost predicate Invariant()
      reads this
    {
      && IsMerge(children, merged)
      && (if forward then AllForward(children, pos, merged, at) else AllReverse(children, pos, merged, at))
      && (if 0 <= at < |merged| then Here(children, pos, merged, at, current) else current == -1)
    }

    constructor (children: seq<seq<Entry>>, ghost merged: seq<Entry>)
      requires IsMerge(children, merged)
      ensures Invariant() && this.children == children && this.merged == merged && at == |merged|
    {
      this.children := children;
      this.merged := merged;
      pos := seq(|children|, i requires 0 <= i < |children| => |children[i]|);
      current := -1;
      forward := true;
      at := |merged|;
    }

    predicate Valid()
      reads this
    {
      current != -1
    }

    /** The current entry is the merged entry at the position. */
    function Current(): (e: Entry)
      requires Invariant() && Valid()
      reads this
      ensures 0 <= at < |merged| && e == merged[at]
    {
      children[current][pos[current]]
    }

    method SettleForward()
      requires IsMerge(children, merged) && forward && AllForward(children, pos, merged, at)
      modifies this`current
      ensures Invariant()
    {
      current := FindSmallest(children, pos);
      if at < |merged| {
        var i := SomeChildHereForward(children, pos, merged, at);
        SmallestIsHere(children, pos, merged, at, current);
      }
    }

    method SettleReverse()
      requires IsMerge(children, merged) && !forward && AllReverse(children, pos, merged, at)
      modifies this`current
      ensures Invariant()
    {
      current := FindLargest(children, pos);
      if at >= 0 {
        var i := SomeChildHereReverse(children, pos, merged, at);
        LargestIsHere(children, pos, merged, at, current);
      }
    }

    method SeekToFirst()
      requires Invariant()
      modifies this
      ensures Invariant() && at == 0
    {
      pos := seq(|children|, i requires 0 <= i < |children| => 0);
      forward, at := true, 0;
      FirstIsForward(children, pos, merged);
      SettleForward();
    }

    method SeekToLast()
      requires Invariant()
      modifies this
      ensures Invariant() && at == |merged| - 1
    {
      pos := seq(|children|, i requires 0 <= i < |children| => LastIndex(children[i]));
      forward, at := false, |merged| - 1;
      LastIsReverse(children, pos, merged);
      SettleReverse();
    }

    method Seek(target: InternalKey)
      requires Invariant()
      modifies this
      ensures Invariant() && at == SeekIndex(merged, target)
    {
      pos := seq(|children|, i requires 0 <= i < |children| => SeekIndex(children[i], target));
      forward, at := true, SeekIndex(merged, target);
      SeekIsForward(children, pos, merged, target);
      SettleForward();
    }

    /** One entry forward, whatever direction the last move had. */
    method Next()
      requires Invariant() && Valid()
      modifies this
      ensures Invariant() && at == old(at) + 1
    {
      hide IsMerge, ForwardAt, ReverseAt;
      if !forward {
        pos := TurnAllForward(children, pos, merged, at, current);
        forward := true;
      }
      StepAllForward(children, pos, merged, at, current);
      pos := pos[current := pos[current] + 1];
      at := at + 1;
      SettleForward();
    }

    /** One entry back, whatever direction the last move had. */
    method Prev()
      requires Invariant() && Valid()
      modifies this
      ensures Invariant() && at == old(at) - 1
    {
      hide IsMerge, ForwardAt, ReverseAt;
      if forward {
        pos := TurnAllBack(children, pos, merged, at, current);
        forward := false;
      }
      StepAllReverse(children, pos, merged, at, current);
      pos := pos[current := PrevIndex(children[current], pos[current])];
      at := at - 1;
      SettleReverse();
    }
  }
}
