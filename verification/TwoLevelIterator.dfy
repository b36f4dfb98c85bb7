/** An iterator over blocks named by an index: a cursor over their concatenation, empty blocks included. */
module TwoLevelIterator {
  import opened DbFormat

  ghost function Flat(blocks: seq<seq<Entry>>): seq<Entry> {
    if blocks == [] then [] else Flat(blocks[..|blocks| - 1]) + blocks[|blocks| - 1]
  }

  /** Where block `i` starts in the concatenation. */
  ghost function Start(blocks: seq<seq<Entry>>, i: nat): nat
    requires i <= |blocks|
  {
    |Flat(blocks[..i])|
  }

  lemma StartStep(blocks: seq<seq<Entry>>, i: nat)
    requires i < |blocks|
    ensures Flat(blocks[..i + 1]) == Flat(blocks[..i]) + blocks[i] && Start(blocks, i + 1) == Start(blocks, i) + |blocks[i]|
  {
    assert blocks[..i + 1][..i] == blocks[..i] && blocks[..i + 1][i] == blocks[i];
  }

  lemma {:induction false} StartPrefix(blocks: seq<seq<Entry>>, i: nat, j: nat)
    requires i <= j <= |blocks|
    ensures Flat(blocks[..i]) <= Flat(blocks[..j]) && Start(blocks, i) <= Start(blocks, j)
    decreases j - i
  {
    if i < j {
      StartStep(blocks, i);
      StartPrefix(blocks, i + 1, j);
      hide Flat;
    }
  }

  lemma Ends(blocks: seq<seq<Entry>>)
    ensures Start(blocks, 0) == 0 && Start(blocks, |blocks|) == |Flat(blocks)|
  {
    assert blocks[..|blocks|] == blocks;
  }

  lemma EntryOf(blocks: seq<seq<Entry>>, i: nat, x: nat)
    requires i < |blocks| && x < |blocks[i]|
    ensures Start(blocks, i) + x < |Flat(blocks)| && Flat(blocks)[Start(blocks, i) + x] == blocks[i][x]
  {
    StartStep(blocks, i);
    StartPrefix(blocks, i + 1, |blocks|);
    assert blocks[..|blocks|] == blocks;
    hide Flat;
    assert Flat(blocks[..i + 1])[Start(blocks, i) + x] == blocks[i][x];
  }

  /** Every position of the concatenation is in some block. */
  lemma {:induction false} BlockOf(blocks: seq<seq<Entry>>, p: nat) returns (i: nat, x: nat)
    requires p < |Flat(blocks)|
    ensures i < |blocks| && x < |blocks[i]| && p == Start(blocks, i) + x
  {
    var n := |blocks| - 1;
    var init := blocks[..n];
    StartStep(blocks, n);
    assert blocks[..n + 1] == blocks;
    if p < |Flat(init)| {
      i, x := BlockOf(init, p);
      assert init[..i] == blocks[..i];
    } else {
      i, x := n, p - |Flat(init)|;
    }
  }

  /** The index key of each block separates it from the later ones. */
  ghost predicate IndexOk(blocks: seq<seq<Entry>>, keys: seq<InternalKey>) {
    && |keys| == |blocks|
    && (forall i, x :: 0 <= i < |blocks| && 0 <= x < |blocks[i]| ==> AtMost(blocks[i][x].ik, keys[i]))
    && (forall i, j, x :: 0 <= i < j < |blocks| && 0 <= x < |blocks[j]| ==> Less(keys[i], blocks[j][x].ik))
    && (forall i, j :: 0 <= i < j < |keys| ==> AtMost(keys[i], keys[j]))
  }

  function SeekKeys(keys: seq<InternalKey>, target: InternalKey): (i: nat)
    ensures i <= |keys| && (forall j :: 0 <= j < i ==> Less(keys[j], target)) && (i < |keys| ==> AtMost(target, keys[i]))
  {
    if keys == [] || AtMost(target, keys[0]) then 0 else 1 + SeekKeys(keys[1..], target)
  }

  /** The logical position of a data iterator at `pos` of block `i`, possibly just off either end of it. */
  ghost predicate At(blocks: seq<seq<Entry>>, i: int, pos: int, at: int) {
    0 <= i < |blocks| && -1 <= pos <= |blocks[i]| && at == Start(blocks, i) + pos
  }

  class Iterator {
    const blocks: seq<seq<Entry>>
    const keys: seq<InternalKey>
    var index: int
    var data: Option<nat>
    var pos: int
    ghost var at: int

    /** A data iterator, if any, is over the block that the index names. */
    ghost predicate Invariant()
      reads this
    {
      && IndexOk(blocks, keys) && -1 <= index <= |blocks|
      && (data.Some? ==> At(blocks, index, pos, at) && data.value == index && 0 <= pos < |blocks[index]|)
      && (data.None? ==> at == -1 || at == |Flat(blocks)|)
    }

    constructor (blocks: seq<seq<Entry>>, keys: seq<InternalKey>)
      requires IndexOk(blocks, keys)
      ensures Invariant() && this.blocks == blocks && !Valid()
    {
      this.blocks, this.keys := blocks, keys;
      index, data, pos := |blocks|, None, 0;
      at := |Flat(blocks)|;
    }

    predicate Valid()
      requires Invariant()
      reads this
    {
      data.Some?
    }

    function Current(): (e: Entry)
      requires Invariant() && Valid()
      reads this
      ensures 0 <= at < |Flat(blocks)| && e == Flat(blocks)[at]
    {
      EntryOf(blocks, index, pos);
      blocks[index][pos]
    }

    /** Open the block that the index names, unless it is open already. */
    method InitDataBlock()
      requires -1 <= index <= |blocks|
      modifies this`data, this`pos
      ensures data == if 0 <= index < |blocks| then Some(index) else None
    {
      if !(0 <= index < |blocks|) {
        data := None;
      } else if data != Some(index) {
        data, pos := Some(index), |blocks[index]|;
      }
    }

    /** Move on to the next entry, from a position that may be past the end of its block. */
    method SkipEmptyDataBlocksForward()
      requires IndexOk(blocks, keys) && 0 <= index <= |blocks|
      requires data.Some? ==> At(blocks, index, pos, at) && data.value == index && 0 <= pos
      requires data.None? ==> index == |blocks| && at == |Flat(blocks)|
      modifies this`index, this`data, this`pos
      ensures Invariant() && (Valid() <==> at < |Flat(blocks)|)
    {
      hide Flat, IndexOk;
      Ends(blocks);
      while data.None? || pos == |blocks[index]|
        invariant 0 <= index <= |blocks|
        invariant data.Some? ==> At(blocks, index, pos, at) && data.value == index && 0 <= pos
        invariant data.None? ==> index == |blocks| && at == |Flat(blocks)|
        decreases |blocks| - index
      {
        if index == |blocks| {
          return;
        }
        StartStep(blocks, index);
        index := index + 1;
        InitDataBlock();
        if data.Some? {
          pos := 0;
        }
      }
      EntryOf(blocks, index, pos);
    }

    method SkipEmptyDataBlocksBackward()
      requires IndexOk(blocks, keys) && -1 <= index < |blocks|
      requires data.Some? ==> At(blocks, index, pos, at) && data.value == index && pos < |blocks[index]|
      requires data.None? ==> index == -1 && at == -1
      modifies this`index, this`data, this`pos
      ensures Invariant() && (Valid() <==> at >= 0)
    {
      hide Flat, IndexOk;
      Ends(blocks);
      while data.None? || pos == -1
        invariant -1 <= index < |blocks|
        invariant data.Some? ==> At(blocks, index, pos, at) && data.value == index && pos < |blocks[index]|
        invariant data.None? ==> index == -1 && at == -1
        decreases index + 1
      {
        if index == -1 {
          return;
        }
        if index > 0 {
          StartStep(blocks, index - 1);
        }
        index := index - 1;
        InitDataBlock();
        if data.Some? {
          pos := |blocks[index]| - 1;
        }
      }
    }

    method SeekToFirst()
      requires Invariant()
      modifies this
      ensures Invariant() && at == 0 && (Valid() <==> at < |Flat(blocks)|)
    {
      hide Flat, IndexOk;
      Ends(blocks);
      index := 0;
      InitDataBlock();
      pos := 0;
      at := 0;
      SkipEmptyDataBlocksForward();
    }

    method SeekToLast()
      requires Invariant()
      modifies this
      ensures Invariant() && at == |Flat(blocks)| - 1 && (Valid() <==> at >= 0)
    {
      hide Flat, IndexOk;
      Ends(blocks);
      index := |blocks| - 1;
      InitDataBlock();
      if data.Some? {
        StartStep(blocks, index);
        pos := |blocks[index]| - 1;
      }
      at := |Flat(blocks)| - 1;
      SkipEmptyDataBlocksBackward();
    }

    method Next()
      requires Invariant() && Valid()
      modifies this
      ensures Invariant() && at == old(at) + 1 && (Valid() <==> at < |Flat(blocks)|)
    {
      hide Flat, IndexOk;
      pos, at := pos + 1, at + 1;
      SkipEmptyDataBlocksForward();
    }

    method Prev()
      requires Invariant() && Valid()
      modifies this
      ensures Invariant() && at == old(at) - 1 && (Valid() <==> at >= 0)
    {
      hide Flat, IndexOk;
      pos, at := pos - 1, at - 1;
      SkipEmptyDataBlocksBackward();
    }

    /** One index search and one search in the block it names. */
    method Seek(target: InternalKey)
      requires Invariant()
      modifies this
      ensures Invariant() && at == SeekIndex(Flat(blocks), target) && (Valid() <==> at < |Flat(blocks)|)
    {
      hide Flat, IndexOk, Less;
      Ends(blocks);
      var i := SeekKeys(keys, target);
      SameCount(blocks, keys);
      index := i;
      InitDataBlock();
      if data.Some? {
        pos := SeekIndex(blocks[index], target);
        SeekLands(blocks, keys, target, i, pos);
        at := Start(blocks, i) + pos;
      } else {
        SeekPastEnd(blocks, keys, target);
        at := |Flat(blocks)|;
      }
      SkipEmptyDataBlocksForward();
    }
  }

  lemma SameCount(blocks: seq<seq<Entry>>, keys: seq<InternalKey>)
    requires IndexOk(blocks, keys)
    ensures |keys| == |blocks|
  {
  }

  lemma SeekIndexUnique(run: seq<Entry>, target: InternalKey, i: nat)
    requires i <= |run| && (forall j :: 0 <= j < i ==> Less(run[j].ik, target)) && (i < |run| ==> AtMost(target, run[i].ik))
    ensures i == SeekIndex(run, target)
  {
    hide Less;
    var s := SeekIndex(run, target);
    assert s < |run| ==> AtMost(target, run[s].ik);
    assert forall j :: 0 <= j < s ==> Less(run[j].ik, target);
  }

  lemma BlockBefore(blocks: seq<seq<Entry>>, keys: seq<InternalKey>, target: InternalKey, i: nat, x: nat)
    requires IndexOk(blocks, keys) && i < |blocks| && x < |blocks[i]| && Less(keys[i], target)
    ensures Less(blocks[i][x].ik, target)
  {
    LessIsTotalOrder(blocks[i][x].ik, keys[i], target);
  }

  lemma BlockAfter(blocks: seq<seq<Entry>>, keys: seq<InternalKey>, target: InternalKey, i: nat, j: nat, x: nat)
    requires IndexOk(blocks, keys) && i < j < |blocks| && x < |blocks[j]| && AtMost(target, keys[i])
    ensures AtMost(target, blocks[j][x].ik)
  {
    LessIsTotalOrder(keys[i], blocks[j][x].ik, target);
  }

  lemma BeforeLanding(blocks: seq<seq<Entry>>, keys: seq<InternalKey>, target: InternalKey, i: nat, pos: nat, p: nat)
    requires IndexOk(blocks, keys) && i < |blocks| && (forall j :: 0 <= j < i ==> Less(keys[j], target)) && pos <= |blocks[i]|
    requires (forall x :: 0 <= x < pos ==> Less(blocks[i][x].ik, target)) && p < Start(blocks, i) + pos && p < |Flat(blocks)|
    ensures Less(Flat(blocks)[p].ik, target)
  {
    hide Flat, IndexOk, Less;
    SameCount(blocks, keys);
    var j, x := BlockOf(blocks, p);
    EntryOf(blocks, j, x);
    if j < i {
      BlockBefore(blocks, keys, target, j, x);
    } else if j > i {
      StartStep(blocks, i);
      StartPrefix(blocks, i + 1, j);
    }
  }

  lemma AtLanding(blocks: seq<seq<Entry>>, keys: seq<InternalKey>, target: InternalKey, i: nat, pos: nat)
    requires IndexOk(blocks, keys) && i < |blocks| == |keys| && AtMost(target, keys[i]) && pos <= |blocks[i]|
    requires (pos < |blocks[i]| ==> AtMost(target, blocks[i][pos].ik)) && Start(blocks, i) + pos < |Flat(blocks)|
    ensures AtMost(target, Flat(blocks)[Start(blocks, i) + pos].ik)
  {
    hide Flat, IndexOk, Less;
    var j, x := BlockOf(blocks, Start(blocks, i) + pos);
    EntryOf(blocks, j, x);
    if j < i {
      StartStep(blocks, j);
      StartPrefix(blocks, j + 1, i);
    } else if j > i {
      BlockAfter(blocks, keys, target, i, j, x);
    }
  }

  /** The position found in the named block is the position in the concatenation. */
  lemma SeekLands(blocks: seq<seq<Entry>>, keys: seq<InternalKey>, target: InternalKey, i: nat, pos: nat)
    requires IndexOk(blocks, keys) && i < |blocks| && (forall j :: 0 <= j < i ==> Less(keys[j], target)) && AtMost(target, keys[i])
    requires pos == SeekIndex(blocks[i], target)
    ensures Start(blocks, i) + pos == SeekIndex(Flat(blocks), target)
  {
    hide Flat, IndexOk, Less;
    var at := Start(blocks, i) + pos;
    SameCount(blocks, keys);
    StartStep(blocks, i);
    StartPrefix(blocks, i + 1, |blocks|);
    Ends(blocks);
    forall p: nat | p < at ensures Less(Flat(blocks)[p].ik, target) {
      BeforeLanding(blocks, keys, target, i, pos, p);
    }
    if at < |Flat(blocks)| {
      AtLanding(blocks, keys, target, i, pos);
    }
    SeekIndexUnique(Flat(blocks), target, at);
  }

  lemma SeekPastEnd(blocks: seq<seq<Entry>>, keys: seq<InternalKey>, target: InternalKey)
    requires IndexOk(blocks, keys) && forall j :: 0 <= j < |keys| ==> Less(keys[j], target)
    ensures |Flat(blocks)| == SeekIndex(Flat(blocks), target)
  {
    hide Flat, IndexOk, Less, SeekIndex;
    SameCount(blocks, keys);
    forall p | 0 <= p < |Flat(blocks)| ensures Less(Flat(blocks)[p].ik, target) {
      var j, x := BlockOf(blocks, p);
      EntryOf(blocks, j, x);
      BlockBefore(blocks, keys, target, j, x);
    }
    SeekIndexUnique(Flat(blocks), target, |Flat(blocks)|);
  }
}
