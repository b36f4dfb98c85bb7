/** A table file: sorted data blocks, an index of shortened keys, and a filter block. */
module Table {
  import opened DbFormat
  import opened Comparator
  import opened Bloom
  import opened FilterBlock
  import Block

  datatype TableEntry = TableEntry(key: TableKey, value: Bytes)

  // -------------------------------------------------------------------------------- contents

  ghost predicate Precedes(a: seq<TableEntry>, b: seq<TableEntry>) {
    forall x, y :: 0 <= x < |a| && 0 <= y < |b| ==> KeyLess(a[x].key, b[y].key)
  }

  ghost predicate SortedBlock(a: seq<TableEntry>) {
    forall x, y :: 0 <= x < y < |a| ==> KeyLess(a[x].key, a[y].key)
  }

  /** Non-empty sorted blocks, each entirely before the next. */
  ghost predicate BlocksOk(blocks: seq<seq<TableEntry>>) {
    && (forall j :: 0 <= j < |blocks| ==> blocks[j] != [] && SortedBlock(blocks[j]))
    && (forall i, j :: 0 <= i < j < |blocks| ==> Precedes(blocks[i], blocks[j]))
  }

  function Last(block: seq<TableEntry>): TableKey
    requires block != []
  {
    block[|block| - 1].key
  }

  /** The index key of a block: at or after its last key, before the next block's first; if it is not the last
      key itself, its user key is strictly between. */
  ghost predicate SepOk(blocks: seq<seq<TableEntry>>, j: nat, sep: TableKey)
    requires j < |blocks| && forall i :: 0 <= i < |blocks| ==> blocks[i] != []
  {
    && KeyAtMost(Last(blocks[j]), sep) && (j + 1 < |blocks| ==> KeyLess(sep, blocks[j + 1][0].key))
    && (sep != Last(blocks[j]) ==> j + 1 < |blocks| ==> BytewiseLess(sep.user, blocks[j + 1][0].key.user))
  }

  ghost predicate InTable(blocks: seq<seq<TableEntry>>, e: TableEntry) {
    exists j :: 0 <= j < |blocks| && e in blocks[j]
  }

  /** `e` is what a linear scan for the first entry at or after `k` finds. */
  ghost predicate IsFirst(blocks: seq<seq<TableEntry>>, k: TableKey, e: TableEntry) {
    && InTable(blocks, e) && KeyAtMost(k, e.key)
    && forall e' :: InTable(blocks, e') && KeyAtMost(k, e'.key) ==> KeyAtMost(e.key, e'.key)
  }

  // ---------------------------------------------------------------------------------- lookup

  lemma BeforeIndexKey(blocks: seq<seq<TableEntry>>, j: nat, sep: TableKey, k: TableKey, e: TableEntry)
    requires BlocksOk(blocks) && j < |blocks| && SepOk(blocks, j, sep) && KeyLess(sep, k) && e in blocks[j]
    ensures KeyLess(e.key, k)
  {
    var b := blocks[j];
    var x :| 0 <= x < |b| && b[x] == e;
    assert SortedBlock(b);
    assert x < |b| - 1 ==> KeyLess(e.key, Last(b));
    hide KeyLess, BytewiseLess;
    KeyOrder(Last(b), sep, k);
    KeyOrder(e.key, Last(b), k);
    KeyOrder(sep, Last(b), k);
  }

  /** First position at or after `k` in a sorted block. */
  method SeekBlock(b: seq<TableEntry>, k: TableKey) returns (i: nat)
    requires SortedBlock(b)
    ensures i <= |b| && (forall x :: 0 <= x < i ==> KeyLess(b[x].key, k)) && (i < |b| ==> KeyAtMost(k, b[i].key))
  {
    hide KeyLess;
    i := 0;
    while i < |b| && KeyLess(b[i].key, k)
      invariant i <= |b| && forall x :: 0 <= x < i ==> KeyLess(b[x].key, k)
    {
      i := i + 1;
    }
  }

  /** First index key at or after `k`. */
  method SeekIndexKeys(seps: seq<TableKey>, k: TableKey) returns (j: nat)
    ensures j <= |seps| && (forall x :: 0 <= x < j ==> KeyLess(seps[x], k)) && (j < |seps| ==> KeyAtMost(k, seps[j]))
  {
    hide KeyLess;
    j := 0;
    while j < |seps| && KeyLess(seps[j], k)
      invariant j <= |seps| && forall x :: 0 <= x < j ==> KeyLess(seps[x], k)
    {
      j := j + 1;
    }
  }

  ghost predicate IndexOk(blocks: seq<seq<TableEntry>>, seps: seq<TableKey>) {
    BlocksOk(blocks) && |seps| == |blocks| && forall j :: 0 <= j < |blocks| ==> SepOk(blocks, j, seps[j])
  }

  /** Nothing before block `j` is at or after `k`. */
  lemma OnlyLaterBlocks(blocks: seq<seq<TableEntry>>, seps: seq<TableKey>, k: TableKey, j: nat, e: TableEntry)
    requires IndexOk(blocks, seps) && j <= |seps| && (forall x :: 0 <= x < j ==> KeyLess(seps[x], k))
    requires InTable(blocks, e) && KeyAtMost(k, e.key)
    ensures exists i :: j <= i < |blocks| && e in blocks[i]
  {
    var i :| 0 <= i < |blocks| && e in blocks[i];
    if i < j {
      BeforeIndexKey(blocks, i, seps[i], k, e);
    }
  }

  /** An entry found in the block that the index names is the first of the whole table. */
  lemma FoundIsFirst(blocks: seq<seq<TableEntry>>, seps: seq<TableKey>, k: TableKey, j: nat, i: nat)
    requires IndexOk(blocks, seps) && j < |blocks| && (forall x :: 0 <= x < j ==> KeyLess(seps[x], k))
    requires i < |blocks[j]| && (forall x :: 0 <= x < i ==> KeyLess(blocks[j][x].key, k)) && KeyAtMost(k, blocks[j][i].key)
    ensures IsFirst(blocks, k, blocks[j][i])
  {
    var found := blocks[j][i];
    assert found in blocks[j] && SortedBlock(blocks[j]);
    forall e | InTable(blocks, e) && KeyAtMost(k, e.key) ensures KeyAtMost(found.key, e.key) {
      OnlyLaterBlocks(blocks, seps, k, j, e);
      var l :| j <= l < |blocks| && e in blocks[l];
      var y :| 0 <= y < |blocks[l]| && blocks[l][y] == e;
      if l == j {
        assert y >= i;
        assert y > i ==> KeyLess(found.key, e.key);
      } else {
        assert Precedes(blocks[j], blocks[l]);
      }
      KeyOrder(found.key, e.key, found.key);
    }
  }

  /** When the named block has nothing at or after `k`, no entry at or after `k` has its user key. */
  lemma MissHasOtherUser(blocks: seq<seq<TableEntry>>, seps: seq<TableKey>, k: TableKey, j: nat, e: TableEntry)
    requires IndexOk(blocks, seps) && j < |blocks| && (forall x :: 0 <= x < j ==> KeyLess(seps[x], k)) && KeyAtMost(k, seps[j])
    requires forall x :: 0 <= x < |blocks[j]| ==> KeyLess(blocks[j][x].key, k)
    requires InTable(blocks, e) && KeyAtMost(k, e.key)
    ensures e.key.user != k.user
  {
    OnlyLaterBlocks(blocks, seps, k, j, e);
    var l :| j <= l < |blocks| && e in blocks[l];
    var y :| 0 <= y < |blocks[l]| && blocks[l][y] == e;
    assert l > j;
    var next := blocks[j + 1][0];
    assert SepOk(blocks, j, seps[j]) && KeyLess(Last(blocks[j]), k);
    assert seps[j] != Last(blocks[j]);
    assert BytewiseLess(seps[j].user, next.key.user);
    assert e == next || KeyLess(next.key, e.key) by {
      assert Precedes(blocks[j + 1], blocks[l]) || l == j + 1;
      assert SortedBlock(blocks[j + 1]);
    }
    hide BytewiseLess;
    BytewiseOrder(seps[j].user, next.key.user, e.key.user);
    BytewiseOrder(k.user, seps[j].user, e.key.user);
    BytewiseOrder(seps[j].user, k.user, k.user);
  }

  datatype TableFile = TableFile(blocks: seq<seq<TableEntry>>, seps: seq<TableKey>, offsets: seq<nat>, filter: Bytes)

  /** How the filter block was generated. */
  datatype FilterProof = FilterProof(result: Bytes, offsets: seq<nat>, done: seq<seq<Bytes>>, k: nat)

  ghost predicate Grouped(blocks: seq<seq<TableEntry>>, offsets: seq<nat>, done: seq<seq<Bytes>>) {
    && |offsets| == |blocks|
    && forall j, x :: 0 <= j < |blocks| && 0 <= x < |blocks[j]| ==>
         UserIn(done, offsets[j] / FILTER_BASE, blocks[j][x].key.user)
  }

  ghost predicate UserIn(done: seq<seq<Bytes>>, g: nat, user: Bytes) {
    g < |done| && user in done[g]
  }

  ghost predicate TableOk(hash: HashFunction, t: TableFile, p: FilterProof) {
    && IndexOk(t.blocks, t.seps) && Grouped(t.blocks, t.offsets, p.done)
    && FilterBlockOk(hash, t.filter, p.result, p.offsets, p.done, p.k)
  }

  /** Look in the one block that the index names, unless the filter rules it out: what is delivered is what a
      linear scan of the whole table would find, and it is delivered whenever it has the user key. */
  method InternalGet(hash: HashFunction, t: TableFile, k: TableKey, ghost p: FilterProof) returns (r: Option<TableEntry>)
    requires TableOk(hash, t, p)
    ensures r.Some? ==> IsFirst(t.blocks, k, r.value)
    ensures forall e :: IsFirst(t.blocks, k, e) && e.key.user == k.user ==> r == Some(e)
  {
    hide KeyLess, BytewiseLess, FilterBlockOk, SepOk, SortedBlock, Precedes;
    var j := SeekIndexKeys(t.seps, k);
    if j == |t.seps| {
      forall e | IsFirst(t.blocks, k, e) ensures false {
        OnlyLaterBlocks(t.blocks, t.seps, k, j, e);
      }
      return None;
    }
    var mayMatch := FilterMayMatch(hash, t.filter, t.offsets[j], k.user, p.result, p.offsets, p.done, p.k);
    assert SortedBlock(t.blocks[j]);
    ghost var i := FirstIn(t.blocks[j], k);
    if i < |t.blocks[j]| {
      FoundIsFirst(t.blocks, t.seps, k, j, i);
      FirstIsUnique(t.blocks, k, t.blocks[j][i]);
    } else {
      forall e | IsFirst(t.blocks, k, e) ensures e.key.user != k.user {
        MissHasOtherUser(t.blocks, t.seps, k, j, e);
      }
    }
    if !mayMatch {
      return None;
    }
    var i' := SeekBlock(t.blocks[j], k);
    if i' < |t.blocks[j]| {
      FoundIsFirst(t.blocks, t.seps, k, j, i');
      return Some(t.blocks[j][i']);
    }
    return None;
  }

  lemma {:induction false} FirstIn(b: seq<TableEntry>, k: TableKey) returns (i: nat)
    ensures i <= |b| && (forall x :: 0 <= x < i ==> KeyLess(b[x].key, k)) && (i < |b| ==> KeyAtMost(k, b[i].key))
  {
    hide KeyLess;
    if b == [] || KeyAtMost(k, b[0].key) {
      i := 0;
    } else {
      var i' := FirstIn(b[1..], k);
      i := i' + 1;
      forall x | 0 <= x < i ensures KeyLess(b[x].key, k) {
        assert x > 0 ==> b[x] == b[1..][x - 1];
      }
    }
  }

  /** Keys are unique, so there is one first entry. */
  lemma FirstIsUnique(blocks: seq<seq<TableEntry>>, k: TableKey, e: TableEntry)
    requires BlocksOk(blocks) && IsFirst(blocks, k, e)
    ensures forall e' :: IsFirst(blocks, k, e') ==> e' == e
  {
    forall e' | IsFirst(blocks, k, e') ensures e' == e {
      assert KeyAtMost(e.key, e'.key) && KeyAtMost(e'.key, e.key);
      KeyOrder(e.key, e'.key, e.key);
      var i :| 0 <= i < |blocks| && e in blocks[i];
      var j :| 0 <= j < |blocks| && e' in blocks[j];
      SameKeySameEntry(blocks, i, j, e, e');
    }
  }

  lemma SameKeySameEntry(blocks: seq<seq<TableEntry>>, i: nat, j: nat, e: TableEntry, e': TableEntry)
    requires BlocksOk(blocks) && i < |blocks| && j < |blocks| && e in blocks[i] && e' in blocks[j] && e.key == e'.key
    ensures e == e'
  {
    KeyOrder(e.key, e.key, e.key);
    var x :| 0 <= x < |blocks[i]| && blocks[i][x] == e;
    var y :| 0 <= y < |blocks[j]| && blocks[j][y] == e';
    hide KeyLess;
    assert SortedBlock(blocks[i]);
  }

  // ---------------------------------------------------------------------------- TableBuilder

  /** The blocks written so far and the one being filled. */
  function Chunks(blocks: seq<seq<TableEntry>>, current: seq<TableEntry>): seq<seq<TableEntry>> {
    if current == [] then blocks else blocks + [current]
  }

  /** Index entries are written for every block but the last one, whose index entry waits for the next key. */
  ghost predicate BuildingIndex(blocks: seq<seq<TableEntry>>, current: seq<TableEntry>, seps: seq<TableKey>, pending: bool) {
    && BlocksOk(Chunks(blocks, current))
    && (pending ==> blocks != [] && current == [] && |seps| + 1 == |blocks|)
    && (!pending ==> |seps| == |blocks| && (blocks != [] ==> current != []))
    && forall j :: 0 <= j < |seps| ==> SepOk(Chunks(blocks, current), j, seps[j])
  }

  ghost predicate InGroup(done: seq<seq<Bytes>>, keys: seq<Bytes>, g: nat, user: Bytes) {
    (g < |done| && user in done[g]) || (g == |done| && user in keys)
  }

  /** Every key is in the filter group of its block's offset, generated or still pending. */
  ghost predicate BuildingFilter(blocks: seq<seq<TableEntry>>, current: seq<TableEntry>, offsets: seq<nat>, offset: nat,
                                 done: seq<seq<Bytes>>, keys: seq<Bytes>) {
    && |offsets| == |blocks| && |done| == offset / FILTER_BASE
    && (forall j, x :: 0 <= j < |blocks| && 0 <= x < |blocks[j]| ==> InGroup(done, keys, offsets[j] / FILTER_BASE, blocks[j][x].key.user))
    && (forall x :: 0 <= x < |current| ==> current[x].key.user in keys)
  }

  /** The greatest key added so far. */
  ghost predicate IsLast(blocks: seq<seq<TableEntry>>, current: seq<TableEntry>, lastKey: Option<TableKey>) {
    match lastKey
    case None => blocks == [] && current == []
    case Some(k) =>
      var all := Chunks(blocks, current);
      all != [] && all[|all| - 1] != [] && k == Last(all[|all| - 1])
  }

  /** The waiting index entry is written once the next key is known. */
  lemma SeparatorWritten(blocks: seq<seq<TableEntry>>, seps: seq<TableKey>, sep: TableKey, e: TableEntry)
    requires BuildingIndex(blocks, [], seps, true)
    requires KeyLess(Last(blocks[|blocks| - 1]), e.key) && KeyAtMost(Last(blocks[|blocks| - 1]), sep) && KeyLess(sep, e.key)
    requires sep == Last(blocks[|blocks| - 1]) || BytewiseLess(sep.user, e.key.user)
    ensures BuildingIndex(blocks, [e], seps + [sep], false)
  {
    BlocksSnoc(blocks, e);
    var all, seps' := blocks + [[e]], seps + [sep];
    hide KeyLess, BytewiseLess, Precedes, SortedBlock;
    forall j | 0 <= j < |seps'| ensures SepOk(all, j, seps'[j]) {
      if j < |seps| {
        assert SepOk(blocks, j, seps[j]);
      }
    }
  }

  lemma BlocksSnoc(blocks: seq<seq<TableEntry>>, e: TableEntry)
    requires BlocksOk(blocks) && (blocks != [] ==> KeyLess(Last(blocks[|blocks| - 1]), e.key))
    ensures BlocksOk(blocks + [[e]])
  {
    var all := blocks + [[e]];
    forall i, j | 0 <= i < j < |all| ensures Precedes(all[i], all[j]) {
      if j < |blocks| {
        assert Precedes(blocks[i], blocks[j]);
      } else {
        forall x | 0 <= x < |all[i]| ensures KeyLess(all[i][x].key, e.key) {
          BeforeLast(blocks, i, x);
          hide KeyLess;
          KeyOrder(all[i][x].key, Last(blocks[|blocks| - 1]), e.key);
        }
      }
    }
  }

  lemma BeforeLast(blocks: seq<seq<TableEntry>>, i: nat, x: nat)
    requires BlocksOk(blocks) && i < |blocks| && x < |blocks[i]|
    ensures blocks[i][x].key == Last(blocks[|blocks| - 1]) || KeyLess(blocks[i][x].key, Last(blocks[|blocks| - 1]))
  {
    hide KeyLess;
    assert SortedBlock(blocks[i]);
    assert i < |blocks| - 1 ==> Precedes(blocks[i], blocks[|blocks| - 1]);
  }

  lemma EntryAppended(blocks: seq<seq<TableEntry>>, current: seq<TableEntry>, seps: seq<TableKey>, e: TableEntry)
    requires BuildingIndex(blocks, current, seps, false) && current != [] && KeyLess(Last(current), e.key)
    ensures BuildingIndex(blocks, current + [e], seps, false)
  {
    var all, all' := blocks + [current], blocks + [current + [e]];
    assert all[|all| - 1] == current;
    forall i, x | 0 <= i < |all| && 0 <= x < |all[i]| ensures KeyLess(all[i][x].key, e.key) {
      BeforeLast(all, i, x);
      hide KeyLess;
      KeyOrder(all[i][x].key, Last(current), e.key);
    }
    hide KeyLess, BytewiseLess;
    forall i, j | 0 <= i < j < |all'| ensures Precedes(all'[i], all'[j]) {
      assert Precedes(all[i], all[j]) && all[i] == all'[i];
    }
    assert SortedBlock(all[|blocks|]);
    forall j | 0 <= j < |all'| ensures all'[j] != [] && SortedBlock(all'[j]) {
      assert j < |blocks| ==> all'[j] == all[j];
    }
    forall j | 0 <= j < |seps| ensures SepOk(all', j, seps[j]) {
      assert SepOk(all, j, seps[j]);
    }
  }

  lemma FirstEntry(e: TableEntry)
    ensures BuildingIndex([], [e], [], false)
  {
    assert Chunks([], [e]) == [[e]];
  }

  lemma BuildingFacts(blocks: seq<seq<TableEntry>>, current: seq<TableEntry>, seps: seq<TableKey>, pending: bool)
    requires BuildingIndex(blocks, current, seps, pending)
    ensures pending ==> blocks != [] && current == []
    ensures !pending && blocks != [] ==> current != []
    ensures !pending ==> |seps| == |blocks|
    ensures forall j :: 0 <= j < |blocks| ==> blocks[j] != []
  {
    hide KeyLess, BytewiseLess, Precedes, SortedBlock, SepOk;
    assert forall j :: 0 <= j < |blocks| ==> Chunks(blocks, current)[j] == blocks[j];
  }

  lemma FilterKeyAdded(blocks: seq<seq<TableEntry>>, current: seq<TableEntry>, offsets: seq<nat>, offset: nat,
                       done: seq<seq<Bytes>>, keys: seq<Bytes>, e: TableEntry)
    requires BuildingFilter(blocks, current, offsets, offset, done, keys)
    ensures BuildingFilter(blocks, current + [e], offsets, offset, done, keys + [e.key.user])
  {
    var keys' := keys + [e.key.user];
    assert e.key.user == keys'[|keys|];
  }

  lemma EntryInTable(blocks: seq<seq<TableEntry>>, current: seq<TableEntry>, e: TableEntry)
    ensures forall x :: InTable(Chunks(blocks, current + [e]), x) <==> InTable(Chunks(blocks, current), x) || x == e
  {
    var all, all' := Chunks(blocks, current), Chunks(blocks, current + [e]);
    forall x ensures InTable(all', x) <==> InTable(all, x) || x == e {
      if InTable(all, x) {
        var j :| 0 <= j < |all| && x in all[j];
        assert x in all'[j];
      }
      if x == e {
        assert x in all'[|blocks|];
      }
      if InTable(all', x) && x != e {
        var j :| 0 <= j < |all'| && x in all'[j];
        assert x in (if j < |blocks| then blocks[j] else current);
        assert x in all[j];
      }
    }
  }

  /** Every written key is in the group of its block. */
  ghost predicate GroupsOk(blocks: seq<seq<TableEntry>>, offsets: seq<nat>, done: seq<seq<Bytes>>, keys: seq<Bytes>) {
    && |offsets| == |blocks|
    && forall j, x :: 0 <= j < |blocks| && 0 <= x < |blocks[j]| ==> InGroup(done, keys, offsets[j] / FILTER_BASE, blocks[j][x].key.user)
  }

  lemma FilterStarts(blocks: seq<seq<TableEntry>>, current: seq<TableEntry>, offsets: seq<nat>, offset: nat,
                     done: seq<seq<Bytes>>, keys: seq<Bytes>, offset': nat)
    requires BuildingFilter(blocks, current, offsets, offset, done, keys) && offset <= offset'
    ensures |done| <= offset' / FILTER_BASE && GroupsOk(blocks + [current], offsets + [offset], done, keys)
  {
  }

  lemma BlockClosed(blocks: seq<seq<TableEntry>>, current: seq<TableEntry>, seps: seq<TableKey>)
    requires BuildingIndex(blocks, current, seps, false) && current != []
    ensures BuildingIndex(blocks + [current], [], seps, true)
  {
    hide KeyLess, BytewiseLess, Precedes, SortedBlock, SepOk;
  }

  /** Generating filters moves the pending keys into the group they belong to. */
  lemma FilterContinues(blocks: seq<seq<TableEntry>>, offsets: seq<nat>, done: seq<seq<Bytes>>, keys: seq<Bytes>,
                        done': seq<seq<Bytes>>, keys': seq<Bytes>, offset': nat)
    requires GroupsOk(blocks, offsets, done, keys) && done <= done' && |done'| == offset' / FILTER_BASE
    requires |done'| == |done| ==> keys' == keys
    requires |done'| > |done| ==> done'[|done|] == keys
    ensures BuildingFilter(blocks, [], offsets, offset', done', keys')
  {
    forall j, x | 0 <= j < |blocks| && 0 <= x < |blocks[j]|
      ensures InGroup(done', keys', offsets[j] / FILTER_BASE, blocks[j][x].key.user)
    {
      var g := offsets[j] / FILTER_BASE;
      assert InGroup(done, keys, g, blocks[j][x].key.user);
      assert g < |done| ==> done'[g] == done[g];
    }
  }

  lemma IndexFinished(blocks: seq<seq<TableEntry>>, seps: seq<TableKey>, sep: TableKey)
    requires BuildingIndex(blocks, [], seps, true) && KeyAtMost(Last(blocks[|blocks| - 1]), sep)
    ensures IndexOk(blocks, seps + [sep])
  {
    hide KeyLess, BytewiseLess, Precedes, SortedBlock;
    var seps' := seps + [sep];
    forall j | 0 <= j < |seps'| ensures SepOk(blocks, j, seps'[j]) {
      assert j < |seps| ==> SepOk(blocks, j, seps[j]);
    }
  }

  lemma EmptyIndex()
    ensures IndexOk([], [])
  {
  }

  lemma GroupsFinished(blocks: seq<seq<TableEntry>>, offsets: seq<nat>, offset: nat, done: seq<seq<Bytes>>, keys: seq<Bytes>, done': seq<seq<Bytes>>)
    requires BuildingFilter(blocks, [], offsets, offset, done, keys)
    requires done' == if keys == [] then done else done + [keys]
    ensures Grouped(blocks, offsets, done')
  {
    forall j, x | 0 <= j < |blocks| && 0 <= x < |blocks[j]|
      ensures UserIn(done', offsets[j] / FILTER_BASE, blocks[j][x].key.user)
    {
      var g := offsets[j] / FILTER_BASE;
      assert InGroup(done, keys, g, blocks[j][x].key.user);
      if g < |done| {
        assert done'[g] == done[g];
      } else {
        assert done'[g] == keys;
      }
    }
  }

  // ---------------------------------------------------------------------------------- sizes

  /** Room enough for the entries of a data block: their bytes, the eight bytes of each tag, nineteen bytes of
      framing an entry, and the block's own thirteen. */
  ghost function Weight(entries: seq<TableEntry>): nat {
    if entries == [] then 0
    else Weight(entries[..|entries| - 1]) + |entries[|entries| - 1].key.user| + |entries[|entries| - 1].value| + 40
  }

  /** A block and its five-byte trailer never take more than that on disk. */
  ghost predicate Modest(size: seq<TableEntry> -> nat) {
    forall b :: b != [] ==> size(b) + 5 <= Weight(b)
  }

  /** The entries of a data block, with keys that carry their eight-byte tags. */
  ghost predicate BlockHolds(es: seq<Block.BlockEntry>, b: seq<TableEntry>) {
    |es| == |b| && forall i :: 0 <= i < |b| ==> |es[i].key| == |b[i].key.user| + 8 && |es[i].value| == |b[i].value|
  }

  lemma {:induction false} WeightIs(es: seq<Block.BlockEntry>, b: seq<TableEntry>)
    requires BlockHolds(es, b)
    ensures Weight(b) == Block.TotalBytes(es) + 32 * |b|
  {
    if b != [] {
      WeightIs(es[..|es| - 1], b[..|b| - 1]);
    }
  }

  /** Data blocks as they are built are that small. */
  lemma BlocksAreModest(es: seq<Block.BlockEntry>, rs: seq<nat>, points: seq<nat>, b: seq<TableEntry>)
    requires b != [] && BlockHolds(es, b) && Block.RestartsOk(es, rs) && |points| == |rs| && Block.TotalBytes(es) < 0x1_0000_0000
    ensures |Block.Finished(es, points)| + 5 <= Weight(b)
  {
    hide *;
    WeightIs(es, b);
    Block.FinishedAtMost(es, rs, points);
    HoldsLength(es, b);
  }

  lemma HoldsLength(es: seq<Block.BlockEntry>, b: seq<TableEntry>)
    requires BlockHolds(es, b)
    ensures |es| == |b|
  {
  }

  /** Every entry added has its key in the filter and its room in the file. */
  ghost predicate Counted(size: seq<TableEntry> -> nat, offset: nat, current: seq<TableEntry>, added: seq<TableEntry>, keys: nat) {
    keys == |added| && (Modest(size) ==> offset + Weight(current) <= Weight(added))
  }

  lemma CountedMore(size: seq<TableEntry> -> nat, offset: nat, current: seq<TableEntry>, added: seq<TableEntry>, keys: nat, e: TableEntry)
    requires Counted(size, offset, current, added, keys)
    ensures Counted(size, offset, current + [e], added + [e], keys + 1)
  {
    assert (current + [e])[..|current|] == current && (added + [e])[..|added|] == added;
  }

  lemma CountedFlushed(size: seq<TableEntry> -> nat, offset: nat, current: seq<TableEntry>, added: seq<TableEntry>, keys: nat)
    requires Counted(size, offset, current, added, keys) && current != []
    ensures Counted(size, offset + size(current) + 5, [], added, keys)
  {
  }

  /** The filter block of a table with these entries is no larger than this. */
  ghost function FilterBound(entries: seq<TableEntry>, bitsPerKey: nat): nat {
    KeyCost(|entries|, bitsPerKey) + Weight(entries) / 512 + 9
  }

  lemma CountedBound(size: seq<TableEntry> -> nat, offset: nat, added: seq<TableEntry>, keys: nat, length: nat, bitsPerKey: nat, groups: nat)
    requires Counted(size, offset, [], added, keys) && groups == offset / FILTER_BASE
    requires length <= KeyCost(keys, bitsPerKey) + 4 * groups + 9
    ensures Modest(size) ==> length <= FilterBound(added, bitsPerKey)
  {
    hide Modest, KeyCost;
    if Modest(size) {
      assert Weight([]) == 0;
    }
  }

  /** The blocks lie one after the other from the start of the file, each followed by its five-byte trailer. */
  ghost predicate Contiguous(size: seq<TableEntry> -> nat, blocks: seq<seq<TableEntry>>, offsets: seq<nat>, offset: nat) {
    |offsets| == |blocks| && forall j :: 0 <= j <= |blocks| ==> FollowsOn(size, blocks, offsets, offset, j)
  }

  /** Block `j`, or the next block to come, starts where the one before it ends. */
  ghost predicate FollowsOn(size: seq<TableEntry> -> nat, blocks: seq<seq<TableEntry>>, offsets: seq<nat>, offset: nat, j: nat)
    requires j <= |blocks| == |offsets|
  {
    (if j < |offsets| then offsets[j] else offset) == if j == 0 then 0 else offsets[j - 1] + size(blocks[j - 1]) + 5
  }

  lemma BlockPlaced(size: seq<TableEntry> -> nat, blocks: seq<seq<TableEntry>>, offsets: seq<nat>, offset: nat, block: seq<TableEntry>)
    requires Contiguous(size, blocks, offsets, offset)
    ensures Contiguous(size, blocks + [block], offsets + [offset], offset + size(block) + 5)
  {
    var blocks', offsets', offset' := blocks + [block], offsets + [offset], offset + size(block) + 5;
    forall j | 0 <= j <= |blocks'| ensures FollowsOn(size, blocks', offsets', offset', j) {
      assert j <= |blocks| ==> FollowsOn(size, blocks, offsets, offset, j);
    }
  }

  lemma NothingPlaced(size: seq<TableEntry> -> nat)
    ensures Contiguous(size, [], [], 0)
  {
  }

  class TableBuilder {
    var blocks: seq<seq<TableEntry>>
    var offsets: seq<nat>
    var seps: seq<TableKey>
    var dataBlock: seq<TableEntry>
    var offset: nat
    var lastKey: Option<TableKey>
    var pendingIndexEntry: bool
    const filter: FilterBlockBuilder
    const size: seq<TableEntry> -> nat
    const full: seq<TableEntry> -> bool
    ghost var added: seq<TableEntry>

    ghost predicate Valid()
      reads this, filter
    {
      && filter.Valid()
      && BuildingIndex(blocks, dataBlock, seps, pendingIndexEntry) && IsLast(blocks, dataBlock, lastKey)
      && BuildingFilter(blocks, dataBlock, offsets, offset, filter.done, filter.keys)
      && Counted(size, offset, dataBlock, added, KeysIn(filter.done) + |filter.keys|)
      && Contiguous(size, blocks, offsets, offset)
    }

    /** `size` gives the size of a block on disk, compressed or not; `full` says when a block is big enough. */
    constructor (hash: HashFunction, bitsPerKey: nat, k: nat, size: seq<TableEntry> -> nat, full: seq<TableEntry> -> bool)
      requires 1 <= k <= 30
      ensures Valid() && fresh(filter) && blocks == [] && dataBlock == [] && lastKey == None && added == []
      ensures filter.hash == hash && filter.bitsPerKey == bitsPerKey && this.size == size && this.full == full
    {
      this.size, this.full, added := size, full, [];
      filter := new FilterBlockBuilder(hash, bitsPerKey, k);
      blocks, offsets, seps, dataBlock, offset, lastKey, pendingIndexEntry := [], [], [], [], 0, None, false;
      new;
      NothingPlaced(this.size);
      filter.StartBlock(0);
    }

    /** Add a key after all earlier ones; a block is cut whenever it is big enough. */
    method Add(key: TableKey, value: Bytes)
      requires Valid() && (lastKey.Some? ==> KeyLess(lastKey.value, key))
      modifies this, filter
      ensures Valid() && lastKey == Some(key) && added == old(added) + [TableEntry(key, value)]
      ensures forall e :: InTable(Chunks(blocks, dataBlock), e) <==> InTable(old(Chunks(blocks, dataBlock)), e) || e == TableEntry(key, value)
      ensures var block := old(dataBlock) + [TableEntry(key, value)];
              if full(block) then blocks == old(blocks) + [block] && dataBlock == [] else blocks == old(blocks) && dataBlock == block
    {
      hide KeyLess, BytewiseLess, BuildingIndex, BuildingFilter, FiltersOk, InTable, Counted, Contiguous;
      var e := TableEntry(key, value);
      WriteIndexEntry(e);
      FilterKeyAdded(blocks, dataBlock, offsets, offset, filter.done, filter.keys, e);
      EntryInTable(blocks, dataBlock, e);
      CountedMore(size, offset, dataBlock, added, KeysIn(filter.done) + |filter.keys|, e);
      filter.AddKey(key.user);
      dataBlock, lastKey, added := dataBlock + [e], Some(key), added + [e];
      if full(dataBlock) {
        Flush();
      }
    }

    /** The next key is known, so the waiting index entry can be written. */
    method WriteIndexEntry(e: TableEntry)
      requires Valid() && (lastKey.Some? ==> KeyLess(lastKey.value, e.key))
      modifies this`seps, this`pendingIndexEntry
      ensures BuildingIndex(blocks, dataBlock + [e], seps, pendingIndexEntry) && !pendingIndexEntry
    {
      hide KeyLess, BytewiseLess, BuildingIndex, BuildingFilter, FiltersOk, Contiguous;
      BuildingFacts(blocks, dataBlock, seps, pendingIndexEntry);
      assert dataBlock == [] ==> dataBlock + [e] == [e];
      if pendingIndexEntry {
        var sep := InternalSeparator(lastKey.value, e.key);
        SeparatorWritten(blocks, seps, sep, e);
        seps, pendingIndexEntry := seps + [sep], false;
      } else if blocks == [] && dataBlock == [] {
        FirstEntry(e);
      } else {
        EntryAppended(blocks, dataBlock, seps, e);
      }
    }

    /** Write the current block; its index entry waits for the next key. */
    method Flush()
      requires Valid()
      modifies this`blocks, this`offsets, this`offset, this`dataBlock, this`pendingIndexEntry, filter
      ensures Valid() && Chunks(blocks, dataBlock) == old(Chunks(blocks, dataBlock)) && dataBlock == []
      ensures blocks == old(Chunks(blocks, dataBlock)) && added == old(added)
      ensures pendingIndexEntry <==> blocks != []
    {
      hide KeyLess, BytewiseLess, BuildingIndex, BuildingFilter, FiltersOk, Counted, Contiguous, KeysIn;
      BuildingFacts(blocks, dataBlock, seps, pendingIndexEntry);
      if dataBlock == [] {
        return;
      }
      ghost var done, keys := filter.done, filter.keys;
      var offset' := offset + size(dataBlock) + 5;
      CountedFlushed(size, offset, dataBlock, added, KeysIn(done) + |keys|);
      FilterStarts(blocks, dataBlock, offsets, offset, done, keys, offset');
      BlockClosed(blocks, dataBlock, seps);
      BlockPlaced(size, blocks, offsets, offset, dataBlock);
      blocks, offsets := blocks + [dataBlock], offsets + [offset];
      dataBlock, offset, pendingIndexEntry := [], offset', true;
      filter.StartBlock(offset');
      FilterContinues(blocks, offsets, done, keys, filter.done, filter.keys, offset');
    }

    method FinishFilter() returns (data: Bytes, ghost p: FilterProof)
      requires Valid() && dataBlock == []
      modifies filter
      ensures Grouped(blocks, offsets, p.done)
      ensures |data| < 0x1_0000_0000 ==> FilterBlockOk(filter.hash, data, p.result, p.offsets, p.done, p.k)
      ensures Modest(size) ==> |data| <= FilterBound(added, filter.bitsPerKey)
    {
      hide *;
      BuilderParts(this);
      GroupCount(blocks, dataBlock, offsets, offset, filter.done, filter.keys);
      ghost var done, keys := filter.done, filter.keys;
      data := filter.Finish();
      CountedBound(size, offset, added, KeysIn(done) + |keys|, |data|, filter.bitsPerKey, |done|);
      FinishedFilter(filter, data);
      p := FilterProof(filter.result, filter.filterOffsets, filter.done, filter.k);
      GroupsFinished(blocks, offsets, offset, done, keys, filter.done);
    }

    /** The last index entry has no next key: a short successor will do. */
    method FinishIndex()
      requires BuildingIndex(blocks, [], seps, pendingIndexEntry) && IsLast(blocks, [], lastKey) && (pendingIndexEntry <==> blocks != [])
      modifies this`seps, this`pendingIndexEntry
      ensures IndexOk(blocks, seps)
    {
      hide KeyLess, BytewiseLess, BuildingIndex, IndexOk;
      BuildingFacts(blocks, [], seps, pendingIndexEntry);
      if pendingIndexEntry {
        var sep := InternalSuccessor(lastKey.value);
        IndexFinished(blocks, seps, sep);
        seps, pendingIndexEntry := seps + [sep], false;
      } else {
        NoBlocksNoSeps(blocks, [], seps);
        EmptyIndex();
      }
    }

    /** Write the last block, the filter block and the index: a table that looks up every entry added. */
    method Finish() returns (t: TableFile, ghost p: FilterProof)
      requires Valid()
      modifies this, filter
      ensures t.blocks == old(Chunks(blocks, dataBlock))
      ensures IndexOk(t.blocks, t.seps) && Grouped(t.blocks, t.offsets, p.done)
      ensures Contiguous(size, t.blocks, t.offsets, offset)
      ensures |t.filter| < 0x1_0000_0000 ==> TableOk(filter.hash, t, p)
      ensures Modest(size) ==> |t.filter| <= FilterBound(old(added), filter.bitsPerKey)
    {
      hide KeyLess, BytewiseLess, BuildingIndex, BuildingFilter, FiltersOk, IndexOk, Grouped, IsLast, FilterBlockOk, Counted, Modest, FilterBound, Contiguous;
      Flush();
      var data;
      data, p := FinishFilter();
      FinishIndex();
      t := TableFile(blocks, seps, offsets, data);
    }
  }

  lemma BuilderParts(b: TableBuilder)
    requires b.Valid()
    ensures b.filter.Valid() && BuildingFilter(b.blocks, b.dataBlock, b.offsets, b.offset, b.filter.done, b.filter.keys)
    ensures Counted(b.size, b.offset, b.dataBlock, b.added, KeysIn(b.filter.done) + |b.filter.keys|)
  {
    hide BuildingIndex, BuildingFilter, FiltersOk, IsLast, Counted, Contiguous;
  }

  lemma GroupCount(blocks: seq<seq<TableEntry>>, current: seq<TableEntry>, offsets: seq<nat>, offset: nat, done: seq<seq<Bytes>>, keys: seq<Bytes>)
    requires BuildingFilter(blocks, current, offsets, offset, done, keys)
    ensures |done| == offset / FILTER_BASE
  {
  }

  lemma NoBlocksNoSeps(blocks: seq<seq<TableEntry>>, current: seq<TableEntry>, seps: seq<TableKey>)
    requires BuildingIndex(blocks, current, seps, false) && blocks == []
    ensures seps == []
  {
  }

  // ------------------------------------------------------------------------ build, then look up

  /** The entries in order, cut after every block that is full; what is left is the last block. */
  ghost function CutInto(entries: seq<TableEntry>, full: seq<TableEntry> -> bool): (seq<seq<TableEntry>>, seq<TableEntry>) {
    if entries == [] then ([], [])
    else
      var (blocks, current) := CutInto(entries[..|entries| - 1], full);
      var block := current + [entries[|entries| - 1]];
      if full(block) then (blocks + [block], []) else (blocks, block)
  }

  ghost predicate SameEntries(blocks: seq<seq<TableEntry>>, entries: seq<TableEntry>) {
    forall e :: InTable(blocks, e) <==> e in entries
  }

  lemma SameFirst(blocks: seq<seq<TableEntry>>, entries: seq<TableEntry>, k: TableKey, e: TableEntry)
    requires SameEntries(blocks, entries)
    ensures IsFirst(blocks, k, e) <==> IsFirst([entries], k, e)
  {
    hide KeyLess;
    forall x ensures InTable([entries], x) <==> x in entries {
      assert x in entries ==> x in [entries][0];
    }
    hide InTable;
  }

  /** For every sorted input and every lookup key: the table built holds exactly the input, its index separates its
      blocks, and if its filter block's offsets fit into 32 bits the lookup agrees with a linear scan of the input.
      They fit if the filter bound does. */
  method BuildThenGet(hash: HashFunction, bitsPerKey: nat, probes: nat, size: seq<TableEntry> -> nat,
                      full: seq<TableEntry> -> bool, entries: seq<TableEntry>, k: TableKey)
    returns (t: TableFile, ghost p: FilterProof, fits: bool, r: Option<TableEntry>)
    requires 1 <= probes <= 30 && SortedBlock(entries)
    ensures SameEntries(t.blocks, entries) && IndexOk(t.blocks, t.seps) && Grouped(t.blocks, t.offsets, p.done)
    ensures t.blocks == Chunks(CutInto(entries, full).0, CutInto(entries, full).1)
    ensures exists end :: Contiguous(size, t.blocks, t.offsets, end)
    ensures fits <==> |t.filter| < 0x1_0000_0000
    ensures Modest(size) && FilterBound(entries, bitsPerKey) < 0x1_0000_0000 ==> fits
    ensures fits ==> TableOk(hash, t, p)
    ensures fits && r.Some? ==> IsFirst([entries], k, r.value)
    ensures fits ==> forall e :: IsFirst([entries], k, e) && e.key.user == k.user ==> r == Some(e)
  {
    hide *;
    t, p := Build(hash, bitsPerKey, probes, size, full, entries);
    fits, r := |t.filter| < 0x1_0000_0000, None;
    if fits {
      r := InternalGet(hash, t, k, p);
      forall e ensures IsFirst(t.blocks, k, e) <==> IsFirst([entries], k, e) {
        SameFirst(t.blocks, entries, k, e);
      }
    }
  }

  /** Add every entry, then finish. */
  method Build(hash: HashFunction, bitsPerKey: nat, probes: nat, size: seq<TableEntry> -> nat, full: seq<TableEntry> -> bool, entries: seq<TableEntry>)
    returns (t: TableFile, ghost p: FilterProof)
    requires 1 <= probes <= 30 && SortedBlock(entries)
    ensures SameEntries(t.blocks, entries) && IndexOk(t.blocks, t.seps) && Grouped(t.blocks, t.offsets, p.done)
    ensures t.blocks == Chunks(CutInto(entries, full).0, CutInto(entries, full).1)
    ensures exists end :: Contiguous(size, t.blocks, t.offsets, end)
    ensures Modest(size) ==> |t.filter| <= FilterBound(entries, bitsPerKey)
    ensures |t.filter| < 0x1_0000_0000 ==> TableOk(hash, t, p)
  {
    hide *;
    var builder := new TableBuilder(hash, bitsPerKey, probes, size, full);
    NothingAdded();
    NothingCut(entries, full);
    for i := 0 to |entries|
      invariant builder.Valid() && fresh(builder) && fresh(builder.filter) && builder.filter.hash == hash
      invariant builder.filter.bitsPerKey == bitsPerKey && builder.size == size && builder.added == entries[..i]
      invariant SameEntries(Chunks(builder.blocks, builder.dataBlock), entries[..i])
      invariant builder.lastKey == if i == 0 then None else Some(entries[i - 1].key)
      invariant builder.full == full && CutInto(entries[..i], full) == (builder.blocks, builder.dataBlock)
    {
      InOrder(entries, i);
      CutNext(entries, full, i);
      ghost var before := Chunks(builder.blocks, builder.dataBlock);
      builder.Add(entries[i].key, entries[i].value);
      assert entries[i] == TableEntry(entries[i].key, entries[i].value);
      OneMoreEntry(before, Chunks(builder.blocks, builder.dataBlock), entries, i);
    }
    assert entries[..|entries|] == entries;
    t, p := builder.Finish();
  }

  lemma InOrder(entries: seq<TableEntry>, i: nat)
    requires SortedBlock(entries) && i < |entries|
    ensures i > 0 ==> KeyLess(entries[i - 1].key, entries[i].key)
  {
    hide KeyLess;
  }

  lemma OneMoreEntry(blocks: seq<seq<TableEntry>>, blocks': seq<seq<TableEntry>>, entries: seq<TableEntry>, i: nat)
    requires i < |entries| && SameEntries(blocks, entries[..i])
    requires forall e :: InTable(blocks', e) <==> InTable(blocks, e) || e == entries[i]
    ensures SameEntries(blocks', entries[..i + 1])
  {
    hide InTable;
    assert entries[..i + 1] == entries[..i] + [entries[i]];
  }

  lemma NothingCut(entries: seq<TableEntry>, full: seq<TableEntry> -> bool)
    ensures CutInto(entries[..0], full) == ([], []) && entries[..0] == []
  {
  }

  lemma CutNext(entries: seq<TableEntry>, full: seq<TableEntry> -> bool, i: nat)
    requires i < |entries|
    ensures var (blocks, current) := CutInto(entries[..i], full);
            var block := current + [entries[i]];
            CutInto(entries[..i + 1], full) == if full(block) then (blocks + [block], []) else (blocks, block)
  {
    assert entries[..i + 1][..i] == entries[..i] && entries[..i + 1][i] == entries[i];
  }

  lemma NothingAdded()
    ensures SameEntries(Chunks([], []), [])
  {
  }
}
