/** Reading a finished block: sequential decoding, binary search over the restart points, and stepping
    backwards. */
module BlockIter {
  import opened DbFormat
  import opened Crc
  import opened PbVarint
  import opened Block

  // ------------------------------------------------------------------------------- varints

  /** At most five bytes, each shifted into place. */
  method GetVarint32(input: Bytes, ghost v: nat, ghost rest: Bytes) returns (ok: bool, value: nat, left: Bytes)
    ensures ok ==> |left| < |input| && left == input[|input| - |left|..] && value < TWO_32
    ensures v < TWO_32 && input == Varint(v) + rest ==> ok && value == v && left == rest
  {
    hide Varint, Decoding, Pow128, WithGroup, ShiftIn;
    ghost var good := v < TWO_32 && input == Varint(v) + rest;
    var shift: nat, scale: nat, result: nat := 0, 1, 0;
    ghost var k: nat, w: nat := 0, v;
    left := input;
    NextPower(0);
    if good {
      DecodingStarts(v, input, rest);
    }
    while shift <= 28 && left != []
      invariant shift == 7 * k && scale == Pow128(k) && result < TWO_32 && |left| + k == |input| && left == input[k..]
      invariant good ==> v < TWO_32 && Decoding(v, k, result, w, left, rest)
      decreases |left|
    {
      if good {
        DecodingStep(v, k, result, w, left, rest);
      }
      var b := left[0] as nat;
      ShiftInExact(result, b % 128, k, TWO_32);
      NextPower(k);
      left := left[1..];
      result := ShiftIn(result, b % 128, scale, TWO_32);
      if b < 128 {
        return true, result, left;
      }
      shift, scale := shift + 7, scale * 128;
      k, w := k + 1, w / 128;
    }
    if good {
      GroupWithin32(v, k, result, w, left, rest);
      DecodingStep(v, k, result, w, left, rest);
    }
    return false, 0, input;
  }

  // ---------------------------------------------------------------------------- DecodeEntry

  /** The three sizes of an entry and how many bytes they take. */
  datatype EntryHeader = EntryHeader(shared: nat, nonShared: nat, valueLength: nat, size: nat)

  ghost predicate EntryGood(input: Bytes, e: BlockEntry, rest: Bytes) {
    && e.shared <= |e.key| && |e.key| < TWO_32 && |e.value| < TWO_32
    && input == EntryBytes(e) + rest
  }

  lemma EntrySplits(input: Bytes, e: BlockEntry, rest: Bytes)
    requires EntryGood(input, e, rest)
    ensures e.shared <= |e.key| < TWO_32 && |e.value| < TWO_32
    ensures var a, b, c := Varint(e.shared), Varint(|e.key| - e.shared), Varint(|e.value|);
            var tail := e.key[e.shared..] + e.value + rest;
            && input == a + (b + (c + tail)) && |a| + |b| + |c| == |Sizes(e)|
            && |tail| >= |e.key| - e.shared + |e.value| && |a| >= 1 && |b| >= 1 && |c| >= 1
  {
    hide Varint;
  }

  /** A one-byte varint is its value. */
  lemma SmallFirst(v: nat, rest: Bytes)
    requires (Varint(v) + rest)[0] < 128
    ensures Varint(v) == [(Varint(v) + rest)[0]] && v == (Varint(v) + rest)[0] as nat
  {
  }

  lemma FastPath(input: Bytes, e: BlockEntry, rest: Bytes)
    requires EntryGood(input, e, rest) && |input| >= 3 && input[0] < 128 && input[1] < 128 && input[2] < 128
    ensures e.shared == input[0] as nat && |e.key| - e.shared == input[1] as nat && |e.value| == input[2] as nat && |Sizes(e)| == 3
  {
    EntrySplits(input, e, rest);
    var a, b, c := Varint(e.shared), Varint(|e.key| - e.shared), Varint(|e.value|);
    var tail := e.key[e.shared..] + e.value + rest;
    SmallFirst(e.shared, b + (c + tail));
    hide Varint;
    assert input[1..] == b + (c + tail);
    SmallFirst(|e.key| - e.shared, c + tail);
    assert input[2..] == c + tail;
    SmallFirst(|e.value|, tail);
  }

  /** Three sizes, each of any length. */
  method SlowPath(input: Bytes, ghost x: nat, ghost y: nat, ghost z: nat, ghost tail: Bytes)
    returns (ok: bool, shared: nat, nonShared: nat, valueLength: nat, left: Bytes)
    ensures ok ==> |left| < |input|
    ensures x < TWO_32 && y < TWO_32 && z < TWO_32 && input == Varint(x) + (Varint(y) + (Varint(z) + tail))
            ==> ok && shared == x && nonShared == y && valueLength == z && left == tail
  {
    hide Varint;
    nonShared, valueLength := 0, 0;
    ok, shared, left := GetVarint32(input, x, Varint(y) + (Varint(z) + tail));
    if ok {
      ok, nonShared, left := GetVarint32(left, y, Varint(z) + tail);
    }
    if ok {
      ok, valueLength, left := GetVarint32(left, z, tail);
    }
  }

  method DecodeEntry(input: Bytes, ghost e: BlockEntry, ghost rest: Bytes) returns (r: Option<EntryHeader>)
    ensures r.Some? ==> r.value.size + r.value.nonShared + r.value.valueLength <= |input|
    ensures EntryGood(input, e, rest) ==> r == Some(EntryHeader(e.shared, |e.key| - e.shared, |e.value|, |Sizes(e)|))
  {
    hide Varint, EntryGood;
    ghost var good := EntryGood(input, e, rest);
    if good {
      EntrySplits(input, e, rest);
    }
    if |input| < 3 {
      return None;
    }
    var shared, nonShared, valueLength := input[0] as nat, input[1] as nat, input[2] as nat;
    var left := input[3..];
    if shared < 128 && nonShared < 128 && valueLength < 128 {
      if good {
        FastPath(input, e, rest);
      }
    } else {
      ghost var tail := if good then e.key[e.shared..] + e.value + rest else [];
      var ok;
      ok, shared, nonShared, valueLength, left := SlowPath(input, e.shared, if good then |e.key| - e.shared else 0, |e.value|, tail);
      if !ok {
        return None;
      }
    }
    if |left| < nonShared + valueLength {
      return None;
    }
    return Some(EntryHeader(shared, nonShared, valueLength, |input| - |left|));
  }

  // ---------------------------------------------------------------------- bytes of a block

  lemma BlockFacts(data: Bytes, es: seq<BlockEntry>, rs: seq<nat>, points: seq<nat>)
    requires BlockOk(data, es, rs, points)
    ensures Compressed(es) && RestartsOk(es, rs) && PointsOk(es, rs, points) && |data| < TWO_32
    ensures |data| == |Body(es)| + 4 * |points| + 4 && data[..|Body(es)|] == Body(es) && |points| == |rs| > 0
    ensures data[|Body(es)|..|Body(es)| + 4 * |points|] == RestartArray(points)
    ensures data[|data| - 4..] == EncodeFixed32(|points| % TWO_32)
  {
    hide Compressed, RestartsOk, Body, EncodeFixed32;
    assert |points| > 0 by {
      UnfoldRestarts(es, rs);
    }
    RestartArrayAt(points, 0);
    hide RestartArray;
  }

  lemma UnfoldRestarts(es: seq<BlockEntry>, rs: seq<nat>)
    requires RestartsOk(es, rs)
    ensures rs != [] && rs[0] == 0
  {
  }

  /** What is stored between an entry's offset and the restart array. */
  lemma EntryAtOffset(data: Bytes, es: seq<BlockEntry>, rs: seq<nat>, points: seq<nat>, c: nat)
    requires BlockOk(data, es, rs, points) && c < |es|
    ensures Offset(es, c) < Offset(es, c + 1) <= |Body(es)| <= |data| && SharesAt(es, c)
    ensures EntryGood(data[Offset(es, c)..|Body(es)|], es[c], data[Offset(es, c + 1)..|Body(es)|])
  {
    BlockFacts(data, es, rs, points);
    BodyStep(es, c);
    BodyPrefix(es, c + 1, |es|);
    BodyPrefix(es, c, c + 1);
    assert es[..|es|] == es;
    EntryLength(es[c]);
    KeyWithin(es, c);
    hide *;
    SliceOfBody(data, Body(es), Body(es[..c]), Body(es[..c + 1]), EntryBytes(es[c]));
    FoldGood(data, es, c);
  }

  lemma SubSlice(data: Bytes, a: nat, b: nat, i: nat, j: nat)
    requires a <= b <= |data| && i <= j <= b - a
    ensures data[a..b][i..j] == data[a + i..a + j]
  {
    var part := data[a..b];
    assert |part[i..j]| == |data[a + i..a + j]|;
    forall x | 0 <= x < j - i ensures part[i..j][x] == data[a + i..a + j][x] {
      assert part[i..j][x] == part[i + x] == data[a + i + x];
    }
  }

  lemma SliceOfBody(data: Bytes, body: Bytes, before: Bytes, after: Bytes, e: Bytes)
    requires |body| <= |data| && data[..|body|] == body && after <= body && after == before + e
    ensures data[|before|..|body|] == e + data[|after|..|body|]
  {
    assert data[|before|..|after|] == e by {
      SubSlice(data, 0, |body|, |before|, |after|);
      assert body[|before|..|after|] == after[|before|..|after|];
    }
    assert data[|before|..|body|] == data[|before|..|after|] + data[|after|..|body|];
  }

  /** Keys are no longer than what has been written. */
  lemma {:induction false} KeyWithin(es: seq<BlockEntry>, c: nat)
    requires Compressed(es) && c < |es|
    ensures |es[c].key| <= Offset(es, c + 1)
  {
    BodyStep(es, c);
    EntryLength(es[c]);
    if es[c].shared > 0 {
      KeyWithin(es, c - 1);
      hide Body, EntryBytes, Sizes;
    }
  }

  lemma FoldGood(data: Bytes, es: seq<BlockEntry>, c: nat)
    requires c < |es| && es[c].shared <= |es[c].key| && |data| < TWO_32 && |Body(es)| <= |data|
    requires SharesAt(es, c) && Offset(es, c + 1) == Offset(es, c) + |EntryBytes(es[c])| <= |Body(es)|
    requires |EntryBytes(es[c])| == |Sizes(es[c])| + (|es[c].key| - es[c].shared) + |es[c].value|
    requires data[Offset(es, c)..|Body(es)|] == EntryBytes(es[c]) + data[Offset(es, c + 1)..|Body(es)|]
    requires |es[c].key| <= Offset(es, c + 1)
    ensures EntryGood(data[Offset(es, c)..|Body(es)|], es[c], data[Offset(es, c + 1)..|Body(es)|])
  {
    hide Body, EntryBytes, Sizes, SharesAt;
  }

  lemma RestartPointIs(data: Bytes, es: seq<BlockEntry>, rs: seq<nat>, points: seq<nat>, k: nat)
    requires BlockOk(data, es, rs, points) && k < |points|
    ensures |Body(es)| + 4 * k + 4 <= |data| && rs[k] <= |es| && points[k] == Offset(es, rs[k])
    ensures DecodeFixed32(data[|Body(es)| + 4 * k..|Body(es)| + 4 * k + 4]) == points[k]
  {
    hide *;
    BlockFacts(data, es, rs, points);
    RestartArrayAt(points, k);
    PointWithin(es, rs, points, k);
    SubSlice(data, |Body(es)|, |Body(es)| + 4 * |points|, 4 * k, 4 * k + 4);
    Fixed32RoundTrip(points[k] % 0x1_0000_0000, []);
    assert EncodeFixed32(points[k] % 0x1_0000_0000) + [] == EncodeFixed32(points[k] % 0x1_0000_0000);
    Width();
  }

  lemma Width()
    ensures TWO_32 == 0x1_0000_0000
  {
  }

  lemma PointWithin(es: seq<BlockEntry>, rs: seq<nat>, points: seq<nat>, k: nat)
    requires Compressed(es) && PointsOk(es, rs, points) && k < |points|
    ensures rs[k] <= |es| && points[k] == Offset(es, rs[k]) <= |Body(es)|
  {
    BodyPrefix(es, rs[k], |es|);
    assert es[..|es|] == es;
  }

  // -------------------------------------------------------------------------------- iterator

  /** What rebuilding entry `c` needs of the key buffer. */
  ghost predicate KeyReady(es: seq<BlockEntry>, c: nat, key: Bytes) {
    c < |es| ==> es[c].shared <= |es[c].key| && es[c].shared <= |key| && key[..es[c].shared] == es[c].key[..es[c].shared]
  }

  lemma ReadyAfter(es: seq<BlockEntry>, c: nat)
    requires Compressed(es) && c < |es|
    ensures KeyReady(es, c + 1, es[c].key)
  {
    assert c + 1 < |es| ==> SharesAt(es, c + 1);
  }

  lemma ReadyAtRestart(es: seq<BlockEntry>, rs: seq<nat>, k: nat)
    requires Compressed(es) && RestartsOk(es, rs) && k < |rs|
    ensures KeyReady(es, rs[k], [])
  {
    assert rs[k] < |es| ==> SharesAt(es, rs[k]);
  }

  /** No restart point above `r` lies before entry `at`. */
  ghost predicate RestartOk(rs: seq<nat>, r: nat, at: nat) {
    r < |rs| && rs[r] <= at && forall k :: r < k < |rs| ==> at <= rs[k]
  }

  class Iterator {
    const data: Bytes
    const restarts: nat
    const numRestarts: nat
    const rank: Bytes -> real
    var current: nat
    var restartIndex: nat
    var key: Bytes
    var valueStart: nat
    var valueEnd: nat

    ghost const es: seq<BlockEntry>
    ghost const rs: seq<nat>
    ghost const points: seq<nat>

    /** The entry the iterator stands on; the number of entries when it stands on none. */
    ghost var at: nat

    ghost predicate Base()
      reads this
    {
      BlockOk(data, es, rs, points) && restarts == |Body(es)| && numRestarts == |points| == |rs|
    }

    ghost predicate Invariant()
      reads this
    {
      && Base() && at <= |es| && current == Offset(es, at)
      && (at < |es| ==>
            && key == es[at].key && valueStart <= valueEnd <= |data| && data[valueStart..valueEnd] == es[at].value
            && valueEnd == Offset(es, at + 1) && RestartOk(rs, restartIndex, at))
    }

    /** Ready to decode entry `c`, standing just before it. */
    ghost predicate Positioned(c: nat)
      reads this
    {
      && Base() && c <= |es| && valueEnd == Offset(es, c) && KeyReady(es, c, key)
      && restartIndex < |rs| && rs[restartIndex] <= c
    }

    /** Read the number of restart points from the end of the block.  The comparator is given as an order
        embedding into the reals. */
    constructor (data: Bytes, rank: Bytes -> real, ghost es: seq<BlockEntry>, ghost rs: seq<nat>, ghost points: seq<nat>)
      requires BlockOk(data, es, rs, points)
      ensures Invariant() && this.data == data && this.rank == rank && this.es == es && at == |es|
    {
      hide BlockOk, Body, EncodeFixed32, DecodeFixed32;
      BlockFacts(data, es, rs, points);
      var n := DecodeFixed32(data[|data| - 4..]);
      CountIs(data, points);
      this.data, this.rank, numRestarts := data, rank, n;
      restarts := |data| - (1 + n) * 4;
      current := |data| - (1 + n) * 4;
      restartIndex, key, valueStart, valueEnd := n, [], 0, 0;
      this.es, this.rs, this.points := es, rs, points;
      at := |es|;
      assert es[..|es|] == es;
    }

    predicate Valid()
      reads this
    {
      current < restarts
    }

    /** Valid exactly on an entry. */
    lemma ValidMeans()
      requires Invariant()
      ensures Valid() <==> at < |es|
    {
      BlockFacts(data, es, rs, points);
      assert es[..|es|] == es;
      if at < |es| {
        EntryAtOffset(data, es, rs, points, at);
      }
    }

    function GetRestartPoint(k: nat): (r: nat)
      requires Base() && k < numRestarts
      reads this
      ensures r == points[k] && rs[k] <= |es| && points[k] == Offset(es, rs[k])
    {
      RestartPointIs(data, es, rs, points, k);
      DecodeFixed32(data[restarts + 4 * k..restarts + 4 * k + 4])
    }

    method SeekToRestartPoint(k: nat)
      requires Base() && k < numRestarts
      modifies this`key, this`restartIndex, this`valueStart, this`valueEnd
      ensures Positioned(rs[k]) && restartIndex == k
    {
      hide BlockOk, Body, KeyReady;
      BlockFacts(data, es, rs, points);
      ReadyAtRestart(es, rs, k);
      var offset := GetRestartPoint(k);
      key, restartIndex, valueStart, valueEnd := [], k, offset, offset;
    }

    /** Decode the entry that starts where the current value ends. */
    method ParseNextKey(ghost c: nat) returns (found: bool)
      requires Positioned(c)
      modifies this`current, this`restartIndex, this`key, this`valueStart, this`valueEnd, this`at
      ensures Invariant() && at == c && (found <==> c < |es|)
    {
      hide BlockOk, Body, EntryBytes, Sizes, SharesAt, Compressed, RestartsOk, EntryGood, RestartOk;
      BlockFacts(data, es, rs, points);
      OffsetBelow(es, c);
      at := c;
      if valueEnd >= restarts {
        current, restartIndex := restarts, numRestarts;
        return false;
      }
      current := valueEnd;
      DecodeCurrent(c);
      AdvanceRestart(c);
      found := true;
    }

    /** The current entry's key from the previous one's, and where its value lies. */
    method DecodeCurrent(ghost c: nat)
      requires Base() && c < |es| && current == Offset(es, c) && KeyReady(es, c, key)
      modifies this`key, this`valueStart, this`valueEnd
      ensures key == es[c].key && valueStart <= valueEnd <= |data| && data[valueStart..valueEnd] == es[c].value
      ensures valueEnd == Offset(es, c + 1)
    {
      hide BlockOk, Body, EntryBytes, Sizes, SharesAt, Compressed, RestartsOk, EntryGood, RestartOk;
      BlockFacts(data, es, rs, points);
      EntryAtOffset(data, es, rs, points, c);
      ghost var e, rest := es[c], data[Offset(es, c + 1)..restarts];
      var header := DecodeEntry(data[current..restarts], e, rest);
      var h := header.value;
      EntryParts(data, current, restarts, e, rest, key, Offset(es, c + 1));
      var p := current + h.size;
      key := key[..h.shared] + data[p..p + h.nonShared];
      valueStart, valueEnd := p + h.nonShared, p + h.nonShared + h.valueLength;
    }

    /** Move the restart index up to the last restart point before the entry. */
    method AdvanceRestart(ghost c: nat)
      requires Base() && c < |es| && current == Offset(es, c) && restartIndex < |rs| && rs[restartIndex] <= c
      modifies this`restartIndex
      ensures RestartOk(rs, restartIndex, c)
    {
      hide BlockOk, Body;
      BlockFacts(data, es, rs, points);
      while restartIndex + 1 < numRestarts && GetRestartPoint(restartIndex + 1) < current
        invariant restartIndex < |rs| && rs[restartIndex] <= c
        decreases |rs| - restartIndex
      {
        OffsetOrder(es, rs[restartIndex + 1], c);
        restartIndex := restartIndex + 1;
      }
      if restartIndex + 1 < numRestarts {
        OffsetOrder(es, rs[restartIndex + 1], c);
        RestartsAbove(es, rs, restartIndex + 1, c);
      }
    }

    /** Step to the next entry. */
    method Next()
      requires Invariant() && at < |es|
      modifies this`current, this`restartIndex, this`key, this`valueStart, this`valueEnd, this`at
      ensures Invariant() && at == old(at) + 1
    {
      hide BlockOk, Body, KeyReady;
      BetweenEntries(this);
      var _ := ParseNextKey(at + 1);
    }

    method SeekToFirst()
      requires Invariant()
      modifies this`current, this`restartIndex, this`key, this`valueStart, this`valueEnd, this`at
      ensures Invariant() && at == 0
    {
      hide BlockOk, Body, KeyReady;
      BlockFacts(data, es, rs, points);
      UnfoldRestarts(es, rs);
      SeekToRestartPoint(0);
      var _ := ParseNextKey(0);
    }

    /** Walk from the last restart point to the last entry. */
    method SeekToLast()
      requires Invariant()
      modifies this`current, this`restartIndex, this`key, this`valueStart, this`valueEnd, this`at
      ensures Invariant() && at == if es == [] then 0 else |es| - 1
    {
      hide BlockOk, Body, KeyReady, RestartsOk, RestartOk;
      BlockFacts(data, es, rs, points);
      LastRestart(es, rs);
      SeekToRestartPoint(numRestarts - 1);
      ghost var c := rs[numRestarts - 1];
      while true
        invariant Positioned(c) && (es != [] ==> c < |es|) && (es == [] ==> c == 0)
        decreases |es| - c
      {
        var found := ParseNextKey(c);
        if !found {
          return;
        }
        OffsetBelow(es, c + 1);
        if valueEnd >= restarts {
          return;
        }
        BetweenEntries(this);
        c := c + 1;
      }
    }

    /** Step back: from the last restart point before the entry, walk up to its predecessor. */
    method Prev()
      requires Invariant() && at < |es|
      modifies this`current, this`restartIndex, this`key, this`valueStart, this`valueEnd, this`at
      ensures Invariant() && at == if old(at) == 0 then |es| else old(at) - 1
    {
      hide BlockOk, Body, KeyReady, RestartsOk;
      BlockFacts(data, es, rs, points);
      ghost var target := at;
      var original := current;
      while GetRestartPoint(restartIndex) >= original
        invariant restartIndex < |rs| && original == Offset(es, target)
        decreases restartIndex
      {
        OffsetOrder(es, rs[restartIndex], target);
        if restartIndex == 0 {
          UnfoldRestarts(es, rs);
          current, restartIndex := restarts, numRestarts;
          at := |es|;
          assert es[..|es|] == es;
          return;
        }
        restartIndex := restartIndex - 1;
      }
      OffsetOrder(es, rs[restartIndex], target);
      WalkUpTo(original, target);
    }

    /** From a restart point before the entry at `original`, walk up to the entry before it. */
    method WalkUpTo(original: nat, ghost target: nat)
      requires Base() && target < |es| && original == Offset(es, target) && restartIndex < |rs| && rs[restartIndex] < target
      modifies this`current, this`restartIndex, this`key, this`valueStart, this`valueEnd, this`at
      ensures Invariant() && at == target - 1
    {
      hide BlockOk, Body, KeyReady, RestartsOk;
      BlockFacts(data, es, rs, points);
      SeekToRestartPoint(restartIndex);
      ghost var c := rs[restartIndex];
      while true
        invariant Positioned(c) && c < target
        decreases target - c
      {
        var _ := ParseNextKey(c);
        OffsetOrder(es, c + 1, target);
        if valueEnd >= original {
          return;
        }
        BetweenEntries(this);
        c := c + 1;
      }
    }

    /** Binary search for a restart point whose key is before the target, or the first. */
    method FindRestart(target: Bytes) returns (left: nat)
      requires Base()
      ensures left < |rs| && (left > 0 ==> rs[left] < |es| && rank(es[rs[left]].key) < rank(target))
    {
      hide BlockOk, Body, EntryBytes, Sizes, EntryGood, Compressed, PointsOk;
      BlockFacts(data, es, rs, points);
      var right := numRestarts - 1;
      left := 0;
      while left < right
        invariant left <= right < numRestarts
        invariant left > 0 ==> rs[left] < |es| && rank(es[rs[left]].key) < rank(target)
      {
        var mid := (left + right + 1) / 2;
        RestartInside(es, rs, mid);
        var midKey := RestartKey(mid);
        if rank(midKey) < rank(target) {
          left := mid;
        } else {
          right := mid - 1;
        }
      }
    }

    /** The key stored at a restart point. */
    method RestartKey(k: nat) returns (r: Bytes)
      requires Base() && k < |rs| && rs[k] < |es| && es[rs[k]].shared == 0
      ensures r == es[rs[k]].key
    {
      hide BlockOk, Body, EntryBytes, Sizes, EntryGood;
      var offset := GetRestartPoint(k);
      EntryAtOffset(data, es, rs, points, rs[k]);
      ghost var e, rest := es[rs[k]], data[Offset(es, rs[k] + 1)..restarts];
      var header := DecodeEntry(data[offset..restarts], e, rest);
      var h := header.value;
      WholeKey(data, offset, restarts, e, rest, Offset(es, rs[k] + 1));
      r := data[offset + h.size..offset + h.size + h.nonShared];
    }

    /** Binary search over the restart points, then a scan: the first entry at or after the target. */
    method Seek(target: Bytes)
      requires Invariant() && KeysSorted(rank, es)
      modifies this`current, this`restartIndex, this`key, this`valueStart, this`valueEnd, this`at
      ensures Invariant()
      ensures forall i :: 0 <= i < at ==> rank(es[i].key) < rank(target)
      ensures at < |es| ==> rank(es[at].key) >= rank(target)
    {
      hide BlockOk, Body, KeyReady, RestartOk, RestartsOk, KeysSorted;
      BlockFacts(data, es, rs, points);
      UnfoldRestarts(es, rs);
      var left := FindRestart(target);
      SeekToRestartPoint(left);
      ghost var c := rs[left];
      AllBefore(rank, es, c, target, left > 0);
      while true
        invariant Positioned(c) && forall i :: 0 <= i < c ==> rank(es[i].key) < rank(target)
        decreases |es| - c
      {
        var found := ParseNextKey(c);
        if !found || rank(key) >= rank(target) {
          return;
        }
        BetweenEntries(this);
        c := c + 1;
      }
    }
  }

  lemma BetweenEntries(it: Iterator)
    requires it.Invariant() && it.at < |it.es|
    ensures it.Positioned(it.at + 1)
  {
    hide BlockOk, Body, KeyReady;
    BlockFacts(it.data, it.es, it.rs, it.points);
    ReadyAfter(it.es, it.at);
  }

  ghost predicate KeysSorted(rank: Bytes -> real, es: seq<BlockEntry>) {
    forall i, j :: 0 <= i < j < |es| ==> rank(es[i].key) < rank(es[j].key)
  }

  lemma AllBefore(rank: Bytes -> real, es: seq<BlockEntry>, c: nat, target: Bytes, known: bool)
    requires KeysSorted(rank, es) && c <= |es| && (known ==> c < |es| && rank(es[c].key) < rank(target)) && (!known ==> c == 0)
    ensures forall i :: 0 <= i < c ==> rank(es[i].key) < rank(target)
  {
  }

  lemma RestartInside(es: seq<BlockEntry>, rs: seq<nat>, k: nat)
    requires RestartsOk(es, rs) && 0 < k < |rs|
    ensures rs[k] < |es| && es[rs[k]].shared == 0
  {
  }

  lemma LastRestart(es: seq<BlockEntry>, rs: seq<nat>)
    requires RestartsOk(es, rs)
    ensures rs != [] && (es != [] ==> rs[|rs| - 1] < |es|) && (es == [] ==> rs[|rs| - 1] == 0)
  {
  }

  lemma RestartsAbove(es: seq<BlockEntry>, rs: seq<nat>, k: nat, c: nat)
    requires RestartsOk(es, rs) && k < |rs| && c <= rs[k]
    ensures forall l :: k <= l < |rs| ==> c <= rs[l]
  {
  }

  lemma OffsetOrder(es: seq<BlockEntry>, i: nat, j: nat)
    requires Compressed(es) && i <= |es| && j <= |es|
    ensures Offset(es, i) < Offset(es, j) <==> i < j
  {
    if i <= j {
      BodyPrefix(es, i, j);
    } else {
      BodyPrefix(es, j, i);
    }
  }

  lemma OffsetBelow(es: seq<BlockEntry>, c: nat)
    requires Compressed(es) && c <= |es|
    ensures Offset(es, c) < |Body(es)| <==> c < |es|
    ensures Offset(es, c) <= |Body(es)|
  {
    BodyPrefix(es, c, |es|);
    assert es[..|es|] == es;
    OffsetOrder(es, c, |es|);
  }

  /** Key and value of an entry, cut out of the data. */
  lemma EntryParts(data: Bytes, at: nat, limit: nat, e: BlockEntry, rest: Bytes, key: Bytes, next: nat)
    requires at <= next <= limit <= |data| && EntryGood(data[at..limit], e, rest) && rest == data[next..limit]
    requires e.shared <= |key| && e.shared <= |e.key| && key[..e.shared] == e.key[..e.shared]
    ensures var p, n := at + |Sizes(e)|, |e.key| - e.shared;
            && p + n + |e.value| == next && key[..e.shared] + data[p..p + n] == e.key
            && data[p + n..p + n + |e.value|] == e.value
  {
    EntryLength(e);
    var part := data[at..limit];
    var s, n := |Sizes(e)|, |e.key| - e.shared;
    assert |part| == |EntryBytes(e)| + |rest|;
    assert part == Sizes(e) + e.key[e.shared..] + e.value + rest;
    hide *;
    SubSlice(data, at, limit, s, s + n);
    SubSlice(data, at, limit, s + n, s + n + |e.value|);
    ThreeParts(Sizes(e), e.key[e.shared..], e.value, rest);
    assert e.key[..e.shared] + e.key[e.shared..] == e.key;
  }

  lemma ThreeParts(a: Bytes, b: Bytes, c: Bytes, d: Bytes)
    ensures (a + b + c + d)[|a|..|a| + |b|] == b
    ensures (a + b + c + d)[|a| + |b|..|a| + |b| + |c|] == c
  {
  }

  /** At a restart point the whole key is stored. */
  lemma WholeKey(data: Bytes, at: nat, limit: nat, e: BlockEntry, rest: Bytes, next: nat)
    requires at <= next <= limit <= |data| && EntryGood(data[at..limit], e, rest) && rest == data[next..limit] && e.shared == 0
    ensures at + |Sizes(e)| + |e.key| <= next && data[at + |Sizes(e)|..at + |Sizes(e)| + |e.key|] == e.key
  {
    hide EntryGood, EntryBytes, Sizes;
    EntryParts(data, at, limit, e, rest, [], next);
    var p := at + |Sizes(e)|;
    assert [][..0] + data[p..p + |e.key|] == data[p..p + |e.key|];
  }

  lemma CountIs(data: Bytes, points: seq<nat>)
    requires |points| < TWO_32 && |data| >= 4 && data[|data| - 4..] == EncodeFixed32(|points| % TWO_32)
    ensures DecodeFixed32(data[|data| - 4..]) == |points|
  {
    hide EncodeFixed32, DecodeFixed32;
    Fixed32RoundTrip(|points|, []);
    assert EncodeFixed32(|points|) + [] == EncodeFixed32(|points|);
  }

  // ------------------------------------------------------------------------------ round trip

  ghost predicate Holds(es: seq<BlockEntry>, pairs: seq<(Bytes, Bytes)>) {
    |es| == |pairs| && forall i :: 0 <= i < |es| ==> pairs[i] == (es[i].key, es[i].value)
  }

  /** The bytes of all keys and values. */
  ghost function PairBytes(pairs: seq<(Bytes, Bytes)>): nat {
    if pairs == [] then 0 else PairBytes(pairs[..|pairs| - 1]) + |pairs[|pairs| - 1].0| + |pairs[|pairs| - 1].1|
  }

  lemma {:induction false} SameBytes(es: seq<BlockEntry>, pairs: seq<(Bytes, Bytes)>)
    requires Holds(es, pairs)
    ensures TotalBytes(es) == PairBytes(pairs)
  {
    if es != [] {
      SameBytes(es[..|es| - 1], pairs[..|pairs| - 1]);
    }
  }

  /** Any pairs, any restart interval: the block built holds exactly the pairs, with a restart at every multiple of
      the interval, and if its offsets fit into 32 bits what was added comes back, in order.  They fit if the keys
      and values leave nineteen bytes an entry and eight more. */
  method RoundTrip(pairs: seq<(Bytes, Bytes)>, restartInterval: nat, rank: Bytes -> real)
    returns (data: Bytes, fits: bool, out: seq<(Bytes, Bytes)>, ghost es: seq<BlockEntry>, ghost rs: seq<nat>, ghost points: seq<nat>)
    requires restartInterval >= 1
    ensures data == Finished(es, points) && Compressed(es) && RestartsOk(es, rs) && PointsOk(es, rs, points)
    ensures Holds(es, pairs) && forall k :: 0 <= k < |rs| ==> rs[k] == k * restartInterval
    ensures |pairs| <= |rs| * restartInterval
    ensures fits <==> |data| < 0x1_0000_0000
    ensures fits ==> out == pairs
    ensures PairBytes(pairs) + 19 * |pairs| + 8 < 0x1_0000_0000 ==> fits
  {
    hide *;
    var builder := BuildBlock(pairs, restartInterval);
    BuiltFacts(builder);
    data := builder.Finish();
    es, rs, points := builder.es, builder.rs, builder.restarts;
    fits, out := |data| < 0x1_0000_0000, [];
    if PairBytes(pairs) + 19 * |pairs| + 8 < 0x1_0000_0000 {
      SameBytes(es, pairs);
      SameLength(es, pairs, rs, points);
      FinishedAtMost(es, rs, points);
    }
    if fits {
      FinishedIsBlock(builder, data);
      var it := new Iterator(data, rank, es, rs, points);
      out := CollectAll(it, pairs);
    }
  }

  lemma SameLength(es: seq<BlockEntry>, pairs: seq<(Bytes, Bytes)>, rs: seq<nat>, points: seq<nat>)
    requires Holds(es, pairs) && PointsOk(es, rs, points)
    ensures |es| == |pairs| && |points| == |rs|
  {
  }

  method BuildBlock(pairs: seq<(Bytes, Bytes)>, restartInterval: nat) returns (builder: BlockBuilder)
    requires restartInterval >= 1
    ensures fresh(builder) && builder.Valid() && Holds(builder.es, pairs) && builder.restartInterval == restartInterval
    ensures |pairs| <= |builder.rs| * restartInterval
  {
    hide BuilderOk, BlockOk, Finished, EntryBytes, Cadence;
    builder := new BlockBuilder(restartInterval);
    for i := 0 to |pairs|
      invariant builder.Valid() && Holds(builder.es, pairs[..i]) && builder.restartInterval == restartInterval && fresh(builder)
    {
      builder.Add(pairs[i].0, pairs[i].1);
    }
    assert pairs[..|pairs|] == pairs;
    LastRun(builder.es, builder.rs, restartInterval, builder.counter);
  }

  lemma LastRun(es: seq<BlockEntry>, rs: seq<nat>, interval: nat, counter: nat)
    requires Cadence(es, rs, interval, counter) && counter <= interval
    ensures |es| <= |rs| * interval
  {
    assert |rs| * interval == (|rs| - 1) * interval + interval;
  }

  lemma BuiltFacts(builder: BlockBuilder)
    requires builder.Valid()
    ensures Compressed(builder.es) && RestartsOk(builder.es, builder.rs) && PointsOk(builder.es, builder.rs, builder.restarts)
    ensures forall k :: 0 <= k < |builder.rs| ==> builder.rs[k] == k * builder.restartInterval
  {
    hide Compressed, RestartsOk, PointsOk, Body;
  }

  lemma FinishedIsBlock(builder: BlockBuilder, data: Bytes)
    requires builder.Valid() && data == Finished(builder.es, builder.restarts) && |data| < 0x1_0000_0000
    ensures BlockOk(data, builder.es, builder.rs, builder.restarts)
  {
    hide Finished, Compressed, RestartsOk, PointsOk, Body;
  }

  method CollectAll(it: Iterator, ghost pairs: seq<(Bytes, Bytes)>) returns (out: seq<(Bytes, Bytes)>)
    requires it.Invariant() && Holds(it.es, pairs)
    modifies it
    ensures out == pairs
  {
    hide BlockOk, Body, RestartOk;
    it.SeekToFirst();
    out := [];
    it.ValidMeans();
    while it.Valid()
      invariant it.Invariant() && out == pairs[..it.at] && (it.Valid() <==> it.at < |it.es|)
      decreases |it.es| - it.at
    {
      out := out + [(it.key, it.data[it.valueStart..it.valueEnd])];
      it.Next();
      it.ValidMeans();
    }
    assert pairs[..|pairs|] == pairs;
  }
}
