/** Data blocks: prefix-compressed entries with restart points, as bytes. */
module Block {
  import opened DbFormat
  import opened Crc
  import opened PbVarint

  /** An entry and how many leading key bytes it shares with its predecessor. */
  datatype BlockEntry = BlockEntry(key: Bytes, value: Bytes, shared: nat)

  function Sizes(e: BlockEntry): (r: Bytes)
    requires e.shared <= |e.key|
  {
    Varint(e.shared) + Varint(|e.key| - e.shared) + Varint(|e.value|)
  }

  function EntryBytes(e: BlockEntry): (r: Bytes)
    requires e.shared <= |e.key|
  {
    Sizes(e) + e.key[e.shared..] + e.value
  }

  /** Entry `i` can be rebuilt from its predecessor's key. */
  ghost predicate SharesAt(es: seq<BlockEntry>, i: nat)
    requires i < |es|
  {
    && es[i].shared <= |es[i].key|
    && (es[i].shared > 0 ==> i > 0 && es[i].shared <= |es[i - 1].key| && es[i].key[..es[i].shared] == es[i - 1].key[..es[i].shared])
  }

  ghost predicate Compressed(es: seq<BlockEntry>) {
    forall i :: 0 <= i < |es| ==> SharesAt(es, i)
  }

  ghost function Body(es: seq<BlockEntry>): Bytes {
    if es == [] then []
    else Body(es[..|es| - 1]) + (var e := es[|es| - 1]; if e.shared <= |e.key| then EntryBytes(e) else [])
  }

  /** Where entry `i` starts. */
  ghost function Offset(es: seq<BlockEntry>, i: nat): nat
    requires i <= |es|
  {
    |Body(es[..i])|
  }

  lemma BodyStep(es: seq<BlockEntry>, i: nat)
    requires Compressed(es) && i < |es|
    ensures SharesAt(es, i)
    ensures Body(es[..i + 1]) == Body(es[..i]) + EntryBytes(es[i])
    ensures Offset(es, i + 1) == Offset(es, i) + |EntryBytes(es[i])|
  {
    assert es[..i + 1][..i] == es[..i] && es[..i + 1][i] == es[i];
    assert SharesAt(es, i);
  }

  lemma EntryLength(e: BlockEntry)
    requires e.shared <= |e.key|
    ensures |EntryBytes(e)| == |Sizes(e)| + (|e.key| - e.shared) + |e.value| && |Sizes(e)| >= 3
  {
    hide Varint;
  }

  lemma {:induction false} BodyPrefix(es: seq<BlockEntry>, i: nat, j: nat)
    requires Compressed(es) && i <= j <= |es|
    ensures Body(es[..i]) <= Body(es[..j])
    ensures Offset(es, j) >= Offset(es, i) + (j - i)
    decreases j - i
  {
    if i < j {
      BodyStep(es, i);
      EntryLength(es[i]);
      BodyPrefix(es, i + 1, j);
      hide Body, EntryBytes, SharesAt;
    }
  }

  // --------------------------------------------------------------------------------- sizes

  /** A 32-bit number takes at most five bytes, so an entry at most fifteen more than its key and value. */
  lemma EntryAtMost(e: BlockEntry)
    requires e.shared <= |e.key| < 0x1_0000_0000 && |e.value| < 0x1_0000_0000
    ensures |EntryBytes(e)| <= |e.key| + |e.value| + 15
  {
    SmallPowers();
    VarintLength(e.shared, 5);
    VarintLength(|e.key| - e.shared, 5);
    VarintLength(|e.value|, 5);
    hide Varint, Pow128;
  }

  /** The bytes of all keys and values. */
  ghost function TotalBytes(es: seq<BlockEntry>): nat {
    if es == [] then 0 else TotalBytes(es[..|es| - 1]) + |es[|es| - 1].key| + |es[|es| - 1].value|
  }

  lemma {:induction false} BodyAtMost(es: seq<BlockEntry>)
    requires TotalBytes(es) < 0x1_0000_0000
    ensures |Body(es)| <= TotalBytes(es) + 15 * |es|
  {
    if es != [] {
      BodyAtMost(es[..|es| - 1]);
      var e := es[|es| - 1];
      if e.shared <= |e.key| {
        EntryAtMost(e);
      }
      hide EntryBytes;
    }
  }

  /** A block is at most nineteen bytes an entry larger than its keys and values, and eight bytes more. */
  lemma FinishedAtMost(es: seq<BlockEntry>, rs: seq<nat>, points: seq<nat>)
    requires RestartsOk(es, rs) && |points| == |rs| && TotalBytes(es) < 0x1_0000_0000
    ensures |Finished(es, points)| <= TotalBytes(es) + 19 * |es| + 8
  {
    BodyAtMost(es);
    RestartCount(es, rs, |rs| - 1);
    RestartArrayAt(points, 0);
    hide Body, RestartArray;
  }

  lemma {:induction false} RestartCount(es: seq<BlockEntry>, rs: seq<nat>, k: nat)
    requires RestartsOk(es, rs) && k < |rs|
    ensures rs[k] >= k && k <= |es|
  {
    if k > 0 {
      RestartCount(es, rs, k - 1);
    }
  }

  // ------------------------------------------------------------------------ restart points

  /** `rs` are the entries at which compression restarts. */
  ghost predicate RestartsOk(es: seq<BlockEntry>, rs: seq<nat>) {
    && rs != [] && rs[0] == 0
    && (forall k :: 0 < k < |rs| ==> rs[k] < |es|)
    && (forall k :: 0 <= k < |rs| && rs[k] < |es| ==> es[rs[k]].shared == 0)
    && (forall k, l :: 0 <= k < l < |rs| ==> rs[k] < rs[l])
  }

  ghost function RestartArray(points: seq<nat>): Bytes {
    if points == [] then []
    else RestartArray(points[..|points| - 1]) + EncodeFixed32(points[|points| - 1] % 0x1_0000_0000)
  }

  lemma {:induction false} RestartArrayAt(points: seq<nat>, k: nat)
    requires k < |points|
    ensures |RestartArray(points)| == 4 * |points|
    ensures RestartArray(points)[4 * k..4 * k + 4] == EncodeFixed32(points[k] % 0x1_0000_0000)
    decreases |points|
  {
    var n := |points| - 1;
    var init := points[..n];
    if n > 0 {
      RestartArrayAt(init, if k < n then k else 0);
    }
    hide EncodeFixed32;
    var last := EncodeFixed32(points[n] % 0x1_0000_0000);
    assert RestartArray(points) == RestartArray(init) + last && |RestartArray(init)| == 4 * n;
    hide RestartArray;
    if k < n {
      SliceOfFirst(RestartArray(init), last, 4 * k, 4 * k + 4);
    } else {
      SliceOfSecond(RestartArray(init), last);
    }
  }

  lemma SliceOfFirst(a: Bytes, b: Bytes, i: nat, j: nat)
    requires i <= j <= |a|
    ensures (a + b)[i..j] == a[i..j]
  {
  }

  lemma SliceOfSecond(a: Bytes, b: Bytes)
    ensures (a + b)[|a|..|a| + |b|] == b
  {
  }

  /** A finished block. */
  ghost function Finished(es: seq<BlockEntry>, points: seq<nat>): Bytes {
    Body(es) + RestartArray(points) + EncodeFixed32(|points| % 0x1_0000_0000)
  }

  ghost predicate PointsOk(es: seq<BlockEntry>, rs: seq<nat>, points: seq<nat>) {
    |points| == |rs| && forall k :: 0 <= k < |rs| ==> rs[k] <= |es| && points[k] == Offset(es, rs[k])
  }

  /** `data` is the finished block of entries `es` with restarts `rs`. */
  ghost predicate BlockOk(data: Bytes, es: seq<BlockEntry>, rs: seq<nat>, points: seq<nat>) {
    Compressed(es) && RestartsOk(es, rs) && PointsOk(es, rs, points) && data == Finished(es, points) && |data| < 0x1_0000_0000
  }

  // --------------------------------------------------------------------------- BlockBuilder

  lemma UnfoldEntry(e: BlockEntry)
    requires e.shared <= |e.key|
    ensures EntryBytes(e) == Varint(e.shared) + Varint(|e.key| - e.shared) + Varint(|e.value|) + e.key[e.shared..] + e.value
  {
    hide Varint;
  }

  lemma BodyOfPrefix(es: seq<BlockEntry>, e: BlockEntry)
    requires e.shared <= |e.key|
    ensures Body(es + [e]) == Body(es) + EntryBytes(e)
    ensures forall i :: 0 <= i <= |es| ==> (es + [e])[..i] == es[..i]
  {
    assert (es + [e])[..|es|] == es;
    hide EntryBytes;
  }

  lemma CompressedSnoc(es: seq<BlockEntry>, e: BlockEntry)
    requires Compressed(es) && e.shared <= |e.key|
    requires e.shared > 0 ==> es != [] && e.shared <= |es[|es| - 1].key| && e.key[..e.shared] == es[|es| - 1].key[..e.shared]
    ensures Compressed(es + [e])
  {
    var more := es + [e];
    forall i | 0 <= i < |more| ensures SharesAt(more, i) {
      assert i < |es| ==> SharesAt(es, i);
    }
  }

  lemma RestartsSnoc(es: seq<BlockEntry>, rs: seq<nat>, e: BlockEntry, restart: bool)
    requires RestartsOk(es, rs) && (restart ==> e.shared == 0 && es != []) && (es == [] ==> e.shared == 0)
    ensures RestartsOk(es + [e], if restart then rs + [|es|] else rs)
  {
  }

  lemma PointsSnoc(es: seq<BlockEntry>, rs: seq<nat>, points: seq<nat>, e: BlockEntry, restart: bool)
    requires PointsOk(es, rs, points) && e.shared <= |e.key|
    ensures PointsOk(es + [e], if restart then rs + [|es|] else rs, if restart then points + [|Body(es)|] else points)
  {
    BodyOfPrefix(es, e);
    assert es[..|es|] == es;
    hide Body;
  }

  /** Entry `e` may come next. */
  ghost predicate CanFollow(es: seq<BlockEntry>, e: BlockEntry) {
    && e.shared <= |e.key|
    && (e.shared > 0 ==> es != [] && e.shared <= |es[|es| - 1].key| && e.key[..e.shared] == es[|es| - 1].key[..e.shared])
  }

  ghost predicate BuilderOk(buffer: Bytes, es: seq<BlockEntry>, rs: seq<nat>, points: seq<nat>) {
    Compressed(es) && RestartsOk(es, rs) && PointsOk(es, rs, points) && buffer == Body(es)
  }

  /** One more entry, with or without a restart before it. */
  lemma EntryAdded(buffer: Bytes, es: seq<BlockEntry>, rs: seq<nat>, points: seq<nat>, e: BlockEntry)
    requires BuilderOk(buffer, es, rs, points) && CanFollow(es, e)
    ensures BuilderOk(buffer + EntryBytes(e), es + [e], rs, points)
    ensures e.shared == 0 && es != [] ==> BuilderOk(buffer + EntryBytes(e), es + [e], rs + [|es|], points + [|buffer|])
  {
    hide Compressed, RestartsOk, PointsOk, Body, EntryBytes;
    CompressedSnoc(es, e);
    BodyOfPrefix(es, e);
    RestartsSnoc(es, rs, e, false);
    PointsSnoc(es, rs, points, e, false);
    if e.shared == 0 && es != [] {
      RestartsSnoc(es, rs, e, true);
      PointsSnoc(es, rs, points, e, true);
    }
  }

  lemma CadenceStep(es: seq<BlockEntry>, rs: seq<nat>, interval: nat, counter: nat)
    requires Cadence(es, rs, interval, counter) && counter <= interval
    ensures counter == interval <==> |es| == |rs| * interval
  {
    assert |rs| * interval == (|rs| - 1) * interval + interval;
  }

  lemma CadenceKept(es: seq<BlockEntry>, rs: seq<nat>, interval: nat, counter: nat, e: BlockEntry, rs': seq<nat>)
    requires Cadence(es, rs, interval, counter) && rs' == if counter < interval then rs else rs + [|es|]
    requires counter <= interval
    ensures Cadence(es + [e], rs', interval, if counter < interval then counter + 1 else 1)
  {
    assert |rs| * interval == (|rs| - 1) * interval + interval;
  }

  class BlockBuilder {
    var buffer: Bytes
    var restarts: seq<nat>
    var counter: nat
    var lastKey: Bytes
    const restartInterval: nat

    ghost var es: seq<BlockEntry>
    ghost var rs: seq<nat>

    ghost predicate Valid()
      reads this
    {
      && restartInterval >= 1 && counter <= restartInterval
      && BuilderOk(buffer, es, rs, restarts) && Cadence(es, rs, restartInterval, counter)
      && lastKey == (if es == [] then [] else es[|es| - 1].key) && (es == [] ==> counter == 0)
    }

    constructor (restartInterval: nat)
      requires restartInterval >= 1
      ensures Valid() && es == [] && rs == [0] && this.restartInterval == restartInterval
    {
      this.restartInterval := restartInterval;
      buffer, restarts, counter, lastKey := [], [0], 0, [];
      es, rs := [], [0];
    }

    /** The finished block: data, restart points, their number. */
    method Finish() returns (data: Bytes)
      requires Valid()
      ensures data == Finished(es, restarts)
    {
      hide Body, Compressed, RestartsOk, PointsOk, EncodeFixed32;
      data := buffer;
      for k := 0 to |restarts|
        invariant data == Body(es) + RestartArray(restarts[..k])
      {
        assert restarts[..k + 1][..k] == restarts[..k];
        data := data + EncodeFixed32(restarts[k] % 0x1_0000_0000);
      }
      assert restarts[..|restarts|] == restarts;
      data := data + EncodeFixed32(|restarts| % 0x1_0000_0000);
    }

    /** Every `restartInterval` entries a key is stored whole; every other key shares as much as it can with the
        one before it. */
    method Add(key: Bytes, value: Bytes)
      requires Valid()
      modifies this
      ensures Valid() && |es| == |old(es)| + 1 && old(es) == es[..|old(es)|]
      ensures es[|old(es)|].key == key && es[|old(es)|].value == value
      ensures rs == if |old(es)| == |old(rs)| * restartInterval then old(rs) + [|old(es)|] else old(rs)
      ensures if |old(es)| == |old(rs)| * restartInterval || old(es) == [] then es[|old(es)|].shared == 0
              else LongestShared(old(es)[|old(es)| - 1].key, key, es[|old(es)|].shared)
    {
      hide BuilderOk, EntryBytes, Varint;
      CadenceStep(es, rs, restartInterval, counter);
      hide Cadence;
      var shared, points, position := 0, restarts, counter;
      if counter < restartInterval {
        shared := SharedPrefix(lastKey, key);
      } else {
        points, position := restarts + [|buffer|], 0;
      }
      ghost var e := BlockEntry(key, value, shared);
      EntryAdded(buffer, es, rs, restarts, e);
      UnfoldEntry(e);
      var sizes := Varint(shared) + Varint(|key| - shared) + Varint(|value|);
      ghost var rs' := if counter < restartInterval then rs else rs + [|es|];
      CadenceKept(es, rs, restartInterval, counter, e, rs');
      buffer, restarts := buffer + (sizes + key[shared..] + value), points;
      lastKey, counter := lastKey[..shared] + key[shared..], position + 1;
      es, rs := es + [e], rs';
    }
  }

  /** Restarts are at the multiples of the interval, and `counter` entries follow the last of them. */
  ghost predicate Cadence(es: seq<BlockEntry>, rs: seq<nat>, interval: nat, counter: nat) {
    && rs != [] && |es| == (|rs| - 1) * interval + counter
    && forall k :: 0 <= k < |rs| ==> rs[k] == k * interval
  }

  ghost predicate LongestShared(a: Bytes, b: Bytes, n: nat) {
    n <= |a| && n <= |b| && a[..n] == b[..n] && (n < |a| && n < |b| ==> a[n] != b[n])
  }

  /** How many leading bytes two keys share. */
  method SharedPrefix(a: Bytes, b: Bytes) returns (n: nat)
    ensures LongestShared(a, b, n)
  {
    n := 0;
    while n < |a| && n < |b| && a[n] == b[n]
      invariant n <= |a| && n <= |b| && a[..n] == b[..n]
    {
      n := n + 1;
    }
  }
}
