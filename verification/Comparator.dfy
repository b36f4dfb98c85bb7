/** Short index keys: separators and successors under the bytewise and the internal comparator. */
module Comparator {
  import opened DbFormat

  /** Equal up to `d`, smaller there. */
  lemma {:induction false} LessAt(a: Bytes, b: Bytes, d: nat)
    requires d < |a| && d < |b| && a[..d] == b[..d] && a[d] < b[d]
    ensures BytewiseLess(a, b)
    decreases d
  {
    if d > 0 {
      assert a[0] == a[..d][0] && b[0] == b[..d][0];
      assert a[1..][..d - 1] == a[..d][1..] && b[1..][..d - 1] == b[..d][1..];
      LessAt(a[1..], b[1..], d - 1);
    }
  }

  lemma BytewiseOrder(a: Bytes, b: Bytes, c: Bytes)
    ensures !BytewiseLess(a, a)
    ensures BytewiseLess(a, b) && BytewiseLess(b, c) ==> BytewiseLess(a, c)
    ensures BytewiseLess(a, b) || BytewiseLess(b, a) || a == b
  {
    BytewiseOrderEmbeds(a, a);
    BytewiseOrderEmbeds(a, b);
    BytewiseOrderEmbeds(b, a);
    BytewiseOrderEmbeds(b, c);
    BytewiseOrderEmbeds(a, c);
  }

  /** The strings first differ at `d`, by more than one, below the greatest byte. */
  predicate RoomAt(start: Bytes, limit: Bytes, d: nat) {
    && d < |start| && d < |limit| && start[..d] == limit[..d]
    && start[d] < 0xff && start[d] + 1 < limit[d]
  }

  function CutAbove(key: Bytes, d: nat): Bytes
    requires d < |key| && key[d] < 0xff
  {
    key[..d] + [key[d] + 1]
  }

  lemma PrefixAgrees(a: Bytes, b: Bytes, n: nat, i: nat)
    requires i < n <= |a| && n <= |b| && a[..n] == b[..n]
    ensures a[i] == b[i]
  {
    assert a[..n][i] == a[i] && b[..n][i] == b[i];
  }

  /** There is room only where the strings first differ. */
  lemma RoomOnlyAt(start: Bytes, limit: Bytes, d: nat, e: nat)
    requires d <= |start| && d <= |limit| && start[..d] == limit[..d] && (d < |start| && d < |limit| ==> start[d] != limit[d])
    requires RoomAt(start, limit, e)
    ensures e == d
  {
    if e < d {
      PrefixAgrees(start, limit, d, e);
    } else if d < e {
      PrefixAgrees(start, limit, e, d);
    }
  }

  /** A short key in `[start, limit)`: the shared prefix and the next byte, one greater, if there is room for that;
      otherwise the start itself. */
  method FindShortestSeparator(start: Bytes, limit: Bytes) returns (r: Bytes)
    ensures r == start || (BytewiseLess(start, r) && BytewiseLess(r, limit))
    ensures |r| <= |start|
    ensures forall d: nat :: RoomAt(start, limit, d) ==> r == CutAbove(start, d)
    ensures (forall d: nat :: !RoomAt(start, limit, d)) ==> r == start
  {
    var minLength := if |start| <= |limit| then |start| else |limit|;
    var d := 0;
    while d < minLength && start[d] == limit[d]
      invariant 0 <= d <= minLength && start[..d] == limit[..d]
    {
      d := d + 1;
    }
    r := start;
    forall e: nat | RoomAt(start, limit, e) ensures e == d {
      RoomOnlyAt(start, limit, d, e);
    }
    if d < minLength {
      var diff := start[d];
      if diff < 0xff && diff + 1 < limit[d] {
        r := start[..d] + [diff + 1];
        assert RoomAt(start, limit, d);
        assert r[..d] == start[..d];
        LessAt(start, r, d);
        LessAt(r, limit, d);
      }
    }
  }

  /** `i` is the first byte that can be incremented. */
  predicate FirstBelow(key: Bytes, i: nat) {
    i < |key| && key[i] < 0xff && forall j :: 0 <= j < i ==> key[j] == 0xff
  }

  /** A short key at or after `key`: up to the first byte that can be incremented, incremented. */
  method FindShortSuccessor(key: Bytes) returns (r: Bytes)
    ensures r == key || BytewiseLess(key, r)
    ensures |r| <= |key|
    ensures forall i: nat :: FirstBelow(key, i) ==> r == CutAbove(key, i)
    ensures (forall i: nat :: !FirstBelow(key, i)) ==> r == key
  {
    for i := 0 to |key|
      invariant forall j :: 0 <= j < i ==> key[j] == 0xff
    {
      if key[i] != 0xff {
        r := key[..i] + [key[i] + 1];
        assert FirstBelow(key, i);
        assert r[..i] == key[..i];
        LessAt(key, r, i);
        return;
      }
    }
    r := key;
  }

  // --------------------------------------------------------------------------- internal keys

  /** An encoded internal key: user key and trailer. */
  datatype TableKey = TableKey(user: Bytes, tag: nat)

  /** The trailer that sorts first: greatest sequence number, kind used for seeking. */
  const MAX_TAG: nat := MAX_SEQUENCE_NUMBER * 256 + 1

  predicate KeyLess(a: TableKey, b: TableKey) {
    BytewiseLess(a.user, b.user) || (a.user == b.user && a.tag > b.tag)
  }

  predicate KeyAtMost(a: TableKey, b: TableKey) {
    !KeyLess(b, a)
  }

  lemma KeyOrder(a: TableKey, b: TableKey, c: TableKey)
    ensures !KeyLess(a, a)
    ensures KeyLess(a, b) && KeyLess(b, c) ==> KeyLess(a, c)
    ensures KeyLess(a, b) || KeyLess(b, a) || a == b
  {
    hide BytewiseLess;
    BytewiseOrder(a.user, b.user, c.user);
    BytewiseOrder(b.user, c.user, a.user);
  }

  /** Either the key itself, or one with a strictly greater user key. */
  method InternalSeparator(start: TableKey, limit: TableKey) returns (r: TableKey)
    requires KeyLess(start, limit)
    ensures KeyAtMost(start, r) && KeyLess(r, limit)
    ensures r == start || (BytewiseLess(start.user, r.user) && BytewiseLess(r.user, limit.user))
    ensures forall d: nat :: RoomAt(start.user, limit.user, d) ==>
              r == if d + 1 < |start.user| then TableKey(CutAbove(start.user, d), MAX_TAG) else start
    ensures (forall d: nat :: !RoomAt(start.user, limit.user, d)) ==> r == start
  {
    hide BytewiseLess;
    KeyOrder(start, limit, limit);
    var tmp := FindShortestSeparator(start.user, limit.user);
    r := start;
    if |tmp| < |start.user| && BytewiseLess(start.user, tmp) {
      r := TableKey(tmp, MAX_TAG);
      BytewiseOrder(start.user, tmp, start.user);
    }
  }

  method InternalSuccessor(key: TableKey) returns (r: TableKey)
    ensures KeyAtMost(key, r) && (r == key || BytewiseLess(key.user, r.user))
    ensures forall i: nat :: FirstBelow(key.user, i) ==> r == if i + 1 < |key.user| then TableKey(CutAbove(key.user, i), MAX_TAG) else key
    ensures (forall i: nat :: !FirstBelow(key.user, i)) ==> r == key
  {
    hide BytewiseLess;
    KeyOrder(key, key, key);
    var tmp := FindShortSuccessor(key.user);
    r := key;
    if |tmp| < |key.user| && BytewiseLess(key.user, tmp) {
      r := TableKey(tmp, MAX_TAG);
      BytewiseOrder(key.user, tmp, key.user);
    }
  }
}
