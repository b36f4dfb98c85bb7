/** The cache's hash table: an array of bucket chains that doubles as it fills. */
module HandleTable {
  import opened DbFormat

  type HashFunction = Bytes -> nat

  /** A chained entry: a handle and the key it is found by. */
  datatype Slot = Slot(id: nat, key: Bytes, hash: nat)

  ghost predicate ChainOk(hash: HashFunction, length: nat, chain: seq<Slot>, b: nat)
    requires length > 0
  {
    && (forall x :: 0 <= x < |chain| ==> chain[x].hash == hash(chain[x].key) && chain[x].hash % length == b)
    && (forall x, y :: 0 <= x < y < |chain| ==> chain[x].key != chain[y].key)
  }

  /** Every chain holds only keys that hash to it, each key once. */
  ghost predicate BucketsOk(hash: HashFunction, buckets: seq<seq<Slot>>) {
    && |buckets| > 0
    && forall b :: 0 <= b < |buckets| ==> ChainOk(hash, |buckets|, buckets[b], b)
  }

  /** The handle stored for a key. */
  ghost predicate Stores(hash: HashFunction, buckets: seq<seq<Slot>>, key: Bytes, id: nat)
    requires |buckets| > 0
  {
    Slot(id, key, hash(key)) in buckets[hash(key) % |buckets|]
  }

  /** The table is exactly the map `m`. */
  ghost predicate IsMap(hash: HashFunction, buckets: seq<seq<Slot>>, m: map<Bytes, nat>) {
    && BucketsOk(hash, buckets)
    && forall key, id :: Stores(hash, buckets, key, id) <==> Maps(m, key, id)
  }

  lemma KeyIsStored(hash: HashFunction, buckets: seq<seq<Slot>>, m: map<Bytes, nat>, key: Bytes)
    requires IsMap(hash, buckets, m) && |buckets| > 0
    ensures key in m ==> Stores(hash, buckets, key, m[key])
  {
    hide Stores, BucketsOk;
    assert key in m ==> Maps(m, key, m[key]);
  }

  ghost predicate Maps(m: map<Bytes, nat>, key: Bytes, id: nat) {
    key in m && m[key] == id
  }

  /** Position of a key in its chain; the chain's length when it is not there. */
  method FindPointer(chain: seq<Slot>, key: Bytes, h: nat) returns (x: nat)
    ensures x <= |chain| && (x < |chain| ==> chain[x].hash == h && chain[x].key == key)
    ensures forall y :: 0 <= y < x ==> chain[y].hash != h || chain[y].key != key
  {
    x := 0;
    while x < |chain| && (chain[x].hash != h || chain[x].key != key)
      invariant x <= |chain| && forall y :: 0 <= y < x ==> chain[y].hash != h || chain[y].key != key
    {
      x := x + 1;
    }
  }

  ghost predicate PowerOfTwo(n: nat) {
    n == 1 || (n > 1 && n % 2 == 0 && PowerOfTwo(n / 2))
  }

  /** The length is a power of two, so masking the hash is taking it modulo the length, and chains have at most one
      entry on average. */
  ghost predicate LengthOk(length: nat, elems: nat) {
    length >= 4 && PowerOfTwo(length) && elems <= length
  }

  class Table {
    const hash: HashFunction
    var buckets: seq<seq<Slot>>
    var elems: nat
    ghost var m: map<Bytes, nat>

    ghost predicate Valid()
      reads this
    {
      IsMap(hash, buckets, m) && elems == |m| && LengthOk(|buckets|, elems)
    }

    constructor (hash: HashFunction)
      ensures Valid() && m == map[] && this.hash == hash
    {
      this.hash := hash;
      buckets, elems, m := [[], [], [], []], 0, map[];
      assert PowerOfTwo(2) && PowerOfTwo(4);
    }

    method Lookup(key: Bytes, h: nat) returns (r: Option<nat>)
      requires Valid() && h == hash(key)
      ensures r == if key in m then Some(m[key]) else None
    {
      hide BucketsOk;
      NonEmpty(hash, buckets, m);
      var chain := buckets[h % |buckets|];
      var x := FindPointer(chain, key, h);
      if x < |chain| {
        assert Stores(hash, buckets, key, chain[x].id);
        return Some(chain[x].id);
      }
      KeyIsStored(hash, buckets, m, key);
      return None;
    }

    /** Put a handle in place of an equal key's, or at the end of its chain. */
    method Insert(id: nat, key: Bytes, h: nat) returns (replaced: Option<nat>)
      requires Valid() && h == hash(key)
      modifies this`buckets, this`elems, this`m
      ensures Valid() && m == old(m)[key := id]
      ensures replaced == if key in old(m) then Some(old(m)[key]) else None
      ensures |old(m)| < |old(buckets)| || key in old(m) ==> |buckets| == |old(buckets)|
    {
      hide BucketsOk, IsMap, PowerOfTwo;
      NonEmpty(hash, buckets, m);
      var b := h % |buckets|;
      var chain := buckets[b];
      var x := FindPointer(chain, key, h);
      FoundIff(hash, buckets, m, key, x);
      var slot := Slot(id, key, h);
      ghost var m' := m[key := id];
      if x < |chain| {
        replaced := Some(chain[x].id);
        Replaced(hash, buckets, m, slot, x);
        buckets := buckets[b := chain[x := slot]];
        SameSize(m, key, id);
      } else {
        replaced := None;
        Appended(hash, buckets, m, slot);
        buckets := buckets[b := chain + [slot]];
        elems := elems + 1;
        OneMore(m, key, id);
      }
      m := m';
      if replaced.None? && elems > |buckets| {
        Resize();
      }
    }

    method Remove(key: Bytes, h: nat) returns (r: Option<nat>)
      requires Valid() && h == hash(key)
      modifies this`buckets, this`elems, this`m
      ensures Valid() && m == old(m) - {key}
      ensures r == if key in old(m) then Some(old(m)[key]) else None
    {
      hide BucketsOk, IsMap, PowerOfTwo;
      NonEmpty(hash, buckets, m);
      var b := h % |buckets|;
      var chain := buckets[b];
      var x := FindPointer(chain, key, h);
      FoundIff(hash, buckets, m, key, x);
      if x < |chain| {
        r := Some(chain[x].id);
        Deleted(hash, buckets, m, key, x);
        buckets := buckets[b := chain[..x] + chain[x + 1..]];
        OneLess(m, key);
        elems := elems - 1;
        m := m - {key};
      } else {
        r := None;
        assert m - {key} == m;
      }
    }

    /** Move every entry into a longer array of chains. */
    method Resize()
      requires IsMap(hash, buckets, m) && elems == |m|
      modifies this`buckets
      ensures Valid() && (|buckets| == 4 || |buckets| < 2 * elems)
    {
      hide IsMap, PowerOfTwo;
      buckets := Rehash(hash, buckets, elems, m);
    }
  }

  /** The least power of two from 4 on that is not below `elems`. */
  method NewLength(elems: nat) returns (newLength: nat)
    ensures LengthOk(newLength, elems) && newLength > 0 && (newLength == 4 || newLength < 2 * elems)
  {
    assert PowerOfTwo(2) && PowerOfTwo(4);
    newLength := 4;
    while newLength < elems
      invariant newLength >= 4 && PowerOfTwo(newLength) && (newLength == 4 || newLength < 2 * elems)
    {
      newLength := newLength * 2;
    }
  }

  method Rehash(hash: HashFunction, list: seq<seq<Slot>>, elems: nat, ghost m: map<Bytes, nat>) returns (newList: seq<seq<Slot>>)
    requires IsMap(hash, list, m)
    ensures IsMap(hash, newList, m) && LengthOk(|newList|, elems) && (|newList| == 4 || |newList| < 2 * elems)
  {
    hide IsMap, Rehashed, LengthOk;
    var newLength := NewLength(elems);
    newList := seq(newLength, _ => []);
    RehashStarts(hash, list, newList);
    for i := 0 to |list|
      invariant |newList| == newLength && Rehashed(hash, list, i, 0, newList)
    {
      var chain := list[i];
      for x := 0 to |chain|
        invariant |newList| == newLength && Rehashed(hash, list, i, x, newList)
      {
        var b := chain[x].hash % newLength;
        RehashStep(hash, list, m, i, x, newList);
        newList := newList[b := [chain[x]] + newList[b]];
      }
      RehashNextChain(hash, list, i, newList);
    }
    RehashDone(hash, list, m, newList);
  }

  lemma NonEmpty(hash: HashFunction, buckets: seq<seq<Slot>>, m: map<Bytes, nat>)
    requires IsMap(hash, buckets, m)
    ensures |buckets| > 0
  {
  }

  lemma FoundIff(hash: HashFunction, buckets: seq<seq<Slot>>, m: map<Bytes, nat>, key: Bytes, x: nat)
    requires IsMap(hash, buckets, m) && |buckets| > 0
    requires var chain := buckets[hash(key) % |buckets|];
             && x <= |chain| && (x < |chain| ==> chain[x].hash == hash(key) && chain[x].key == key)
             && forall y :: 0 <= y < x ==> chain[y].hash != hash(key) || chain[y].key != key
    ensures var chain := buckets[hash(key) % |buckets|];
            && (x < |chain| <==> key in m) && (x < |chain| ==> chain[x].id == m[key])
  {
    var chain := buckets[hash(key) % |buckets|];
    if x < |chain| {
      assert chain[x] == Slot(chain[x].id, key, hash(key));
      assert Stores(hash, buckets, key, chain[x].id);
    }
    if key in m {
      assert Stores(hash, buckets, key, m[key]);
    }
  }

  lemma SameSize(m: map<Bytes, nat>, key: Bytes, id: nat)
    requires key in m
    ensures |m[key := id]| == |m|
  {
    assert m[key := id].Keys == m.Keys;
    assert |m[key := id].Keys| == |m[key := id]| && |m.Keys| == |m|;
  }

  lemma OneMore(m: map<Bytes, nat>, key: Bytes, id: nat)
    requires key !in m
    ensures |m[key := id]| == |m| + 1
  {
    assert m[key := id].Keys == m.Keys + {key};
    assert |m[key := id].Keys| == |m[key := id]| && |m.Keys| == |m|;
  }

  lemma OneLess(m: map<Bytes, nat>, key: Bytes)
    requires key in m
    ensures |m - {key}| + 1 == |m|
  {
    assert (m - {key}).Keys == m.Keys - {key};
    assert |(m - {key}).Keys| == |m - {key}| && |m.Keys| == |m|;
  }

  // ---------------------------------------------------------------------- changes of one chain

  /** Only the slots of one key change, in its chain. */
  ghost predicate ChainChanges(hash: HashFunction, chain: seq<Slot>, chain': seq<Slot>, key: Bytes, ids: set<nat>) {
    forall s :: s in chain' <==> (s in chain && s.key != key) || (s.key == key && s.hash == hash(key) && s.id in ids)
  }

  lemma MapAfter(hash: HashFunction, buckets: seq<seq<Slot>>, m: map<Bytes, nat>, chain': seq<Slot>, key: Bytes, ids: set<nat>, m': map<Bytes, nat>)
    requires IsMap(hash, buckets, m) && |buckets| > 0
    requires var b := hash(key) % |buckets|;
             ChainOk(hash, |buckets|, chain', b) && ChainChanges(hash, buckets[b], chain', key, ids)
    requires forall k, id :: Maps(m', k, id) <==> (k != key && Maps(m, k, id)) || (k == key && id in ids)
    ensures IsMap(hash, buckets[hash(key) % |buckets| := chain'], m')
  {
    hide Stores, ChainChanges, ChainOk, Maps;
    var b := hash(key) % |buckets|;
    var buckets' := buckets[b := chain'];
    forall k, id ensures Stores(hash, buckets', k, id) <==> Maps(m', k, id) {
      StoredAfter(hash, buckets, m, chain', key, ids, k, id);
    }
  }

  lemma StoredAfter(hash: HashFunction, buckets: seq<seq<Slot>>, m: map<Bytes, nat>, chain': seq<Slot>, key: Bytes, ids: set<nat>, k: Bytes, id: nat)
    requires IsMap(hash, buckets, m) && |buckets| > 0 && ChainChanges(hash, buckets[hash(key) % |buckets|], chain', key, ids)
    ensures Stores(hash, buckets[hash(key) % |buckets| := chain'], k, id)
       <==> (k != key && Maps(m, k, id)) || (k == key && id in ids)
  {
    hide Stores, ChainChanges, BucketsOk, Maps;
    StoresAfter(hash, buckets, chain', key, ids, k, id);
  }

  lemma StoresAfter(hash: HashFunction, buckets: seq<seq<Slot>>, chain': seq<Slot>, key: Bytes, ids: set<nat>, k: Bytes, id: nat)
    requires |buckets| > 0 && ChainChanges(hash, buckets[hash(key) % |buckets|], chain', key, ids)
    ensures Stores(hash, buckets[hash(key) % |buckets| := chain'], k, id)
       <==> (k != key && Stores(hash, buckets, k, id)) || (k == key && id in ids)
  {
    var s := Slot(id, k, hash(k));
    if hash(k) % |buckets| == hash(key) % |buckets| {
      assert s in chain' <==> (s in buckets[hash(key) % |buckets|] && s.key != key) || (s.key == key && s.hash == hash(key) && s.id in ids);
    }
  }

  lemma Replaced(hash: HashFunction, buckets: seq<seq<Slot>>, m: map<Bytes, nat>, slot: Slot, x: nat)
    requires IsMap(hash, buckets, m) && |buckets| > 0 && slot.hash == hash(slot.key)
    requires x < |buckets[slot.hash % |buckets|]| && buckets[slot.hash % |buckets|][x].key == slot.key
    ensures IsMap(hash, buckets[slot.hash % |buckets| := buckets[slot.hash % |buckets|][x := slot]], m[slot.key := slot.id])
  {
    var b := slot.hash % |buckets|;
    var chain := buckets[b];
    assert ChainOk(hash, |buckets|, chain, b);
    var chain' := chain[x := slot];
    assert chain'[x] == slot;
    forall s ensures s in chain' <==> (s in chain && s.key != slot.key) || s == slot {
      if s in chain && s.key != slot.key {
        var y :| 0 <= y < |chain| && chain[y] == s;
        assert chain'[y] == s;
      }
    }
    MapAfter(hash, buckets, m, chain', slot.key, {slot.id}, m[slot.key := slot.id]);
  }

  lemma Appended(hash: HashFunction, buckets: seq<seq<Slot>>, m: map<Bytes, nat>, slot: Slot)
    requires IsMap(hash, buckets, m) && |buckets| > 0 && slot.hash == hash(slot.key) && slot.key !in m
    ensures IsMap(hash, buckets[slot.hash % |buckets| := buckets[slot.hash % |buckets|] + [slot]], m[slot.key := slot.id])
  {
    var b := slot.hash % |buckets|;
    var chain := buckets[b];
    assert ChainOk(hash, |buckets|, chain, b);
    forall x | 0 <= x < |chain| ensures chain[x].key != slot.key {
      if chain[x].key == slot.key {
        assert Stores(hash, buckets, slot.key, chain[x].id);
      }
    }
    MapAfter(hash, buckets, m, chain + [slot], slot.key, {slot.id}, m[slot.key := slot.id]);
  }

  lemma Deleted(hash: HashFunction, buckets: seq<seq<Slot>>, m: map<Bytes, nat>, key: Bytes, x: nat)
    requires IsMap(hash, buckets, m) && |buckets| > 0
    requires x < |buckets[hash(key) % |buckets|]| && buckets[hash(key) % |buckets|][x].key == key
    ensures var chain := buckets[hash(key) % |buckets|];
            IsMap(hash, buckets[hash(key) % |buckets| := chain[..x] + chain[x + 1..]], m - {key})
  {
    var b := hash(key) % |buckets|;
    var chain := buckets[b];
    assert ChainOk(hash, |buckets|, chain, b);
    var chain' := chain[..x] + chain[x + 1..];
    ChainWithout(hash, |buckets|, chain, b, key, x);
    hide ChainOk;
    MapAfter(hash, buckets, m, chain', key, {}, m - {key});
  }

  lemma ChainWithout(hash: HashFunction, length: nat, chain: seq<Slot>, b: nat, key: Bytes, x: nat)
    requires length > 0 && ChainOk(hash, length, chain, b) && x < |chain| && chain[x].key == key
    ensures ChainOk(hash, length, chain[..x] + chain[x + 1..], b)
    ensures forall s :: s in chain[..x] + chain[x + 1..] <==> s in chain && s.key != key
  {
    var chain' := chain[..x] + chain[x + 1..];
    forall y | 0 <= y < |chain'| ensures chain'[y] == chain[if y < x then y else y + 1] {
    }
    forall s ensures s in chain' <==> s in chain && s.key != key {
      if s in chain && s.key != key {
        var y :| 0 <= y < |chain| && chain[y] == s;
        assert chain'[if y < x then y else y - 1] == s;
      }
    }
  }

  // ---------------------------------------------------------------------------------- resizing

  /** The slots of the first `i` chains and of `x` places of chain `i`. */
  ghost predicate Seen(buckets: seq<seq<Slot>>, i: nat, x: nat, s: Slot) {
    exists b, y :: SlotAt(buckets, b, y, s) && (b < i || (b == i && y < x))
  }

  ghost predicate SlotAt(buckets: seq<seq<Slot>>, b: int, y: int, s: Slot) {
    0 <= b < |buckets| && 0 <= y < |buckets[b]| && buckets[b][y] == s
  }

  /** The new chains hold exactly the slots seen so far. */
  ghost predicate Rehashed(hash: HashFunction, buckets: seq<seq<Slot>>, i: nat, x: nat, newList: seq<seq<Slot>>) {
    && BucketsOk(hash, newList)
    && (forall b, s :: 0 <= b < |newList| && s in newList[b] ==> Seen(buckets, i, x, s))
    && (forall s :: Seen(buckets, i, x, s) ==> s in newList[s.hash % |newList|])
  }

  lemma RehashStarts(hash: HashFunction, buckets: seq<seq<Slot>>, newList: seq<seq<Slot>>)
    requires |newList| > 0 && forall b :: 0 <= b < |newList| ==> newList[b] == []
    ensures Rehashed(hash, buckets, 0, 0, newList)
  {
  }

  lemma RehashNextChain(hash: HashFunction, buckets: seq<seq<Slot>>, i: nat, newList: seq<seq<Slot>>)
    requires i < |buckets| && Rehashed(hash, buckets, i, |buckets[i]|, newList)
    ensures Rehashed(hash, buckets, i + 1, 0, newList)
  {
    forall s ensures Seen(buckets, i, |buckets[i]|, s) <==> Seen(buckets, i + 1, 0, s) {
      if Seen(buckets, i, |buckets[i]|, s) {
        var b, y :| SlotAt(buckets, b, y, s) && (b < i || (b == i && y < |buckets[i]|));
        assert SlotAt(buckets, b, y, s) && b < i + 1;
      }
    }
    hide BucketsOk, Seen;
    forall b, s | 0 <= b < |newList| && s in newList[b] ensures Seen(buckets, i + 1, 0, s) {
      assert Seen(buckets, i, |buckets[i]|, s);
    }
    forall s | Seen(buckets, i + 1, 0, s) ensures s in newList[s.hash % |newList|] {
      assert Seen(buckets, i, |buckets[i]|, s);
    }
  }

  lemma SeenStep(buckets: seq<seq<Slot>>, i: nat, x: nat, s: Slot)
    requires i < |buckets| && x < |buckets[i]|
    ensures Seen(buckets, i, x + 1, s) <==> Seen(buckets, i, x, s) || s == buckets[i][x]
  {
    assert SlotAt(buckets, i, x, buckets[i][x]);
  }

  /** Keys occur once in the old table, so a slot not yet seen has a new key. */
  lemma NewKey(hash: HashFunction, buckets: seq<seq<Slot>>, i: nat, x: nat, s: Slot)
    requires BucketsOk(hash, buckets) && i < |buckets| && x < |buckets[i]| && Seen(buckets, i, x, s)
    ensures s.key != buckets[i][x].key && buckets[i][x].hash == hash(buckets[i][x].key) && s.hash == hash(s.key)
  {
    var b, y :| SlotAt(buckets, b, y, s) && (b < i || (b == i && y < x));
    assert ChainOk(hash, |buckets|, buckets[b], b) && ChainOk(hash, |buckets|, buckets[i], i);
  }

  lemma RehashStep(hash: HashFunction, buckets: seq<seq<Slot>>, m: map<Bytes, nat>, i: nat, x: nat, newList: seq<seq<Slot>>)
    requires IsMap(hash, buckets, m) && i < |buckets| && x < |buckets[i]| && Rehashed(hash, buckets, i, x, newList) && |newList| > 0
    ensures var s := buckets[i][x];
            Rehashed(hash, buckets, i, x + 1, newList[s.hash % |newList| := [s] + newList[s.hash % |newList|]])
  {
    var s := buckets[i][x];
    var b := s.hash % |newList|;
    var chain, chain' := newList[b], [s] + newList[b];
    var newList' := newList[b := chain'];
    assert ChainOk(hash, |newList|, chain, b) && ChainOk(hash, |buckets|, buckets[i], i);
    forall y | 0 <= y < |chain| ensures chain[y].key != s.key {
      assert chain[y] in chain;
      NewKey(hash, buckets, i, x, chain[y]);
    }
    assert ChainOk(hash, |newList|, chain', b);
    forall t ensures Seen(buckets, i, x + 1, t) <==> Seen(buckets, i, x, t) || t == s {
      SeenStep(buckets, i, x, t);
    }
    hide IsMap, Seen, ChainOk;
    FrontAdded(hash, newList, b, s, newList');
    forall c, t | 0 <= c < |newList'| && t in newList'[c] ensures Seen(buckets, i, x + 1, t) {
      assert t in newList[c] || t == s;
      assert t in newList[c] ==> Seen(buckets, i, x, t);
    }
    forall t | Seen(buckets, i, x + 1, t) ensures t in newList'[t.hash % |newList'|] {
    }
  }

  lemma FrontAdded(hash: HashFunction, newList: seq<seq<Slot>>, b: nat, s: Slot, newList': seq<seq<Slot>>)
    requires BucketsOk(hash, newList) && b < |newList| && newList' == newList[b := [s] + newList[b]]
    requires ChainOk(hash, |newList|, [s] + newList[b], b)
    ensures BucketsOk(hash, newList')
    ensures forall c, t :: 0 <= c < |newList| ==> (t in newList'[c] <==> t in newList[c] || (c == b && t == s))
  {
    hide ChainOk;
    forall c, t | 0 <= c < |newList| ensures t in newList'[c] <==> t in newList[c] || (c == b && t == s) {
      assert ([s] + newList[b])[0] == s;
    }
  }

  lemma RehashDone(hash: HashFunction, buckets: seq<seq<Slot>>, m: map<Bytes, nat>, newList: seq<seq<Slot>>)
    requires IsMap(hash, buckets, m) && Rehashed(hash, buckets, |buckets|, 0, newList) && |newList| > 0
    ensures IsMap(hash, newList, m)
  {
    forall key, id ensures Stores(hash, newList, key, id) <==> key in m && m[key] == id {
      var s := Slot(id, key, hash(key));
      SeenAll(hash, buckets, m, s);
      assert Stores(hash, buckets, key, id) <==> key in m && m[key] == id;
      hide BucketsOk, Seen;
    }
  }

  lemma SeenAll(hash: HashFunction, buckets: seq<seq<Slot>>, m: map<Bytes, nat>, s: Slot)
    requires BucketsOk(hash, buckets) && s.hash == hash(s.key)
    ensures Seen(buckets, |buckets|, 0, s) <==> s in buckets[s.hash % |buckets|]
  {
    if Seen(buckets, |buckets|, 0, s) {
      var b, y :| SlotAt(buckets, b, y, s);
      assert ChainOk(hash, |buckets|, buckets[b], b);
    } else if s in buckets[s.hash % |buckets|] {
      var b := s.hash % |buckets|;
      var y :| 0 <= y < |buckets[b]| && buckets[b][y] == s;
      assert SlotAt(buckets, b, y, s);
    }
  }
}
