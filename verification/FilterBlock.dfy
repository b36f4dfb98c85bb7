/** The filter block of a table: one filter per 2 KB of file offset. */
module FilterBlock {
  import opened DbFormat
  import opened Crc
  import opened Bloom
  import opened Block

  const FILTER_BASE_LG: nat := 11
  const FILTER_BASE: nat := 2048

  /** The keys in the `i`th filter, and where its bytes are. */
  ghost predicate FilterHas(hash: HashFunction, data: Bytes, start: nat, limit: nat, keys: seq<Bytes>, k: nat) {
    && start <= limit <= |data|
    && (keys == [] ==> start == limit)
    && (keys != [] ==>
          && limit - start >= 9 && data[limit - 1] as nat == k
          && Exact(data[start..limit - 1], hash, keys, k)
          && forall x :: 0 <= x < |keys| ==> Matches(data[start..limit - 1], hash(keys[x]), k))
  }

  lemma FilterStays(hash: HashFunction, data: Bytes, more: Bytes, start: nat, limit: nat, keys: seq<Bytes>, k: nat)
    requires FilterHas(hash, data, start, limit, keys, k)
    ensures FilterHas(hash, data + more, start, limit, keys, k)
  {
    hide Matches, Exact;
    if keys != [] {
      assert (data + more)[start..limit - 1] == data[start..limit - 1];
    }
  }

  /** Filter `i` ends where the next one starts; the last one ends at the end of the data. */
  function LimitOf(offsets: seq<nat>, end: nat, i: nat): nat {
    if i + 1 < |offsets| then offsets[i + 1] else end
  }

  /** Filters `0 .. |offsets|` have been generated for the key groups `done`. */
  ghost predicate FiltersOk(hash: HashFunction, result: Bytes, offsets: seq<nat>, done: seq<seq<Bytes>>, k: nat) {
    && |offsets| == |done|
    && forall i :: 0 <= i < |done| ==> FilterHas(hash, result, offsets[i], LimitOf(offsets, |result|, i), done[i], k)
  }

  lemma FiltersSnoc(hash: HashFunction, result: Bytes, offsets: seq<nat>, done: seq<seq<Bytes>>, k: nat, filter: Bytes, keys: seq<Bytes>)
    requires FiltersOk(hash, result, offsets, done, k)
    requires keys == [] ==> filter == []
    requires keys != [] ==> |filter| >= 9 && filter[|filter| - 1] as nat == k && Exact(filter[..|filter| - 1], hash, keys, k)
                            && forall x :: 0 <= x < |keys| ==> Matches(filter[..|filter| - 1], hash(keys[x]), k)
    ensures FiltersOk(hash, result + filter, offsets + [|result|], done + [keys], k)
  {
    var result', offsets', done' := result + filter, offsets + [|result|], done + [keys];
    forall i | 0 <= i < |done'| ensures FilterHas(hash, result', offsets'[i], LimitOf(offsets', |result'|, i), done'[i], k) {
      if i < |done| {
        assert LimitOf(offsets', |result'|, i) == LimitOf(offsets, |result|, i);
        FilterStays(hash, result, filter, offsets[i], LimitOf(offsets, |result|, i), done[i], k);
      } else {
        NewFilter(hash, result, filter, keys, k);
      }
    }
  }

  lemma NewFilter(hash: HashFunction, result: Bytes, filter: Bytes, keys: seq<Bytes>, k: nat)
    requires keys == [] ==> filter == []
    requires keys != [] ==> |filter| >= 9 && filter[|filter| - 1] as nat == k && Exact(filter[..|filter| - 1], hash, keys, k)
                            && forall x :: 0 <= x < |keys| ==> Matches(filter[..|filter| - 1], hash(keys[x]), k)
    ensures FilterHas(hash, result + filter, |result|, |result + filter|, keys, k)
  {
    hide Matches, Exact;
    if keys != [] {
      assert (result + filter)[|result|..|result + filter| - 1] == filter[..|filter| - 1];
    }
  }

  /** How many keys the groups hold. */
  ghost function KeysIn(done: seq<seq<Bytes>>): nat {
    if done == [] then 0 else KeysIn(done[..|done| - 1]) + |done[|done| - 1]|
  }

  /** What `n` keys cost in a filter block, at most. */
  function KeyCost(n: nat, bitsPerKey: nat): nat {
    n * (bitsPerKey + 10)
  }

  /** Each key costs at most its bits and ten bytes. */
  lemma SizeSnoc(done: seq<seq<Bytes>>, keys: seq<Bytes>, size: nat, more: nat, bitsPerKey: nat)
    requires size <= KeyCost(KeysIn(done), bitsPerKey)
    requires more == if keys == [] then 0 else FilterSize(|keys|, bitsPerKey)
    ensures KeysIn(done + [keys]) == KeysIn(done) + |keys|
    ensures size + more <= KeyCost(KeysIn(done + [keys]), bitsPerKey)
  {
    assert (done + [keys])[..|done|] == done;
    var n, m, c := KeysIn(done), |keys|, bitsPerKey + 10;
    if keys != [] {
      FilterSizeAtMost(m, bitsPerKey);
    }
    assert (n + m) * c == n * c + m * c;
  }

  class FilterBlockBuilder {
    const hash: HashFunction
    const bitsPerKey: nat
    const k: nat
    var keys: seq<Bytes>
    var result: Bytes
    var filterOffsets: seq<nat>

    /** The key groups of the filters generated so far. */
    ghost var done: seq<seq<Bytes>>

    ghost predicate Valid()
      reads this
    {
      && 1 <= k <= 30 && FiltersOk(hash, result, filterOffsets, done, k)
      && |result| <= KeyCost(KeysIn(done), bitsPerKey)
    }

    constructor (hash: HashFunction, bitsPerKey: nat, k: nat)
      requires 1 <= k <= 30
      ensures Valid() && done == [] && keys == [] && this.hash == hash && this.k == k && this.bitsPerKey == bitsPerKey
    {
      this.hash, this.bitsPerKey, this.k := hash, bitsPerKey, k;
      keys, result, filterOffsets, done := [], [], [], [];
    }

    method AddKey(key: Bytes)
      requires Valid()
      modifies this`keys
      ensures Valid() && keys == old(keys) + [key]
    {
      keys := keys + [key];
    }

    /** The pending keys become the next filter; without keys it is empty. */
    method GenerateFilter()
      requires Valid()
      modifies this`keys, this`result, this`filterOffsets, this`done
      ensures Valid() && done == old(done) + [old(keys)] && keys == []
      ensures KeysIn(done) == KeysIn(old(done)) + |old(keys)|
    {
      hide FiltersOk, KeyCost;
      var filter: Bytes := [];
      if keys != [] {
        filter := CreateFilter(hash, keys, bitsPerKey, k);
      }
      FiltersSnoc(hash, result, filterOffsets, done, k, filter, keys);
      SizeSnoc(done, keys, |result|, |filter|, bitsPerKey);
      filterOffsets := filterOffsets + [|result|];
      result := result + filter;
      done := done + [keys];
      keys := [];
    }

    /** Keys added from now on belong to a block at this offset. */
    method StartBlock(blockOffset: nat)
      requires Valid() && blockOffset / FILTER_BASE >= |done|
      modifies this`keys, this`result, this`filterOffsets, this`done
      ensures Valid() && |done| == blockOffset / FILTER_BASE && old(done) <= done
      ensures |done| == |old(done)| ==> keys == old(keys)
      ensures |done| > |old(done)| ==> keys == [] && done[|old(done)|] == old(keys)
      ensures KeysIn(done) + |keys| == old(KeysIn(done) + |keys|)
    {
      LengthIs(this);
      hide FiltersOk, KeyCost;
      var filterIndex := blockOffset / FILTER_BASE;
      while filterIndex > |filterOffsets|
        invariant Valid() && |filterOffsets| == |done| <= filterIndex && old(done) <= done
        invariant |done| == |old(done)| ==> keys == old(keys)
        invariant |done| > |old(done)| ==> keys == [] && done[|old(done)|] == old(keys)
        invariant KeysIn(done) + |keys| == old(KeysIn(done) + |keys|)
        decreases filterIndex - |filterOffsets|
      {
        GenerateFilter();
        LengthIs(this);
      }
    }

    /** The filters, the array of their offsets, where that array starts, and the base. */
    method Finish() returns (data: Bytes)
      requires Valid()
      modifies this`keys, this`result, this`filterOffsets, this`done
      ensures Valid() && old(done) <= done && keys == []
      ensures old(keys) != [] ==> done == old(done) + [old(keys)]
      ensures old(keys) == [] ==> done == old(done)
      ensures data == result + RestartArray(filterOffsets + [|result|]) + [FILTER_BASE_LG as byte]
      ensures |data| <= KeyCost(old(KeysIn(done) + |keys|), bitsPerKey) + 4 * |old(done)| + 9
    {
      hide *;
      NextGroups(done, keys);
      if keys != [] {
        GenerateFilter();
      }
      data := WithOffsets(result, filterOffsets + [|result|]);
      LengthIs(this);
      OffsetsLength(filterOffsets + [|result|]);
    }
  }

  lemma NextGroups(done: seq<seq<Bytes>>, keys: seq<Bytes>)
    ensures keys == [] ==> KeysIn(done) + |keys| == KeysIn(done)
  {
  }

  lemma OffsetsLength(all: seq<nat>)
    requires all != []
    ensures |RestartArray(all)| == 4 * |all|
  {
    RestartArrayAt(all, 0);
  }

  method WithOffsets(result: Bytes, all: seq<nat>) returns (data: Bytes)
    ensures data == result + RestartArray(all) + [FILTER_BASE_LG as byte]
  {
    data := result;
    for i := 0 to |all|
      invariant data == result + RestartArray(all[..i])
    {
      assert all[..i + 1][..i] == all[..i];
      data := data + EncodeFixed32(all[i] % 0x1_0000_0000);
    }
    assert all[..|all|] == all;
    data := data + [FILTER_BASE_LG as byte];
  }

  lemma LengthIs(b: FilterBlockBuilder)
    requires b.Valid()
    ensures |b.filterOffsets| == |b.done| && |b.result| <= KeyCost(KeysIn(b.done), b.bitsPerKey)
  {
    hide FilterHas, KeyCost;
  }

  // --------------------------------------------------------------------------------- reading

  /** A finished filter block. */
  ghost predicate FilterBlockOk(hash: HashFunction, data: Bytes, result: Bytes, offsets: seq<nat>, done: seq<seq<Bytes>>, k: nat) {
    && FiltersOk(hash, result, offsets, done, k) && |data| < 0x1_0000_0000
    && data == result + RestartArray(offsets + [|result|]) + [FILTER_BASE_LG as byte]
  }

  lemma FinishedFilter(b: FilterBlockBuilder, data: Bytes)
    requires b.Valid() && data == b.result + RestartArray(b.filterOffsets + [|b.result|]) + [FILTER_BASE_LG as byte]
    ensures |data| < 0x1_0000_0000 ==> FilterBlockOk(b.hash, data, b.result, b.filterOffsets, b.done, b.k)
  {
    hide FiltersOk, RestartArray, KeyCost;
  }

  lemma BlockParts(hash: HashFunction, data: Bytes, result: Bytes, offsets: seq<nat>, done: seq<seq<Bytes>>, k: nat, i: nat)
    requires FilterBlockOk(hash, data, result, offsets, done, k) && i <= |offsets|
    ensures |data| == |result| + 4 * (|offsets| + 1) + 1 && data[|data| - 1] as nat == FILTER_BASE_LG
    ensures data[..|result|] == result
    ensures data[|result| + 4 * i..|result| + 4 * i + 4] == EncodeFixed32((offsets + [|result|])[i] % 0x1_0000_0000)
  {
    var all := offsets + [|result|];
    RestartArrayAt(all, i);
    hide FiltersOk, RestartArray, EncodeFixed32;
    assert data[|result| + 4 * i..|result| + 4 * i + 4] == RestartArray(all)[4 * i..4 * i + 4];
  }

  lemma Stored(v: nat, b: Bytes)
    requires b == EncodeFixed32(v % 0x1_0000_0000) && v < 0x1_0000_0000
    ensures DecodeFixed32(b) == v
  {
    hide EncodeFixed32, DecodeFixed32;
    Fixed32RoundTrip(v, []);
    assert EncodeFixed32(v) + [] == EncodeFixed32(v);
  }

  lemma OffsetWithin(hash: HashFunction, result: Bytes, offsets: seq<nat>, done: seq<seq<Bytes>>, k: nat, i: nat)
    requires FiltersOk(hash, result, offsets, done, k) && i <= |offsets|
    ensures (offsets + [|result|])[i] <= |result|
    ensures i < |offsets| ==> LimitOf(offsets, |result|, i) == (offsets + [|result|])[i + 1]
    ensures i < |offsets| ==> FilterHas(hash, result, offsets[i], (offsets + [|result|])[i + 1], done[i], k)
  {
    hide FilterHas;
    if i < |offsets| {
      assert FilterHas(hash, result, offsets[i], LimitOf(offsets, |result|, i), done[i], k);
      StartWithin(hash, result, offsets[i], LimitOf(offsets, |result|, i), done[i], k);
    }
  }

  lemma StartWithin(hash: HashFunction, result: Bytes, start: nat, limit: nat, keys: seq<Bytes>, k: nat)
    requires FilterHas(hash, result, start, limit, keys, k)
    ensures start <= limit <= |result|
  {
  }

  /** A key that was added for the block's filter always may match. */
  method FilterMayMatch(hash: HashFunction, data: Bytes, blockOffset: nat, key: Bytes,
                        ghost result: Bytes, ghost offsets: seq<nat>, ghost done: seq<seq<Bytes>>, ghost k: nat) returns (r: bool)
    requires FilterBlockOk(hash, data, result, offsets, done, k)
    ensures blockOffset / FILTER_BASE < |done| && key in done[blockOffset / FILTER_BASE] ==> r
    ensures blockOffset / FILTER_BASE >= |done| ==> r
    ensures blockOffset / FILTER_BASE < |done| && |offsets| == |done| && k <= 30 ==>
              var g := blockOffset / FILTER_BASE;
              var size := (offsets + [|result|])[g + 1] - offsets[g];
              r <==> done[g] != [] && size >= 2 && MayHold(hash, done[g], key, k, 8 * (size - 1))
  {
    hide FiltersOk, RestartArray, EncodeFixed32, DecodeFixed32, Matches, FilterHas, MayHold;
    BlockParts(hash, data, result, offsets, done, k, |offsets|);
    var n := |data|;
    OffsetWithin(hash, result, offsets, done, k, |offsets|);
    Stored(|result|, data[n - 5..n - 1]);
    var arrayOffset := DecodeFixed32(data[n - 5..n - 1]);
    var num := (n - 5 - arrayOffset) / 4;
    Counts(hash, result, offsets, done, k);
    var index := blockOffset / FILTER_BASE;
    if index >= num {
      return true;
    }
    BlockParts(hash, data, result, offsets, done, k, index);
    BlockParts(hash, data, result, offsets, done, k, index + 1);
    OffsetWithin(hash, result, offsets, done, k, index);
    OffsetWithin(hash, result, offsets, done, k, index + 1);
    Stored((offsets + [|result|])[index], data[arrayOffset + 4 * index..arrayOffset + 4 * index + 4]);
    Stored((offsets + [|result|])[index + 1], data[arrayOffset + 4 * index + 4..arrayOffset + 4 * index + 8]);
    var start := DecodeFixed32(data[arrayOffset + 4 * index..arrayOffset + 4 * index + 4]);
    var limit := DecodeFixed32(data[arrayOffset + 4 * index + 4..arrayOffset + 4 * index + 8]);
    StartWithin(hash, result, start, limit, done[index], k);
    var filter := data[start..limit];
    assert filter == result[start..limit];
    r := KeyMayMatch(hash, key, filter);
    InFilter(hash, result, start, limit, done[index], k, key, filter);
  }

  lemma Counts(hash: HashFunction, result: Bytes, offsets: seq<nat>, done: seq<seq<Bytes>>, k: nat)
    requires FiltersOk(hash, result, offsets, done, k)
    ensures |offsets| == |done|
  {
  }

  lemma InFilter(hash: HashFunction, result: Bytes, start: nat, limit: nat, keys: seq<Bytes>, k: nat, key: Bytes, filter: Bytes)
    requires FilterHas(hash, result, start, limit, keys, k) && filter == result[start..limit]
    ensures key in keys ==> |filter| >= 2 && Matches(filter[..|filter| - 1], hash(key), filter[|filter| - 1] as nat)
    ensures keys == [] ==> |filter| == 0
    ensures keys != [] ==> |filter| >= 9 && filter[|filter| - 1] as nat == k
                           && (Matches(filter[..|filter| - 1], hash(key), k) <==> MayHold(hash, keys, key, k, 8 * (|filter| - 1)))
  {
    hide Matches, Exact, MayHold;
    if keys != [] {
      assert filter[..|filter| - 1] == result[start..limit - 1];
      ExactMatches(filter[..|filter| - 1], hash, keys, key, k);
    }
    if key in keys {
      var x :| 0 <= x < |keys| && keys[x] == key;
      assert filter[..|filter| - 1] == result[start..limit - 1];
    }
  }
}
