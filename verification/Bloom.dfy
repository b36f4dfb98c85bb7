/** Bloom filters: no key that was added is ever ruled out. */
module Bloom {
  import opened DbFormat
  import opened Crc

  // ------------------------------------------------------------------------------------ bits

  /** The low `n` bits of a number, least significant first. */
  function ToBits(x: nat, n: nat): (r: seq<bool>)
    ensures |r| == n
  {
    if n == 0 then [] else [x % 2 == 1] + ToBits(x / 2, n - 1)
  }

  function FromBits(bits: seq<bool>): nat {
    if bits == [] then 0 else (if bits[0] then 1 else 0) + 2 * FromBits(bits[1..])
  }

  lemma {:induction false} BitsRoundTrip(bits: seq<bool>)
    ensures ToBits(FromBits(bits), |bits|) == bits
  {
    if bits != [] {
      BitsRoundTrip(bits[1..]);
      assert FromBits(bits) / 2 == FromBits(bits[1..]);
    }
  }

  function Exp2(n: nat): nat {
    if n == 0 then 1 else 2 * Exp2(n - 1)
  }

  lemma {:induction false} FromBitsBelow(bits: seq<bool>)
    ensures FromBits(bits) < Exp2(|bits|)
  {
    if bits != [] {
      FromBitsBelow(bits[1..]);
    }
  }

  lemma FromEightBits(bits: seq<bool>)
    requires |bits| == 8
    ensures FromBits(bits) < 256
  {
    FromBitsBelow(bits);
    assert Exp2(8) == 256;
  }

  predicate HasBit(x: byte, b: nat)
    requires b < 8
  {
    ToBits(x as nat, 8)[b]
  }

  /** Bitwise or with one bit. */
  function SetBit(x: byte, b: nat): (r: byte)
    requires b < 8
  {
    FromEightBits(ToBits(x as nat, 8)[b := true]);
    FromBits(ToBits(x as nat, 8)[b := true]) as byte
  }

  lemma SetBitSets(x: byte, b: nat, c: nat)
    requires b < 8 && c < 8
    ensures HasBit(SetBit(x, b), c) <==> HasBit(x, c) || c == b
  {
    hide ToBits, FromBits;
    BitsRoundTrip(ToBits(x as nat, 8)[b := true]);
  }

  /** Bit `p` of a byte array. */
  predicate BitAt(bytes: Bytes, p: nat)
    requires p < 8 * |bytes|
  {
    HasBit(bytes[p / 8], p % 8)
  }

  function WithBit(bytes: Bytes, p: nat): (r: Bytes)
    requires p < 8 * |bytes|
    ensures |r| == |bytes|
  {
    bytes[p / 8 := SetBit(bytes[p / 8], p % 8)]
  }

  lemma WithBitSets(bytes: Bytes, p: nat, q: nat)
    requires p < 8 * |bytes| && q < 8 * |bytes|
    ensures BitAt(WithBit(bytes, p), q) <==> BitAt(bytes, q) || q == p
  {
    hide SetBit, HasBit;
    if q / 8 == p / 8 {
      SetBitSets(bytes[p / 8], p % 8, q % 8);
    }
  }

  // ------------------------------------------------------------------------------- the filter

  /** The hash of a key; any function will do. */
  type HashFunction = Bytes -> Uint32

  /** Rotate right by 17 bits. */
  function Delta(h: Uint32): Uint32 {
    h / 0x2_0000 + (h % 0x2_0000) * 0x8000
  }

  /** The `j`th bit position probed for a key. */
  function Probe(h: Uint32, j: nat, bits: nat): (p: nat)
    requires bits > 0
    ensures p < bits
  {
    (h + j * Delta(h)) % 0x1_0000_0000 % bits
  }

  /** Every probe of the key finds its bit set. */
  ghost predicate Matches(filter: Bytes, h: Uint32, k: nat)
    requires |filter| > 0
  {
    forall j :: 0 <= j < k ==> BitAt(filter, Probe(h, j, 8 * |filter|))
  }

  /** Bit `p` is one of the first `k` probes of the hash. */
  ghost predicate ProbedBy(h: Uint32, k: nat, bits: nat, p: nat)
    requires bits > 0
  {
    exists j :: 0 <= j < k && p == Probe(h, j, bits)
  }

  /** Bit `p` is a probe of some key. */
  ghost predicate Probed(hash: HashFunction, keys: seq<Bytes>, k: nat, bits: nat, p: nat)
    requires bits > 0
  {
    exists i :: 0 <= i < |keys| && ProbedBy(hash(keys[i]), k, bits, p)
  }

  /** A bit is set exactly if it is a probe of some key. */
  ghost predicate Exact(filter: Bytes, hash: HashFunction, keys: seq<Bytes>, k: nat)
    requires |filter| > 0
  {
    forall p :: 0 <= p < 8 * |filter| ==> (BitAt(filter, p) <==> Probed(hash, keys, k, 8 * |filter|, p))
  }

  /** The key cannot be told from those in the filter: each of its probes is a probe of one of them. */
  ghost predicate MayHold(hash: HashFunction, keys: seq<Bytes>, key: Bytes, k: nat, bits: nat)
    requires bits > 0
  {
    forall j :: 0 <= j < k ==> Probed(hash, keys, k, bits, Probe(hash(key), j, bits))
  }

  lemma ExactMatches(filter: Bytes, hash: HashFunction, keys: seq<Bytes>, key: Bytes, k: nat)
    requires |filter| > 0 && Exact(filter, hash, keys, k)
    ensures Matches(filter, hash(key), k) <==> MayHold(hash, keys, key, k, 8 * |filter|)
    ensures key in keys ==> MayHold(hash, keys, key, k, 8 * |filter|)
  {
    hide BitAt, Probe;
    if key in keys {
      var i :| 0 <= i < |keys| && keys[i] == key;
      forall j | 0 <= j < k ensures Probed(hash, keys, k, 8 * |filter|, Probe(hash(key), j, 8 * |filter|)) {
        assert ProbedBy(hash(keys[i]), k, 8 * |filter|, Probe(hash(key), j, 8 * |filter|));
      }
    }
  }

  lemma {:induction false} ZeroBits(n: nat, b: nat)
    requires b < n
    ensures !ToBits(0, n)[b]
  {
    if b > 0 {
      ZeroBits(n - 1, b - 1);
    }
  }

  lemma EmptyFilter(filter: Bytes, hash: HashFunction, k: nat)
    requires |filter| > 0 && forall i :: 0 <= i < |filter| ==> filter[i] == 0
    ensures Exact(filter, hash, [], k)
  {
    forall p | 0 <= p < 8 * |filter| ensures !BitAt(filter, p) {
      ZeroBits(8, p % 8);
    }
  }

  lemma OneMoreKey(filter: Bytes, hash: HashFunction, keys: seq<Bytes>, key: Bytes, k: nat, filter': Bytes)
    requires |filter| > 0 && |filter'| == |filter| && Exact(filter, hash, keys, k)
    requires forall p :: 0 <= p < 8 * |filter| ==> (BitAt(filter', p) <==> BitAt(filter, p) || ProbedBy(hash(key), k, 8 * |filter|, p))
    ensures Exact(filter', hash, keys + [key], k)
  {
    hide BitAt, ProbedBy;
    var more := keys + [key];
    forall p | 0 <= p < 8 * |filter| ensures Probed(hash, more, k, 8 * |filter|, p) <==> Probed(hash, keys, k, 8 * |filter|, p) || ProbedBy(hash(key), k, 8 * |filter|, p) {
      if Probed(hash, keys, k, 8 * |filter|, p) {
        var i :| 0 <= i < |keys| && ProbedBy(hash(keys[i]), k, 8 * |filter|, p);
        assert more[i] == keys[i];
      }
      if ProbedBy(hash(key), k, 8 * |filter|, p) {
        assert more[|keys|] == key;
      }
    }
  }

  lemma NextProbe(h: Uint32, j: nat, bits: nat, p: nat)
    requires bits > 0
    ensures ProbedBy(h, j + 1, bits, p) <==> ProbedBy(h, j, bits, p) || p == Probe(h, j, bits)
  {
    hide Probe;
  }

  /** Whatever was set stays set. */
  ghost predicate Covers(filter: Bytes, filter': Bytes) {
    |filter| == |filter'| && forall p :: 0 <= p < 8 * |filter| && BitAt(filter, p) ==> BitAt(filter', p)
  }

  lemma MatchesMore(filter: Bytes, filter': Bytes, h: Uint32, k: nat)
    requires |filter| > 0 && Matches(filter, h, k) && Covers(filter, filter')
    ensures Matches(filter', h, k)
  {
    hide Probe, BitAt;
  }

  lemma NextHash(h: Uint32, j: nat, h0: Uint32)
    requires h == (h0 + j * Delta(h0)) % 0x1_0000_0000
    ensures (h + Delta(h0)) % 0x1_0000_0000 == (h0 + (j + 1) * Delta(h0)) % 0x1_0000_0000
  {
    hide Delta;
    var d := Delta(h0);
    assert h0 + (j + 1) * d == (h0 + j * d) + d;
  }

  lemma NoProbes(h: Uint32, bits: nat, p: nat)
    requires bits > 0
    ensures !ProbedBy(h, 0, bits, p)
  {
  }

  /** Set the bits of one key. */
  method AddKey(filter: Bytes, h0: Uint32, k: nat) returns (r: Bytes)
    requires |filter| > 0
    ensures Covers(filter, r) && Matches(r, h0, k) && |r| == |filter|
    ensures forall p :: 0 <= p < 8 * |filter| ==> (BitAt(r, p) <==> BitAt(filter, p) || ProbedBy(h0, k, 8 * |filter|, p))
  {
    hide BitAt, WithBit, Delta, ProbedBy;
    forall p | 0 <= p < 8 * |filter| ensures !ProbedBy(h0, 0, 8 * |filter|, p) {
      NoProbes(h0, 8 * |filter|, p);
    }
    r := filter;
    var h := h0;
    for j := 0 to k
      invariant Covers(filter, r) && Matches(r, h0, j) && h == (h0 + j * Delta(h0)) % 0x1_0000_0000
      invariant forall p :: 0 <= p < 8 * |filter| ==> (BitAt(r, p) <==> BitAt(filter, p) || ProbedBy(h0, j, 8 * |filter|, p))
    {
      var bitpos := h % (8 * |r|);
      assert bitpos == Probe(h0, j, 8 * |filter|);
      forall p | 0 <= p < 8 * |filter| ensures ProbedBy(h0, j + 1, 8 * |filter|, p) <==> ProbedBy(h0, j, 8 * |filter|, p) || p == bitpos {
        NextProbe(h0, j, 8 * |filter|, p);
      }
      ghost var before := r;
      r := WithBit(r, bitpos);
      forall q | 0 <= q < 8 * |before| ensures BitAt(r, q) <==> BitAt(before, q) || q == bitpos {
        WithBitSets(before, bitpos, q);
      }
      NextHash(h, j, h0);
      h := (h + Delta(h0)) % 0x1_0000_0000;
    }
  }

  /** The bytes of a filter for `n` keys: whole bytes, at least 64 bits, and the number of probes. */
  function FilterSize(n: nat, bitsPerKey: nat): nat {
    var bits := n * bitsPerKey;
    ((if bits < 64 then 64 else bits) + 7) / 8 + 1
  }

  lemma FilterSizeAtMost(n: nat, bitsPerKey: nat)
    requires n >= 1
    ensures FilterSize(n, bitsPerKey) <= n * (bitsPerKey + 10)
  {
    assert n * (bitsPerKey + 10) == n * bitsPerKey + n * 10;
  }

  /** A filter for a list of keys, followed by its number of probes. */
  method CreateFilter(hash: HashFunction, keys: seq<Bytes>, bitsPerKey: nat, k: nat) returns (filter: Bytes)
    requires 1 <= k <= 30
    ensures |filter| == FilterSize(|keys|, bitsPerKey) >= 9 && filter[|filter| - 1] as nat == k
    ensures forall i :: 0 <= i < |keys| ==> Matches(filter[..|filter| - 1], hash(keys[i]), k)
    ensures Exact(filter[..|filter| - 1], hash, keys, k)
  {
    hide Matches, Covers, Exact, BitAt, ProbedBy;
    var bits := |keys| * bitsPerKey;
    if bits < 64 {
      bits := 64;
    }
    var bytes := (bits + 7) / 8;
    var filled: Bytes := seq(bytes, _ => 0);
    EmptyFilter(filled, hash, k);
    assert keys[..0] == [];
    for i := 0 to |keys|
      invariant |filled| == bytes && Exact(filled, hash, keys[..i], k)
      invariant forall x :: 0 <= x < i ==> Matches(filled, hash(keys[x]), k)
    {
      var more := AddKey(filled, hash(keys[i]), k);
      CoversLength(filled, more);
      forall x | 0 <= x < i ensures Matches(more, hash(keys[x]), k) {
        MatchesMore(filled, more, hash(keys[x]), k);
      }
      OneMoreKey(filled, hash, keys[..i], keys[i], k, more);
      assert keys[..i] + [keys[i]] == keys[..i + 1];
      filled := more;
    }
    assert keys[..|keys|] == keys;
    filter := filled + [k as byte];
    assert filter[..|filter| - 1] == filled;
  }

  lemma CoversLength(filter: Bytes, filter': Bytes)
    requires Covers(filter, filter')
    ensures |filter| == |filter'|
  {
  }

  /** Probe a filter; anything not understood counts as a match. */
  method KeyMayMatch(hash: HashFunction, key: Bytes, filter: Bytes) returns (r: bool)
    ensures |filter| < 2 ==> !r
    ensures |filter| >= 2 ==>
              (r <==> filter[|filter| - 1] > 30 || Matches(filter[..|filter| - 1], hash(key), filter[|filter| - 1] as nat))
  {
    hide BitAt, Delta;
    if |filter| < 2 {
      return false;
    }
    var bits := filter[..|filter| - 1];
    var k := filter[|filter| - 1] as nat;
    if k > 30 {
      return true;
    }
    var h0 := hash(key);
    var h := h0;
    for j := 0 to k
      invariant Matches(bits, h0, j) && h == (h0 + j * Delta(h0)) % 0x1_0000_0000
    {
      var bitpos := h % (8 * |bits|);
      assert bitpos == Probe(h0, j, 8 * |bits|);
      if !BitAt(bits, bitpos) {
        return false;
      }
      NextHash(h, j, h0);
      h := (h + Delta(h0)) % 0x1_0000_0000;
    }
    r := true;
  }
}
