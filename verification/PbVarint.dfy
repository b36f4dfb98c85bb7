/** Base-128 variable-length integers, their 32- and 64-bit decoders, and signed integers. */
module PbVarint {
  import opened DbFormat

  const TWO_31: int := 0x8000_0000
  const TWO_32: int := 0x1_0000_0000
  const TWO_63: int := 0x8000_0000_0000_0000
  const TWO_64: int := 0x1_0000_0000_0000_0000

  /** Seven bits per byte, least significant group first; every byte but the last has its top bit set. */
  function Varint(v: nat): (r: Bytes)
    ensures r != []
  {
    if v < 128 then [v as byte] else [(v % 128 + 128) as byte] + Varint(v / 128)
  }

  /** Every group so far is in the buffer with its top bit set. */
  ghost predicate Filling(value: nat, buffer: Bytes, v: nat) {
    if v > 0 then buffer + Varint(v) == Varint(value)
    else buffer != [] && buffer[|buffer| - 1] >= 128 && LastCleared(buffer) == Varint(value)
  }

  function LastCleared(buffer: Bytes): (r: Bytes)
    requires buffer != [] && buffer[|buffer| - 1] >= 128
  {
    buffer[..|buffer| - 1] + [buffer[|buffer| - 1] - 128]
  }

  lemma FillStep(value: nat, buffer: Bytes, v: nat)
    requires Filling(value, buffer, v) && v > 0
    ensures Filling(value, buffer + [(v % 128 + 128) as byte], v / 128)
  {
    var group := (v % 128 + 128) as byte;
    if v < 128 {
      assert LastCleared(buffer + [group]) == buffer + [v as byte];
    } else {
      hide Filling;
      assert buffer + ([group] + Varint(v / 128)) == (buffer + [group]) + Varint(v / 128);
    }
  }

  lemma FillStart(value: nat)
    requires value > 0
    ensures Filling(value, [], value)
  {
    assert [] + Varint(value) == Varint(value);
  }

  lemma FillEnd(value: nat, buffer: Bytes)
    requires Filling(value, buffer, 0)
    ensures buffer != [] && buffer[|buffer| - 1] >= 128 && LastCleared(buffer) == Varint(value)
  {
  }

  lemma SmallVarint(value: nat)
    requires value <= 0x7F
    ensures Varint(value) == [value as byte]
  {
  }

  /** Fill a buffer with continuation bytes, then clear the top bit of the last one. */
  method EncodeVarint(value: nat) returns (buffer: Bytes)
    ensures buffer == Varint(value)
  {
    hide *;
    if value <= 0x7F {
      SmallVarint(value);
      return [value as byte];
    }
    buffer := [];
    var v := value;
    FillStart(value);
    while v > 0
      invariant Filling(value, buffer, v)
    {
      FillStep(value, buffer, v);
      buffer := buffer + [(v % 128 + 128) as byte];
      v := v / 128;
    }
    FillEnd(value, buffer);
    buffer := LastCleared(buffer);
  }

  function Pow128(k: nat): (r: nat)
    ensures r > 0
  {
    if k == 0 then 1 else 128 * Pow128(k - 1)
  }

  lemma {:induction false} Pow128AtLeast(k: nat)
    requires k >= 10
    ensures Pow128(k) > TWO_64
  {
    if k > 10 {
      Pow128AtLeast(k - 1);
    } else {
      assert Pow128(5) == 34359738368;
      assert Pow128(10) == 128 * 128 * 128 * 128 * 128 * Pow128(5);
    }
  }

  /** `result` with a group of seven bits put in at group position `k`. */
  function WithGroup(result: nat, group: nat, k: nat): nat {
    result + group * Pow128(k)
  }

  /** The same in a fixed width, the group being shifted left by `bitpos == 7 * k`. */
  function ShiftIn(result: nat, group: nat, scale: nat, modulus: nat): (r: nat)
    requires modulus > 0
    ensures r < modulus
  {
    (result + group * scale) % modulus
  }

  lemma ShiftInExact(result: nat, group: nat, k: nat, modulus: nat)
    requires modulus > 0
    ensures WithGroup(result, group, k) < modulus ==> ShiftIn(result, group, Pow128(k), modulus) == WithGroup(result, group, k)
  {
    hide Pow128;
  }

  /** Part-way through decoding `v`: `result` holds its low groups, `w` is what is still encoded. */
  ghost predicate Decoding(v: nat, k: nat, result: nat, w: nat, input: Bytes, rest: Bytes) {
    && v == result + w * Pow128(k) && result < Pow128(k) && input == Varint(w) + rest && (w == 0 ==> k == 0)
  }

  /** One byte of a well-formed encoding. */
  lemma DecodingStep(v: nat, k: nat, result: nat, w: nat, input: Bytes, rest: Bytes)
    requires Decoding(v, k, result, w, input, rest)
    ensures input != [] && WithGroup(result, input[0] as nat % 128, k) <= v
    ensures input[0] < 128 ==> WithGroup(result, input[0] as nat % 128, k) == v && input[1..] == rest
    ensures input[0] >= 128 ==> Decoding(v, k + 1, WithGroup(result, input[0] as nat % 128, k), w / 128, input[1..], rest)
  {
    var p := Pow128(k);
    assert w == w % 128 + 128 * (w / 128);
    SplitProduct(w % 128, w / 128, p);
    if w < 128 {
      assert Varint(w) == [w as byte];
    } else {
      assert Varint(w) == [(w % 128 + 128) as byte] + Varint(w / 128);
      assert input[1..] == Varint(w / 128) + rest;
      BelowNext(w % 128, p, result);
    }
  }

  lemma SplitProduct(lo: nat, hi: nat, p: nat)
    ensures (lo + 128 * hi) * p == lo * p + hi * (128 * p)
  {
  }

  lemma BelowNext(lo: nat, p: nat, result: nat)
    requires lo < 128 && result < p
    ensures result + lo * p < 128 * p
  {
    assert lo * p <= 127 * p;
  }

  lemma ProductAtLeast(w: nat, p: nat)
    ensures w > 0 ==> w * p >= p
  {
  }

  lemma NextPower(k: nat)
    ensures Pow128(k + 1) == 128 * Pow128(k) && Pow128(0) == 1
  {
  }

  lemma DecodingStarts(v: nat, input: Bytes, rest: Bytes)
    requires input == Varint(v) + rest
    ensures Decoding(v, 0, 0, v, input, rest)
  {
  }

  /** A group does not start beyond the value. */
  lemma GroupWithin(v: nat, k: nat, result: nat, w: nat, input: Bytes, rest: Bytes)
    requires Decoding(v, k, result, w, input, rest) && v < TWO_64
    ensures k < 10
  {
    if k >= 10 {
      Pow128AtLeast(k);
      ProductAtLeast(w, Pow128(k));
    }
  }

  /** The 64-bit decoder: bits are shifted into place modulo 2^64, and an eleventh byte is an overflow. */
  method DecodeVarint(input: Bytes, ghost v: nat, ghost rest: Bytes) returns (ok: bool, value: nat, left: Bytes)
    ensures ok ==> value < TWO_64 && |left| < |input|
    ensures v < TWO_64 && input == Varint(v) + rest ==> ok && value == v && left == rest
  {
    hide Varint, Decoding, Pow128, WithGroup, ShiftIn;
    var bitpos: nat, scale: nat, result: nat := 0, 1, 0;
    NextPower(0);
    left := input;
    ghost var k, w, good := 0, v, v < TWO_64 && input == Varint(v) + rest;
    if good {
      DecodingStarts(v, input, rest);
    }
    while true
      invariant bitpos == 7 * k && scale == Pow128(k) && result < TWO_64
      invariant |left| + k == |input|
      invariant good ==> v < TWO_64 && Decoding(v, k, result, w, left, rest)
      decreases |left|
    {
      if good {
        GroupWithin(v, k, result, w, left, rest);
        DecodingStep(v, k, result, w, left, rest);
      }
      NextPower(k);
      if bitpos >= 64 || left == [] {
        return false, 0, left;
      }
      var b := left[0] as nat;
      left := left[1..];
      ShiftInExact(result, b % 128, k, TWO_64);
      result := ShiftIn(result, b % 128, scale, TWO_64);
      bitpos, scale := bitpos + 7, scale * 128;
      if b < 128 {
        return true, result, left;
      }
      k, w := k + 1, w / 128;
    }
  }

  // ----------------------------------------------------------------------- 32-bit decoder

  lemma {:induction false} VarintLength(v: nat, k: nat)
    requires 0 < k && v < Pow128(k)
    ensures |Varint(v)| <= k
  {
    if v >= 128 {
      assert k > 1;
      assert v / 128 < Pow128(k - 1);
      VarintLength(v / 128, k - 1);
    }
  }

  lemma SmallPowers()
    ensures Pow128(1) == 128 && Pow128(2) == 0x4000 && Pow128(3) == 0x20_0000 && Pow128(4) == 0x1000_0000 && Pow128(5) == 0x8_0000_0000
  {
  }

  lemma {:induction false} Pow128Monotone(k: nat, n: nat)
    requires k <= n
    ensures Pow128(k) <= Pow128(n)
    decreases n - k
  {
    if k < n {
      Pow128Monotone(k, n - 1);
    }
  }

  /** A 32-bit value has at most five groups, and at most four bits in the fifth. */
  lemma GroupWithin32(v: nat, k: nat, result: nat, w: nat, input: Bytes, rest: Bytes)
    requires Decoding(v, k, result, w, input, rest) && v < TWO_32
    ensures k < 5 && (k == 4 ==> w < 16)
  {
    SmallPowers();
    if k >= 5 {
      Pow128Monotone(5, k);
      ProductAtLeast(w, Pow128(k));
    }
  }

  /** One group after the first, in 32 bits: it ends the value, or there are more. */
  lemma Group32(v: nat, k: nat, result: nat, w: nat, input: Bytes, rest: Bytes, scale: nat)
    requires Decoding(v, k, result, w, input, rest) && v < TWO_32 && scale == Pow128(k)
    ensures input != [] && k < 5 && (k == 4 ==> input[0] < 16) && scale * 128 == Pow128(k + 1)
    ensures var result' := ShiftIn(result, input[0] as nat % 128, scale, TWO_32);
            if input[0] < 128 then result' == v && input[1..] == rest else Decoding(v, k + 1, result', w / 128, input[1..], rest)
  {
    hide Varint, Decoding, Pow128, WithGroup, ShiftIn;
    GroupWithin32(v, k, result, w, input, rest);
    DecodingStep(v, k, result, w, input, rest);
    FifthByte(v, k, result, w, input, rest);
    ShiftInExact(result, input[0] as nat % 128, k, TWO_32);
    NextPower(k);
  }

  lemma FirstByte(v: nat, input: Bytes, rest: Bytes)
    requires Decoding(v, 0, 0, v, input, rest)
    ensures WithGroup(0, input[0] as nat % 128, 0) == input[0] as nat % 128
  {
  }

  /** The fifth group's byte fits in four bits. */
  lemma FifthByte(v: nat, k: nat, result: nat, w: nat, input: Bytes, rest: Bytes)
    requires Decoding(v, k, result, w, input, rest) && v < TWO_32
    ensures k == 4 ==> input != [] && input[0] < 16
  {
    GroupWithin32(v, k, result, w, input, rest);
    if k == 4 {
      assert Varint(w) == [w as byte];
    }
  }

  /** The 32-bit decoder.  Groups past bit 32 must be zero or a sign extension; a value cut short at the
      very first byte is an end of stream. */
  method DecodeVarint32(input: Bytes, ghost v: nat, ghost rest: Bytes)
    returns (ok: bool, value: nat, left: Bytes, eof: bool)
    ensures ok ==> value < TWO_32 && |left| < |input|
    ensures eof <==> input == []
    ensures v < TWO_32 && input == Varint(v) + rest ==> ok && value == v && left == rest
  {
    hide Varint, Decoding, Pow128, WithGroup, ShiftIn;
    ghost var good := v < TWO_32 && input == Varint(v) + rest;
    if input == [] {
      return false, 0, input, true;
    }
    eof, left := false, input[1..];
    var b := input[0] as nat;
    if good {
      DecodingStarts(v, input, rest);
      DecodingStep(v, 0, 0, v, input, rest);
      FirstByte(v, input, rest);
    }
    if b < 128 {
      return true, b, left, false;
    }
    var bitpos: nat, scale: nat, result: nat := 7, 128, b % 128;
    ghost var k: nat, w: nat := 1, v / 128;
    NextPower(0);
    while true
      invariant bitpos < 256 && result < TWO_32 && |left| < |input|
      invariant good ==> v < TWO_32 && Decoding(v, k, result, w, left, rest) && bitpos == 7 * k && scale == Pow128(k)
      decreases |left|
    {
      if good {
        Group32(v, k, result, w, left, rest, scale);
      }
      if left == [] {
        return false, 0, left, false;
      }
      b, left := left[0] as nat, left[1..];
      if bitpos >= 32 {
        var signExtension := if bitpos < 63 then 0xFF else 0x01;
        if b % 128 != 0 && (result / TWO_31 == 0 || b != signExtension) {
          return false, 0, left, false;
        }
      } else {
        result := ShiftIn(result, b % 128, scale, TWO_32);
      }
      bitpos, scale := (bitpos + 7) % 256, scale * 128;
      if b < 128 {
        break;
      }
      k, w := k + 1, w / 128;
    }
    if bitpos == 35 && b / 16 % 8 != 0 {
      return false, 0, left, false;
    }
    return true, result, left, false;
  }

  // ------------------------------------------------------------------------ signed integers

  /** Two's complement in 64 bits. */
  function ToUnsigned(i: int): (u: nat)
    ensures u < TWO_64
    ensures -TWO_63 <= i < TWO_63 ==> u == if i < 0 then i + TWO_64 else i
  {
    i % TWO_64
  }

  /** Reading the low `bits` of a value as a signed integer. */
  function ToSigned(u: nat, modulus: nat): (i: int)
    requires modulus > 0
  {
    if u % modulus >= modulus / 2 then u % modulus - modulus else u % modulus
  }

  /** Small magnitudes of either sign become small numbers. */
  function ZigZag(i: int): (u: nat)
    ensures -TWO_63 <= i < TWO_63 ==> u < TWO_64
  {
    if i < 0 then -2 * i - 1 else 2 * i
  }

  function UnZigZag(u: nat): (i: int) {
    if u % 2 == 1 then -(u / 2) - 1 else u / 2
  }

  lemma ZigZagRoundTrip(i: int)
    requires -TWO_63 <= i < TWO_63
    ensures UnZigZag(ZigZag(i)) == i && (ZigZag(i) % 2 == 1 <==> i < 0)
    ensures ZigZag(i) / 2 == (if i < 0 then -i - 1 else i)
  {
  }

  lemma SignedRoundTrip(i: int)
    requires -TWO_63 <= i < TWO_63
    ensures ToSigned(ToUnsigned(i), TWO_64) == i
    ensures -TWO_31 <= i < TWO_31 ==> ToSigned(ToUnsigned(i), TWO_32) == i
  {
    if -TWO_31 <= i < 0 {
      assert ToUnsigned(i) == (i + TWO_32) + (TWO_32 - 1) * TWO_32;
      assert ToUnsigned(i) % TWO_32 == i + TWO_32;
    }
  }
}
