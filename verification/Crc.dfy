/** The checksum of a log record: CRC32C as a fold over bytes, and how it is stored. */
module Crc {
  import opened DbFormat

  type Uint32 = x: nat | x < 0x1_0000_0000

  // ------------------------------------------------------------------------------ CRC32C

  function Xor(a: bv32, b: bv32): bv32 {
    a ^ b
  }

  /** One bit of the reflected division by the CRC32C polynomial. */
  function Bit(l: bv32): bv32 {
    if Odd(l) then Reduce(Half(l)) else Half(l)
  }

  predicate Odd(x: bv32) {
    x & 1 == 1
  }

  function Half(x: bv32): bv32 {
    x >> 1
  }

  function Reduce(l: bv32): bv32 {
    l ^ 0x82F6_3B78
  }

  function Bit2(l: bv32): bv32 {
    Bit(Bit(l))
  }

  function Bit4(l: bv32): bv32 {
    Bit2(Bit2(l))
  }

  /** Eight of them. */
  function Bit8(l: bv32): bv32 {
    Bit4(Bit4(l))
  }

  /** The low `k` bits of a number as a word. */
  function Word(n: nat, k: nat): bv32 {
    if k == 0 then 0 else (Word(n / 2, k - 1) << 1) | (if n % 2 == 1 then 1 else 0)
  }

  function Step(l: bv32, b: byte): bv32 {
    Bit8(Xor(l, Word(b as nat, 8)))
  }

  function Fold(l: bv32, data: Bytes): bv32 {
    if data == [] then l else Step(Fold(l, data[..|data| - 1]), data[|data| - 1])
  }

  function Flip(l: bv32): bv32 {
    l ^ 0xFFFF_FFFF
  }

  function Extend(crc: bv32, data: Bytes): bv32 {
    Flip(Fold(Flip(crc), data))
  }

  function Value(data: Bytes): bv32 {
    Extend(0, data)
  }

  lemma FoldLast(l: bv32, data: Bytes)
    requires data != []
    ensures Fold(l, data) == Step(Fold(l, data[..|data| - 1]), data[|data| - 1])
  {
    hide Step;
  }

  lemma NoData(l: bv32)
    ensures Fold(l, []) == l
  {
  }

  lemma {:induction false} FoldConcat(l: bv32, a: Bytes, b: Bytes)
    ensures Fold(l, a + b) == Fold(Fold(l, a), b)
    decreases |b|
  {
    hide *;
    if b == [] {
      assert a + b == a;
      NoData(Fold(l, a));
    } else {
      var init := b[..|b| - 1];
      FoldConcat(l, a, init);
      FoldLast(l, a + b);
      FoldLast(Fold(l, a), b);
      assert (a + b)[..|a + b| - 1] == a + init && (a + b)[|a + b| - 1] == b[|b| - 1];
    }
  }

  /** Extending the checksum of a prefix gives the checksum of the whole. */
  lemma ExtendConcat(a: Bytes, b: Bytes)
    ensures Extend(Value(a), b) == Value(a + b)
  {
    hide Fold, Flip;
    FoldConcat(Flip(0), a, b);
    FlipTwice(Fold(Flip(0), a));
  }

  lemma FlipTwice(l: bv32)
    ensures Flip(Flip(l)) == l
  {
  }

  // --------------------------------------------------------------------- error detection

  lemma BitInjective(a: bv32, b: bv32)
    requires Bit(a) == Bit(b)
    ensures a == b
  {
  }

  lemma Bit2Injective(a: bv32, b: bv32)
    requires Bit2(a) == Bit2(b)
    ensures a == b
  {
    hide Bit;
    BitInjective(Bit(a), Bit(b));
    BitInjective(a, b);
  }

  lemma Bit8Injective(a: bv32, b: bv32)
    requires Bit8(a) == Bit8(b)
    ensures a == b
  {
    hide Bit2;
    Bit2Injective(Bit2(Bit4(a)), Bit2(Bit4(b)));
    Bit2Injective(Bit4(a), Bit4(b));
    Bit2Injective(Bit2(a), Bit2(b));
    Bit2Injective(a, b);
  }

  lemma XorAssociates(l: bv32, x: bv32, m: bv32)
    ensures Xor(l, Xor(x, m)) == Xor(Xor(l, x), m)
  {
    assert l ^ (x ^ m) == (l ^ x) ^ m;
  }

  lemma XorZero(l: bv32)
    ensures Xor(l, 0) == l && Xor(0, l) == l
  {
    assert l ^ 0 == l && 0 ^ l == l;
  }

  lemma XorLeft(l: bv32, x: bv32, m: bv32)
    requires Xor(l, x) == Xor(l, m)
    ensures x == m
  {
    assert l ^ x == l ^ m;
  }

  lemma XorRight(l: bv32, x: bv32, m: bv32)
    requires Xor(l, x) == Xor(m, x)
    ensures l == m
  {
    assert l ^ x == m ^ x;
  }

  function Up(m: bv32): bv32 {
    m << 1
  }

  /** The top `k` bits are clear. */
  predicate Clear(m: bv32, k: nat)
    requires k <= 32
    decreases k
  {
    k == 0 || (m < 0x8000_0000 && Clear(Up(m), k - 1))
  }

  lemma OddKept(l: bv32, m: bv32)
    ensures Odd(Xor(l, Up(m))) == Odd(l)
  {
  }

  lemma HalfKept(l: bv32, m: bv32)
    requires m < 0x8000_0000
    ensures Half(Xor(l, Up(m))) == Xor(Half(l), m)
  {
  }

  lemma ReduceKept(h: bv32, m: bv32)
    ensures Reduce(Xor(h, m)) == Xor(Reduce(h), m)
  {
  }

  /** What is above the low bit only moves down. */
  lemma BitShift(l: bv32, m: bv32)
    requires m < 0x8000_0000
    ensures Bit(Xor(l, Up(m))) == Xor(Bit(l), m)
  {
    hide Odd, Half, Reduce, Xor, Up;
    OddKept(l, m);
    HalfKept(l, m);
    ReduceKept(Half(l), m);
  }

  lemma ClearLess(m: bv32, k: nat)
    requires 0 < k <= 32 && Clear(m, k)
    ensures m < 0x8000_0000 && Clear(Up(m), k - 1)
  {
  }

  lemma {:induction false} ClearFewer(m: bv32, k: nat, j: nat)
    requires j <= k <= 32 && Clear(m, k)
    ensures Clear(m, j)
    decreases k
  {
    hide Up;
    if j > 0 {
      ClearFewer(Up(m), k - 1, j - 1);
    }
  }

  function Up2(m: bv32): bv32 {
    Up(Up(m))
  }

  function Up4(m: bv32): bv32 {
    Up2(Up2(m))
  }

  function Up8(m: bv32): bv32 {
    Up4(Up4(m))
  }

  lemma Bit2Shift(l: bv32, m: bv32)
    requires Clear(m, 2)
    ensures Bit2(Xor(l, Up2(m))) == Xor(Bit2(l), m)
  {
    ClearLess(m, 2);
    ClearLess(Up(m), 1);
    hide Bit, Xor, Up, Clear;
    BitShift(l, Up(m));
    BitShift(Bit(l), m);
  }

  lemma Clear2(m: bv32, k: nat)
    requires 2 <= k <= 32 && Clear(m, k)
    ensures Clear(Up2(m), k - 2)
  {
    ClearLess(m, k);
    ClearLess(Up(m), k - 1);
  }

  lemma Bit4Shift(l: bv32, m: bv32)
    requires Clear(m, 4)
    ensures Bit4(Xor(l, Up4(m))) == Xor(Bit4(l), m)
  {
    Clear2(m, 4);
    ClearFewer(m, 4, 2);
    hide Bit2, Xor, Up2, Clear;
    Bit2Shift(l, Up2(m));
    Bit2Shift(Bit2(l), m);
  }

  lemma Bit8Shift(l: bv32, m: bv32)
    requires Clear(m, 8)
    ensures Bit8(Xor(l, Up8(m))) == Xor(Bit8(l), m)
  {
    Clear2(m, 8);
    Clear2(Up2(m), 6);
    ClearFewer(m, 8, 4);
    hide Bit4, Xor, Up2, Clear;
    Bit4Shift(l, Up4(m));
    Bit4Shift(Bit4(l), m);
  }

  // ----------------------------------------------------------------------- bytes as words

  /** 2^k for small k. */
  function Bound(k: nat): bv32 {
    if k == 0 then 1 else Bound(k - 1) << 1
  }

  lemma BoundIs()
    ensures Bound(8) == 0x100 && Bound(7) == 0x80 && Bound(6) == 0x40 && Bound(5) == 0x20
    ensures Bound(4) == 0x10 && Bound(3) == 8 && Bound(2) == 4 && Bound(1) == 2 && Bound(0) == 1
  {
    assert Bound(4) == 0x10 && Bound(5) == 0x20;
  }

  lemma BoundSmall(k: nat)
    requires k <= 8
    ensures 1 <= Bound(k) <= 0x100
  {
    BoundIs();
  }

  lemma BitAppended(x: bv32, low: bv32, top: bv32)
    requires x < top <= 0x100 && low <= 1
    ensures (x << 1) | low < top << 1
  {
  }

  lemma {:induction false} WordBelow(n: nat, k: nat)
    requires k <= 8
    ensures Word(n, k) < Bound(k)
  {
    if k > 0 {
      WordBelow(n / 2, k - 1);
      BoundSmall(k - 1);
      BitAppended(Word(n / 2, k - 1), if n % 2 == 1 then 1 else 0, Bound(k - 1));
    }
  }

  lemma ShiftedApart(x: bv32, y: bv32, a: bv32, b: bv32)
    requires x < 0x8000_0000 && y < 0x8000_0000 && a <= 1 && b <= 1 && (x << 1) | a == (y << 1) | b
    ensures x == y && a == b
  {
  }

  function Two(k: nat): nat {
    if k == 0 then 1 else 2 * Two(k - 1)
  }

  lemma {:induction false} WordInjective(n: nat, m: nat, k: nat)
    requires k <= 8 && n < Two(k) && m < Two(k) && Word(n, k) == Word(m, k)
    ensures n == m
  {
    if k > 0 {
      WordBelow(n / 2, k - 1);
      WordBelow(m / 2, k - 1);
      BoundSmall(k - 1);
      var x, y := Word(n / 2, k - 1), Word(m / 2, k - 1);
      assert x < 0x8000_0000 && y < 0x8000_0000;
      ShiftedApart(x, y, if n % 2 == 1 then 1 else 0, if m % 2 == 1 then 1 else 0);
      WordInjective(n / 2, m / 2, k - 1);
    }
  }

  /** A byte as a word. */
  function ByteWord(b: byte): bv32 {
    Word(b as nat, 8)
  }

  predicate Byte(x: bv32) {
    x < 0x100
  }

  lemma ByteWordIs(b: byte, c: byte)
    ensures Byte(ByteWord(b))
    ensures ByteWord(b) == ByteWord(c) ==> b == c
  {
    WordBelow(b as nat, 8);
    BoundIs();
    assert Two(4) == 16 && Two(8) == 256;
    if ByteWord(b) == ByteWord(c) {
      WordInjective(b as nat, c as nat, 8);
    }
  }

  lemma StepIs(l: bv32, b: byte)
    ensures Step(l, b) == Bit8(Xor(l, ByteWord(b)))
  {
    hide Bit8, Xor, Word;
  }

  /** For one byte the step is injective in the state, and for one state in the byte. */
  lemma StepInjective(l: bv32, l': bv32, b: byte, b': byte)
    requires Step(l, b) == Step(l', b')
    ensures b == b' ==> l == l'
    ensures l == l' ==> b == b'
  {
    hide *;
    StepIs(l, b);
    StepIs(l', b');
    Bit8Injective(Xor(l, ByteWord(b)), Xor(l', ByteWord(b')));
    if b == b' {
      XorRight(l, ByteWord(b), l');
    } else if l == l' {
      XorLeft(l, ByteWord(b), ByteWord(b'));
      ByteWordIs(b, b');
    }
  }

  lemma {:induction false} FoldInjective(l: bv32, l': bv32, data: Bytes)
    requires Fold(l, data) == Fold(l', data)
    ensures l == l'
    decreases |data|
  {
    hide *;
    if data == [] {
      NoData(l);
      NoData(l');
    } else {
      var n := |data| - 1;
      FoldLast(l, data);
      FoldLast(l', data);
      StepInjective(Fold(l, data[..n]), Fold(l', data[..n]), data[n], data[n]);
      FoldInjective(l, l', data[..n]);
    }
  }

  // ------------------------------------------------------------------------------- bursts

  /** Up to four bytes as one word. */
  function Join(w: Bytes): bv32 {
    if w == [] then 0 else Xor(ByteWord(w[0]), Up8(Join(w[1..])))
  }

  predicate Small(m: bv32, n: nat) {
    match n
    case 0 => m == 0
    case 1 => m < 0x100
    case 2 => m < 0x1_0000
    case 3 => m < 0x100_0000
    case _ => true
  }

  lemma Up8Is(m: bv32)
    ensures Up8(m) == m << 8
  {
  }

  lemma Grow(x: bv32, m: bv32)
    requires x < 0x100
    ensures m == 0 ==> x ^ (m << 8) < 0x100
    ensures m < 0x100 ==> x ^ (m << 8) < 0x1_0000
    ensures m < 0x1_0000 ==> x ^ (m << 8) < 0x100_0000
  {
  }

  lemma JoinGrows(x: bv32, m: bv32, n: nat)
    requires Byte(x) && Small(m, n)
    ensures Small(Xor(x, Up8(m)), n + 1)
  {
    Up8Is(m);
    Grow(x, m);
    hide Up8;
  }

  lemma {:induction false} JoinSmall(w: Bytes)
    ensures Small(Join(w), |w|)
  {
    if w != [] {
      hide ByteWord, Xor, Up8, Small, Byte;
      JoinSmall(w[1..]);
      ByteWordIs(w[0], w[0]);
      JoinGrows(ByteWord(w[0]), Join(w[1..]), |w| - 1);
    }
  }

  lemma PartsApart(x: bv32, m: bv32, x': bv32, m': bv32)
    requires x < 0x100 && x' < 0x100 && m < 0x100_0000 && m' < 0x100_0000 && x ^ (m << 8) == x' ^ (m' << 8)
    ensures x == x' && m == m'
  {
  }

  lemma SmallBelow(m: bv32, n: nat)
    requires n <= 3 && Small(m, n)
    ensures m < 0x100_0000 && Small(m, 3)
  {
  }

  lemma JoinApart(x: bv32, m: bv32, x': bv32, m': bv32)
    requires Byte(x) && Byte(x') && Small(m, 3) && Small(m', 3) && Xor(x, Up8(m)) == Xor(x', Up8(m'))
    ensures x == x' && m == m'
  {
    hide *;
    JoinIs(x, m);
    JoinIs(x', m');
    SmallIs(x, m);
    SmallIs(x', m');
    PartsApart(x, m, x', m');
  }

  lemma JoinIs(x: bv32, m: bv32)
    ensures Xor(x, Up8(m)) == x ^ (m << 8)
  {
    Up8Is(m);
    hide Up8;
  }

  lemma SmallIs(x: bv32, m: bv32)
    ensures Byte(x) ==> x < 0x100
    ensures Small(m, 3) ==> m < 0x100_0000
  {
  }

  lemma {:induction false} JoinInjective(w: Bytes, v: Bytes)
    requires |w| == |v| <= 4 && Join(w) == Join(v)
    ensures w == v
  {
    if w != [] {
      hide ByteWord, Xor, Up8, Small, Byte;
      ByteWordIs(w[0], v[0]);
      ByteWordIs(v[0], w[0]);
      JoinSmall(w[1..]);
      JoinSmall(v[1..]);
      SmallBelow(Join(w[1..]), |w| - 1);
      SmallBelow(Join(v[1..]), |v| - 1);
      JoinApart(ByteWord(w[0]), Join(w[1..]), ByteWord(v[0]), Join(v[1..]));
      JoinInjective(w[1..], v[1..]);
      assert w == [w[0]] + w[1..] && v == [v[0]] + v[1..];
    }
  }

  /** `8 * n` bit steps. */
  function Steps(l: bv32, n: nat): bv32
    decreases n
  {
    if n == 0 then l else Steps(Bit8(l), n - 1)
  }

  lemma {:induction false} StepsInjective(l: bv32, l': bv32, n: nat)
    requires Steps(l, n) == Steps(l', n)
    ensures l == l'
    decreases n
  {
    hide Bit8;
    if n > 0 {
      StepsInjective(Bit8(l), Bit8(l'), n - 1);
      Bit8Injective(l, l');
    }
  }

  lemma FoldFirst(l: bv32, b: byte, rest: Bytes)
    ensures Fold(l, [b] + rest) == Fold(Step(l, b), rest)
  {
    hide *;
    FoldConcat(l, [b], rest);
    FoldLast(l, [b]);
    assert [b][..0] == [];
    NoData(l);
  }

  lemma ShiftChain(m: bv32)
    requires m < 0x100_0000
    ensures m << 1 < 0x8000_0000 && m << 2 < 0x8000_0000 && m << 3 < 0x8000_0000 && m << 4 < 0x8000_0000
    ensures m << 5 < 0x8000_0000 && m << 6 < 0x8000_0000 && m << 7 < 0x8000_0000
    ensures m << 2 == (m << 1) << 1 && m << 3 == (m << 2) << 1 && m << 4 == (m << 3) << 1 && m << 5 == (m << 4) << 1
    ensures m << 6 == (m << 5) << 1 && m << 7 == (m << 6) << 1
  {
  }

  lemma Clear8(m: bv32)
    requires m < 0x100_0000
    ensures Clear(m, 8)
  {
    ShiftChain(m);
    assert Clear(m << 7, 1);
    assert Clear(m << 6, 2);
    assert Clear(m << 5, 3);
    assert Clear(m << 4, 4);
    assert Clear(m << 3, 5);
    assert Clear(m << 2, 6);
    assert Clear(m << 1, 7);
  }

  lemma StepJoins(l: bv32, b: byte, m: bv32)
    requires m < 0x100_0000
    ensures Bit8(Xor(l, Xor(ByteWord(b), Up8(m)))) == Xor(Step(l, b), m)
  {
    Clear8(m);
    hide *;
    StepIs(l, b);
    XorAssociates(l, ByteWord(b), Up8(m));
    Bit8Shift(Xor(l, ByteWord(b)), m);
  }

  /** Up to four bytes are folded in as one word. */
  lemma {:induction false} FoldJoins(l: bv32, w: Bytes)
    requires |w| <= 4
    ensures Fold(l, w) == Steps(Xor(l, Join(w)), |w|)
    decreases |w|
  {
    if w == [] {
      XorZero(l);
      hide Xor;
    } else {
      hide Step, Bit8, ByteWord, Xor, Up8, Small, Fold;
      assert w == [w[0]] + w[1..];
      FoldFirst(l, w[0], w[1..]);
      JoinSmall(w[1..]);
      SmallBelow(Join(w[1..]), |w| - 1);
      StepJoins(l, w[0], Join(w[1..]));
      FoldJoins(Step(l, w[0]), w[1..]);
    }
  }

  /** Byte strings that differ only in a window of up to four bytes have different checksums. */
  lemma BurstDetected(a: Bytes, w: Bytes, v: Bytes, c: Bytes)
    requires |w| == |v| <= 4 && w != v
    ensures Value(a + w + c) != Value(a + v + c)
  {
    hide *;
    var l := Fold(Flip(0), a);
    FoldConcat(Flip(0), a, w);
    FoldConcat(Flip(0), a + w, c);
    FoldConcat(Flip(0), a, v);
    FoldConcat(Flip(0), a + v, c);
    ValueIs(a + w + c);
    ValueIs(a + v + c);
    FlipTwice(Fold(Flip(0), a + w + c));
    FlipTwice(Fold(Flip(0), a + v + c));
    if Value(a + w + c) == Value(a + v + c) {
      FoldInjective(Fold(l, w), Fold(l, v), c);
      FoldJoins(l, w);
      FoldJoins(l, v);
      StepsInjective(Xor(l, Join(w)), Xor(l, Join(v)), |w|);
      XorLeft(l, Join(w), Join(v));
      JoinInjective(w, v);
    }
  }

  lemma ValueIs(data: Bytes)
    ensures Value(data) == Flip(Fold(Flip(0), data))
  {
    hide Fold, Flip;
  }

  // ------------------------------------------------------------------------ a known value

  function Zeros(n: nat): (r: Bytes)
    ensures |r| == n
  {
    seq(n, _ => 0)
  }

  lemma ZeroStep(l: bv32)
    ensures Step(l, 0) == Bit8(l)
  {
    assert Word(0, 4) == 0;
    assert Word(0, 8) == 0;
    XorZero(l);
    hide Bit8, Xor, Word;
  }

  /** One more zero byte. */
  lemma NextZero(n: nat, l: bv32, next: bv32)
    requires Fold(0xFFFF_FFFF, Zeros(n)) == l && Bit8(l) == next
    ensures Fold(0xFFFF_FFFF, Zeros(n + 1)) == next
  {
    hide Bit8, Step, Fold;
    FoldLast(0xFFFF_FFFF, Zeros(n + 1));
    assert Zeros(n + 1)[..n] == Zeros(n);
    ZeroStep(l);
  }

  lemma Zeros8()
    requires Fold(0xFFFF_FFFF, Zeros(0)) == 0xFFFF_FFFF
    ensures Fold(0xFFFF_FFFF, Zeros(8)) == 0x73D7_4D75
  {
    hide Fold, Zeros;
    NextZero(0, 0xFFFF_FFFF, 0xAD82_ACAE);
    NextZero(1, 0xAD82_ACAE, 0x0E9E_882D);
    NextZero(2, 0x0E9E_882D, 0x9F9B_5C85);
    NextZero(3, 0x9F9B_5C85, 0xB798_B438);
    NextZero(4, 0xB798_B438, 0xBA8D_89CA);
    NextZero(5, 0xBA8D_89CA, 0xA8D5_8375);
    NextZero(6, 0xA8D5_8375, 0x44C1_9592);
    NextZero(7, 0x44C1_9592, 0x73D7_4D75);
  }

  lemma Zeros16()
    requires Fold(0xFFFF_FFFF, Zeros(8)) == 0x73D7_4D75
    ensures Fold(0xFFFF_FFFF, Zeros(16)) == 0xBD8F_6515
  {
    hide Fold, Zeros;
    NextZero(8, 0x73D7_4D75, 0x441A_975C);
    NextZero(9, 0x441A_975C, 0x1C22_0F94);
    NextZero(10, 0x1C22_0F94, 0x552E_4907);
    NextZero(11, 0x552E_4907, 0xD49F_4AA2);
    NextZero(12, 0xD49F_4AA2, 0x43A4_5A1B);
    NextZero(13, 0x43A4_5A1B, 0x8994_C80E);
    NextZero(14, 0x8994_C80E, 0xACF1_2BEF);
    NextZero(15, 0xACF1_2BEF, 0xBD8F_6515);
  }

  lemma Zeros24()
    requires Fold(0xFFFF_FFFF, Zeros(16)) == 0xBD8F_6515
    ensures Fold(0xFFFF_FFFF, Zeros(24)) == 0x7B04_1311
  {
    hide Fold, Zeros;
    NextZero(16, 0xBD8F_6515, 0x2512_5C16);
    NextZero(17, 0x2512_5C16, 0x36DA_32DB);
    NextZero(18, 0x36DA_32DB, 0x4A6C_90A2);
    NextZero(19, 0x4A6C_90A2, 0x433A_A9C1);
    NextZero(20, 0x433A_A9C1, 0x31A5_9F6E);
    NextZero(21, 0x31A5_9F6E, 0xCD8F_89DA);
    NextZero(22, 0xCD8F_89DA, 0xB8FC_461A);
    NextZero(23, 0xB8FC_461A, 0x7B04_1311);
  }

  lemma Zeros32()
    requires Fold(0xFFFF_FFFF, Zeros(24)) == 0x7B04_1311
    ensures Fold(0xFFFF_FFFF, Zeros(32)) == 0x756E_C955
  {
    hide Fold, Zeros;
    NextZero(24, 0x7B04_1311, 0xE24E_407F);
    NextZero(25, 0xE24E_407F, 0x2F69_2669);
    NextZero(26, 0x2F69_2669, 0x195B_2188);
    NextZero(27, 0x195B_2188, 0x0836_3896);
    NextZero(28, 0x0836_3896, 0xB401_2DC7);
    NextZero(29, 0xB401_2DC7, 0x17F3_4302);
    NextZero(30, 0x17F3_4302, 0xE12C_83B4);
    NextZero(31, 0xE12C_83B4, 0x756E_C955);
  }

  /** The value that appendix B.4 of RFC 3720 gives for 32 bytes of zeros. */
  lemma KnownValue()
    ensures Value(Zeros(32)) == 0x8A91_36AA
  {
    assert Zeros(0) == [];
    NoData(0xFFFF_FFFF);
    ValueIs(Zeros(32));
    assert Flip(0) == 0xFFFF_FFFF && Flip(0x756E_C955) == 0x8A91_36AA;
    hide *;
    Zeros8();
    Zeros16();
    Zeros24();
    Zeros32();
  }

  // ------------------------------------------------------------------- words as numbers

  predicate Under(x: bv32, k: nat) {
    x < Bound(k)
  }

  /** The low `k` bits as a number. */
  function Number(x: bv32, k: nat): (r: nat)
    ensures r < Two(k)
    decreases k
  {
    if k == 0 then 0 else (if Odd(x) then 1 else 0) + 2 * Number(Half(x), k - 1)
  }

  lemma UnderNothing(x: bv32)
    requires Under(x, 0)
    ensures x == 0
  {
  }

  lemma HalfBelow(x: bv32, top: bv32)
    requires x < top << 1 && 1 <= top <= 0x80
    ensures x >> 1 < top
  {
  }

  lemma UnderHalf(x: bv32, k: nat)
    requires 1 <= k <= 8 && Under(x, k)
    ensures Under(Half(x), k - 1)
  {
    BoundIs();
    HalfBelow(x, Bound(k - 1));
  }

  lemma SameHalves(x: bv32, y: bv32)
    requires (x & 1 == 1 <==> y & 1 == 1) && x >> 1 == y >> 1
    ensures x == y
  {
  }

  lemma FromHalves(x: bv32, y: bv32)
    requires Odd(x) == Odd(y) && Half(x) == Half(y)
    ensures x == y
  {
    SameHalves(x, y);
  }

  lemma NumberStep(x: bv32, k: nat)
    requires k > 0
    ensures Number(x, k) == (if Odd(x) then 1 else 0) + 2 * Number(Half(x), k - 1)
  {
    hide Odd, Half;
  }

  lemma ParityApart(p: nat, a: nat, q: nat, b: nat)
    requires p < 2 && q < 2 && p + 2 * a == q + 2 * b
    ensures p == q && a == b
  {
  }

  lemma {:induction false} NumberInjective(x: bv32, y: bv32, k: nat)
    requires k <= 8 && Under(x, k) && Under(y, k) && Number(x, k) == Number(y, k)
    ensures x == y
    decreases k
  {
    hide *;
    if k == 0 {
      UnderNothing(x);
      UnderNothing(y);
    } else {
      NumberStep(x, k);
      NumberStep(y, k);
      ParityApart(if Odd(x) then 1 else 0, Number(Half(x), k - 1), if Odd(y) then 1 else 0, Number(Half(y), k - 1));
      UnderHalf(x, k);
      UnderHalf(y, k);
      NumberInjective(Half(x), Half(y), k - 1);
      FromHalves(x, y);
    }
  }

  function Low8(x: bv32): bv32 {
    x & 0xFF
  }

  function Down8(x: bv32): bv32 {
    x >> 8
  }

  /** A byte of a word. */
  function ByteOf(x: bv32): (r: nat)
    ensures r < 256
  {
    assert Two(4) == 16 && Two(8) == 256;
    Number(Low8(x), 8)
  }

  /** The word as a number. */
  function ToNat(x: bv32): Uint32 {
    ByteOf(x) + 0x100 * ByteOf(Down8(x)) + 0x1_0000 * ByteOf(Down8(Down8(x))) + 0x100_0000 * ByteOf(Down8(Down8(Down8(x))))
  }

  lemma ByteOfIs(x: bv32)
    ensures ByteOf(x) == Number(Low8(x), 8) && Under(Low8(x), 8)
  {
    BoundIs();
    assert x & 0xFF < 0x100;
    hide Number;
  }

  lemma ByteOfInjective(x: bv32, y: bv32)
    requires ByteOf(x) == ByteOf(y)
    ensures Low8(x) == Low8(y)
  {
    hide *;
    ByteOfIs(x);
    ByteOfIs(y);
    NumberInjective(Low8(x), Low8(y), 8);
  }

  lemma DigitsApart(a: nat, b: nat, c: nat, d: nat, a': nat, b': nat, c': nat, d': nat)
    requires a < 256 && b < 256 && c < 256 && d < 256 && a' < 256 && b' < 256 && c' < 256 && d' < 256
    requires a + 0x100 * b + 0x1_0000 * c + 0x100_0000 * d == a' + 0x100 * b' + 0x1_0000 * c' + 0x100_0000 * d'
    ensures a == a' && b == b' && c == c' && d == d'
  {
  }

  lemma ToNatInjective(x: bv32, y: bv32)
    requires ToNat(x) == ToNat(y)
    ensures x == y
  {
    hide ByteOf, Down8, Low8;
    var x1, y1 := Down8(x), Down8(y);
    var x2, y2 := Down8(x1), Down8(y1);
    var x3, y3 := Down8(x2), Down8(y2);
    DigitsApart(ByteOf(x), ByteOf(x1), ByteOf(x2), ByteOf(x3), ByteOf(y), ByteOf(y1), ByteOf(y2), ByteOf(y3));
    ByteOfInjective(x, y);
    ByteOfInjective(x1, y1);
    ByteOfInjective(x2, y2);
    ByteOfInjective(x3, y3);
    SameWord(x, y);
  }

  lemma FromParts(x: bv32, y: bv32)
    requires Low8(x) == Low8(y) && Down8(x) == Down8(y)
    ensures x == y
  {
  }

  lemma NothingLeft(x: bv32)
    ensures Down8(Down8(Down8(Down8(x)))) == 0
  {
    assert (((x >> 8) >> 8) >> 8) >> 8 == 0;
  }

  lemma SameWord(x: bv32, y: bv32)
    requires Low8(x) == Low8(y) && Low8(Down8(x)) == Low8(Down8(y)) && Low8(Down8(Down8(x))) == Low8(Down8(Down8(y)))
    requires Low8(Down8(Down8(Down8(x)))) == Low8(Down8(Down8(Down8(y))))
    ensures x == y
  {
    hide *;
    NothingLeft(x);
    NothingLeft(y);
    FromParts(Down8(Down8(Down8(x))), Down8(Down8(Down8(y))));
    FromParts(Down8(Down8(x)), Down8(Down8(y)));
    FromParts(Down8(x), Down8(y));
    FromParts(x, y);
  }

  // -------------------------------------------------------------------------- stored form

  const MASK_DELTA: nat := 0xa282_ead8

  /** Rotate right by 15 bits and add a constant, modulo 2^32. */
  function Mask(crc: Uint32): Uint32 {
    (crc / 0x8000 + (crc % 0x8000) * 0x2_0000 + MASK_DELTA) % 0x1_0000_0000
  }

  function Unmask(masked: Uint32): Uint32 {
    var rot := (masked + 0x1_0000_0000 - MASK_DELTA) % 0x1_0000_0000;
    rot / 0x2_0000 + (rot % 0x2_0000) * 0x8000
  }

  lemma MaskRoundTrip(crc: Uint32)
    ensures Unmask(Mask(crc)) == crc
  {
    var hi, lo := crc / 0x8000, crc % 0x8000;
    var rot := hi + lo * 0x2_0000;
    AddThenSubtract(rot);
    SplitRotation(hi, lo);
    assert Unmask(Mask(crc)) == rot / 0x2_0000 + (rot % 0x2_0000) * 0x8000;
  }

  lemma AddThenSubtract(x: Uint32)
    ensures ((x + MASK_DELTA) % 0x1_0000_0000 + 0x1_0000_0000 - MASK_DELTA) % 0x1_0000_0000 == x
  {
  }

  lemma SplitRotation(hi: nat, lo: nat)
    requires hi < 0x2_0000 && lo < 0x8000
    ensures hi + lo * 0x2_0000 < 0x1_0000_0000
    ensures (hi + lo * 0x2_0000) / 0x2_0000 == lo && (hi + lo * 0x2_0000) % 0x2_0000 == hi
  {
  }

  // ----------------------------------------------------------------------- fixed-width codes

  function EncodeFixed32(v: Uint32): (r: Bytes)
    ensures |r| == 4
  {
    [(v % 256) as byte, (v / 0x100 % 256) as byte, (v / 0x1_0000 % 256) as byte, (v / 0x100_0000) as byte]
  }

  function DecodeFixed32(b: Bytes): (v: Uint32)
    requires |b| >= 4
  {
    b[0] as nat + b[1] as nat * 0x100 + b[2] as nat * 0x1_0000 + b[3] as nat * 0x100_0000
  }

  lemma Fixed32RoundTrip(v: Uint32, rest: Bytes)
    ensures DecodeFixed32(EncodeFixed32(v) + rest) == v
  {
    hide DecodeFixed32, EncodeFixed32;
    Fixed32Bytes(v, EncodeFixed32(v) + rest);
    FourDigits(v);
  }

  lemma Fixed32Bytes(v: Uint32, b: Bytes)
    requires |b| >= 4 && b[..4] == EncodeFixed32(v)
    ensures DecodeFixed32(b) == v % 256 + v / 0x100 % 256 * 0x100 + v / 0x1_0000 % 256 * 0x1_0000 + v / 0x100_0000 * 0x100_0000
  {
    assert b[0] == b[..4][0] && b[1] == b[..4][1] && b[2] == b[..4][2] && b[3] == b[..4][3];
  }

  lemma FourDigits(v: nat)
    ensures v % 256 + v / 0x100 % 256 * 0x100 + v / 0x1_0000 % 256 * 0x1_0000 + v / 0x100_0000 * 0x100_0000 == v
  {
    var a, b := v / 0x100, v / 0x1_0000;
    assert b == a / 0x100 && v / 0x100_0000 == b / 0x100;
    assert v == v % 256 + a * 0x100 && a == a % 256 + b * 0x100 && b == b % 256 + v / 0x100_0000 * 0x100;
  }
}
