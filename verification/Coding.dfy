/** Little-endian numbers of a fixed number of bytes. */
module Coding {
  import opened DbFormat

  function Digits(v: nat, n: nat): (r: Bytes)
    ensures |r| == n
  {
    if n == 0 then [] else [(v % 256) as byte] + Digits(v / 256, n - 1)
  }

  function Undigits(b: Bytes): nat {
    if b == [] then 0 else b[0] as nat + 256 * Undigits(b[1..])
  }

  function Pow256(n: nat): nat {
    if n == 0 then 1 else 256 * Pow256(n - 1)
  }

  lemma {:induction false} DigitsRoundTrip(v: nat, n: nat)
    requires v < Pow256(n)
    ensures Undigits(Digits(v, n)) == v
  {
    if n > 0 {
      DigitsRoundTrip(v / 256, n - 1);
      assert Digits(v, n)[1..] == Digits(v / 256, n - 1);
    }
  }

  lemma {:induction false} UndigitsBelow(b: Bytes)
    ensures Undigits(b) < Pow256(|b|)
  {
    if b != [] {
      UndigitsBelow(b[1..]);
    }
  }

  lemma FixedWidths()
    ensures Pow256(4) == 0x1_0000_0000 && Pow256(8) == 0x1_0000_0000_0000_0000
  {
    assert Pow256(4) == 256 * 256 * 256 * 256;
  }

  lemma {:induction false} UndigitsInjective(a: Bytes, b: Bytes)
    requires |a| == |b| && Undigits(a) == Undigits(b)
    ensures a == b
  {
    if a != [] {
      assert a[0] as nat == Undigits(a) % 256 && b[0] as nat == Undigits(b) % 256;
      UndigitsInjective(a[1..], b[1..]);
      assert a == [a[0]] + a[1..] && b == [b[0]] + b[1..];
    }
  }
}
