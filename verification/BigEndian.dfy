/** Unsigned numbers as big-endian bytes. */
module BigEndian {
  import opened Common

  function Span(width: nat): (p: nat)
    ensures p >= 1
  {
    if width == 0 then 1 else 256 * Span(width - 1)
  }

  /** The low `width` bytes of n: a larger n is truncated. */
  function ToBytes(n: nat, width: nat): (bs: bytes)
    ensures |bs| == width
  {
    if width == 0 then [] else ToBytes(n / 256, width - 1) + [n % 256]
  }

  function FromBytes(bs: bytes): nat {
    if bs == [] then 0 else FromBytes(bs[..|bs| - 1]) * 256 + bs[|bs| - 1]
  }

  lemma {:induction false} FromToBytes(n: nat, width: nat)
    requires n < Span(width)
    ensures FromBytes(ToBytes(n, width)) == n
    decreases width
  {
    if width > 0 {
      assert ToBytes(n, width)[..width - 1] == ToBytes(n / 256, width - 1);
      FromToBytes(n / 256, width - 1);
    }
  }

  lemma {:induction false} FromBytesBelow(bs: bytes)
    ensures FromBytes(bs) < Span(|bs|)
  {
    if bs != [] {
      FromBytesBelow(bs[..|bs| - 1]);
    }
  }

  /** A leading byte counts with its full weight. */
  lemma {:induction false} FromBytesCons(first: byte, rest: bytes)
    ensures FromBytes([first] + rest) == first * Span(|rest|) + FromBytes(rest)
    decreases |rest|
  {
    var all := [first] + rest;
    if rest == [] {
      assert all[..|all| - 1] == [];
    } else {
      assert all[..|all| - 1] == [first] + rest[..|rest| - 1];
      FromBytesCons(first, rest[..|rest| - 1]);
      Scale(first, Span(|rest| - 1));
    }
  }

  lemma Scale(a: nat, b: nat)
    ensures a * (256 * b) == a * b * 256
  {
  }

  /** The bytes of a number are determined by the number and their count. */
  lemma {:induction false} ToFromBytes(bs: bytes)
    ensures ToBytes(FromBytes(bs), |bs|) == bs
  {
    if bs != [] {
      ToFromBytes(bs[..|bs| - 1]);
      assert bs == bs[..|bs| - 1] + [bs[|bs| - 1]];
    }
  }

  /** Without a leading zero the number takes all its bytes. */
  lemma {:induction false} FromBytesAtLeast(bs: bytes)
    requires bs != [] && bs[0] != 0
    ensures FromBytes(bs) >= Span(|bs| - 1)
  {
    assert bs == [bs[0]] + bs[1..];
    FromBytesCons(bs[0], bs[1..]);
    AtLeastOnce(bs[0], Span(|bs| - 1));
  }

  lemma AtLeastOnce(a: nat, b: nat)
    requires a >= 1
    ensures a * b >= b
  {
  }

  lemma {:induction false} SpanGrows(a: nat, b: nat)
    requires a <= b
    ensures Span(a) <= Span(b)
    decreases b - a
  {
    if a < b {
      SpanGrows(a, b - 1);
    }
  }

  /** The most significant byte comes first. */
  lemma {:induction false} ToBytesAt(n: nat, width: nat, i: nat)
    requires i < width
    ensures ToBytes(n, width)[i] == n / Span(width - 1 - i) % 256
    decreases width
  {
    if i < width - 1 {
      ToBytesAt(n / 256, width - 1, i);
      DivideTwice(n, Span(width - 2 - i));
    }
  }

  lemma DivideTwice(n: nat, m: nat)
    requires m >= 1
    ensures n / 256 / m == n / (256 * m)
  {
    var q, r := n / 256, n % 256;
    var a, b := q / m, q % m;
    assert n == 256 * (a * m + b) + r == a * (256 * m) + (256 * b + r);
    assert 256 * b + r < 256 * m;
    QuotientIs(n, 256 * m, a, 256 * b + r);
  }

  lemma QuotientIs(n: nat, m: nat, q: nat, r: nat)
    requires n == q * m + r && r < m
    ensures n / m == q
  {
    var d := n / m - q;
    Multiple(d, m);
    assert d * m == r - n % m;
  }

  lemma Multiple(d: int, m: nat)
    ensures d > 0 ==> d * m >= m
    ensures d < 0 ==> d * m + m <= 0
  {
  }

  lemma {:induction false} OneByte(n: nat)
    ensures ToBytes(n, 1) == [n % 0x100]
  {
    assert ToBytes(n / 0x100, 0) == [];
  }

  /** Two, three and four bytes, written out. */
  lemma {:induction false} TwoBytes(n: nat)
    ensures ToBytes(n, 2) == [n / 0x100 % 0x100, n % 0x100]
  {
    OneByte(n / 0x100);
  }

  lemma {:induction false} ThreeBytes(n: nat)
    ensures ToBytes(n, 3) == [n / 0x1_0000 % 0x100, n / 0x100 % 0x100, n % 0x100]
  {
    TwoBytes(n / 0x100);
    DivideTwice(n, 0x100);
  }

  lemma {:induction false} FourBytes(n: nat)
    ensures ToBytes(n, 4) == [n / 0x100_0000 % 0x100, n / 0x1_0000 % 0x100, n / 0x100 % 0x100, n % 0x100]
  {
    ThreeBytes(n / 0x100);
    DivideTwice(n, 0x100);
    DivideTwice(n, 0x1_0000);
  }
}
