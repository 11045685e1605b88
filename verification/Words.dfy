/** Wrapping 64-bit arithmetic and bitwise conjunction on natural numbers. */
module Words {
  import opened Common

  const U64: nat := 0x1_0000_0000_0000_0000

  /** The 64-bit word an exact result wraps to. */
  function Wrap(x: int): (w: nat)
    ensures w < U64
  {
    x % U64
  }

  function BitAnd(a: nat, b: nat): nat
    decreases a
  {
    if a == 0 || b == 0 then 0
    else (if a % 2 == 1 && b % 2 == 1 then 1 else 0) + 2 * BitAnd(a / 2, b / 2)
  }

  /** 131^k as a 64-bit word, by repeated wrapping multiplication. */
  function Power(k: nat): nat {
    if k == 0 then 1 else Wrap(Power(k - 1) * 131)
  }

  /** 131^48 wrapped to 64 bits, see `PowerOfWindow`. */
  const WINDOW_POWER: nat := 15852402874160266689

  lemma WrapIs(x: int, q: int, r: nat)
    requires x == q * U64 + r && r < U64
    ensures Wrap(x) == r
  {
    var d := x / U64 - q;
    assert d * U64 + x % U64 == r;
    if d != 0 { assert false; }
  }

  lemma WrapMul(x: int, y: int)
    ensures Wrap(Wrap(x) * y) == Wrap(x * y)
  {
    var q := x / U64;
    assert x == q * U64 + Wrap(x);
    var p := Wrap(x) * y;
    assert x * y == q * U64 * y + p;
    assert q * U64 * y == (q * y) * U64;
    assert p == (p / U64) * U64 + Wrap(p);
    assert x * y == (q * y + p / U64) * U64 + Wrap(p);
    WrapIs(x * y, q * y + p / U64, Wrap(p));
  }

  lemma WrapMulSwap(a: int, b: int, c: int)
    ensures Wrap(Wrap(a * b) * c) == Wrap(a * Wrap(b * c))
  {
    WrapMul(a * b, c);
    WrapMul(b * c, a);
    assert (a * b) * c == (b * c) * a;
    assert a * Wrap(b * c) == Wrap(b * c) * a;
  }

  lemma {:induction false} PowerAdd(j: nat, k: nat)
    ensures Power(j + k) == Wrap(Power(j) * Power(k))
  {
    if k == 0 {
      WrapIs(Power(j), 0, Power(j));
    } else {
      PowerAdd(j, k - 1);
      WrapMulSwap(Power(j), Power(k - 1), 131);
    }
  }

  /** The power the chunker multiplies a leaving byte by. */
  lemma PowerOfWindow()
    ensures Power(48) == WINDOW_POWER
  {
    WrapIs(131, 0, 131);
    WrapIs(17161, 0, 17161);
    WrapIs(2248091, 0, 2248091);
    assert Power(1) == 131;
    assert Power(2) == 17161;
    assert Power(3) == 2248091;
    PowerAdd(3, 3);
    WrapIs(2248091 * 2248091, 0, 5053913144281);
    PowerAdd(6, 6);
    WrapIs(5053913144281 * 5053913144281, 1384636, 12142691365211635185);
    PowerAdd(12, 12);
    WrapIs(12142691365211635185 * 12142691365211635185, 7993006950257684842, 11784131139470179553);
    PowerAdd(24, 24);
    WrapIs(11784131139470179553 * 11784131139470179553, 7527927213461118820, 15852402874160266689);
  }

  /** Every one of the low `bits` bits is set in a or in b. */
  predicate Covers(a: nat, b: nat, bits: nat) {
    bits == 0 || ((a % 2 == 1 || b % 2 == 1) && Covers(a / 2, b / 2, bits - 1))
  }

  lemma CoversBit(aHigh: nat, p: nat, bHigh: nat, q: nat, bits: nat)
    requires p < 2 && q < 2 && (p == 1 || q == 1)
    requires Covers(aHigh, bHigh, bits)
    ensures Covers(2 * aHigh + p, 2 * bHigh + q, bits + 1)
  {
    assert (2 * aHigh + p) / 2 == aHigh && (2 * bHigh + q) / 2 == bHigh;
  }

  /** Four more low bits are covered when each of them is set in one of the two. */
  lemma CoversNibble(a: nat, aHigh: nat, p3: nat, p2: nat, p1: nat, p0: nat,
                     b: nat, bHigh: nat, q3: nat, q2: nat, q1: nat, q0: nat, bits: nat)
    requires Covers(aHigh, bHigh, bits)
    requires a == 16 * aHigh + 8 * p3 + 4 * p2 + 2 * p1 + p0 && b == 16 * bHigh + 8 * q3 + 4 * q2 + 2 * q1 + q0
    requires p3 < 2 && p2 < 2 && p1 < 2 && p0 < 2 && q3 < 2 && q2 < 2 && q1 < 2 && q0 < 2
    requires p3 + q3 > 0 && p2 + q2 > 0 && p1 + q1 > 0 && p0 + q0 > 0
    ensures Covers(a, b, bits + 4)
  {
    CoversBit(aHigh, p3, bHigh, q3, bits);
    var a3, b3 := 2 * aHigh + p3, 2 * bHigh + q3;
    CoversBit(a3, p2, b3, q2, bits + 1);
    var a2, b2 := 2 * a3 + p2, 2 * b3 + q2;
    CoversBit(a2, p1, b2, q1, bits + 2);
    CoversBit(2 * a2 + p1, p0, 2 * b2 + q1, q0, bits + 3);
  }

  function Pow2(k: nat): (p: nat)
    ensures p >= 1
  {
    if k == 0 then 1 else 2 * Pow2(k - 1)
  }

  lemma Pow2Of32()
    ensures Pow2(32) == 0x1_0000_0000
  {
    assert Pow2(8) == 256;
    assert Pow2(16) == 65536;
    assert Pow2(24) == 16777216;
  }

  lemma {:induction false} CoverMeetsMask(a: nat, b: nat, mask: nat, bits: nat)
    requires Covers(a, b, bits) && 0 < mask < Pow2(bits)
    ensures BitAnd(a, mask) != 0 || BitAnd(b, mask) != 0
    decreases bits
  {
    if mask % 2 == 0 || mask / 2 > 0 {
      CoverMeetsMask(a / 2, b / 2, mask / 2, bits - 1);
    }
  }
}
