/**
 * The rolling hash modulo 2^32, which is all that a cut mask of 32 bits sees of it: bytes
 * as digits of a number to base 131.
 */
module Residues {
  import opened Common
  import opened Words

  const WORD: nat := 0x1_0000_0000
  const INVERSE: nat := 3376959019  // of 131

  function Low(x: int): (r: nat)
    ensures r < WORD
  {
    x % WORD
  }

  /** 131^k. */
  function Pow(k: nat): (p: nat)
    ensures p < WORD
  {
    if k == 0 then 1 else Low(Pow(k - 1) * 131)
  }

  /** The number whose digits to base 131 are the bytes, first byte most significant. */
  function Value(s: bytes): (v: nat)
    ensures v < WORD
  {
    if s == [] then 0 else Low(Value(s[..|s| - 1]) * 131 + s[|s| - 1])
  }

  // ---------------------------------------------------------------- arithmetic modulo 2^32

  lemma LowIs(x: int, q: int, r: nat)
    requires x == q * WORD + r && r < WORD
    ensures Low(x) == r
  {
  }

  lemma LowMul(x: int, y: int)
    ensures Low(Low(x) * y) == Low(x * y)
  {
    var q := x / WORD;
    assert x == q * WORD + Low(x);
    var p := Low(x) * y;
    assert x * y == (q * WORD) * y + p by { assert (q * WORD + Low(x)) * y == (q * WORD) * y + Low(x) * y; }
    assert (q * WORD) * y == (q * y) * WORD;
    Shifted(p, q * y);
  }

  lemma Shifted(p: int, k: int)
    ensures Low(k * WORD + p) == Low(p)
  {
  }

  lemma LowAdd(x: int, y: int)
    ensures Low(Low(x) + y) == Low(x + y)
  {
  }

  lemma LowMulRight(x: int, y: int)
    ensures Low(x * Low(y)) == Low(x * y)
  {
    LowMul(y, x);
    Commute(y, x);
    Commute(Low(y), x);
  }

  lemma Commute(x: int, y: int)
    ensures x * y == y * x
  {
  }

  lemma Associate(x: int, y: int, z: int)
    ensures (x * y) * z == x * (y * z)
  {
  }

  /** Products can be regrouped under the modulus. */
  lemma LowAssociate(x: int, y: int, z: int)
    ensures Low(Low(x * y) * z) == Low(x * Low(y * z))
  {
    LowMul(x * y, z);
    LowMulRight(x, y * z);
    Associate(x, y, z);
  }

  lemma LowOfWord(x: int)
    ensures Low(Wrap(x)) == Low(x)
  {
    var q := x / U64;
    assert x == q * U64 + Wrap(x);
    assert U64 == 0x1_0000_0000 * WORD;
    Shifted(Wrap(x), q * 0x1_0000_0000);
  }

  lemma {:induction false} PowIsPower(k: nat)
    ensures Low(Power(k)) == Pow(k)
  {
    if k > 0 {
      PowIsPower(k - 1);
      LowOfWord(Power(k - 1) * 131);
      LowMul(Power(k - 1), 131);
    }
  }

  lemma {:induction false} PowAdd(j: nat, k: nat)
    ensures Pow(j + k) == Low(Pow(j) * Pow(k))
    decreases k
  {
    if k == 0 {
      LowIs(Pow(j), 0, Pow(j));
    } else {
      PowAdd(j, k - 1);
      LowAssociate(Pow(j), Pow(k - 1), 131);
    }
  }

  /** A power of 131 has an inverse. */
  lemma {:induction false} Unit(k: nat) returns (y: nat)
    ensures Low(Pow(k) * y) == 1
  {
    if k == 0 {
      y := 1;
    } else {
      var z := Unit(k - 1);
      y := INVERSE * z;
      UnitStep(Pow(k - 1), z);
    }
  }

  lemma UnitStep(p: nat, z: nat)
    requires Low(p * z) == 1
    ensures Low(Low(p * 131) * (INVERSE * z)) == 1
  {
    LowMul(p * 131, INVERSE * z);
    assert (p * 131) * (INVERSE * z) == (p * z) * (131 * INVERSE) by {
      Regroup(p, 131, INVERSE, z);
    }
    LowMul(p * z, 131 * INVERSE);
    LowIs(131 * INVERSE, 103, 1);
  }

  lemma Regroup(a: int, b: int, c: int, d: int)
    ensures (a * b) * (c * d) == (a * d) * (b * c)
  {
    Associate(a, b, c * d);
    Associate(b, c, d);
    Commute(b * c, d);
    Associate(a, d, b * c);
  }

  // ---------------------------------------------------------------- digits

  lemma {:induction false} ValueConcat(a: bytes, b: bytes)
    ensures Value(a + b) == Low(Value(a) * Pow(|b|) + Value(b))
    decreases |b|
  {
    if b == [] {
      assert a + b == a;
      LowIs(Value(a), 0, Value(a));
    } else {
      var n := |b| - 1;
      var init, last := b[..n], b[n];
      assert (a + b)[..|a + b| - 1] == a + init;
      ValueConcat(a, init);
      ValueStep(Value(a), Pow(n), Value(init), last);
    }
  }

  lemma ValueStep(v: nat, p: nat, w: nat, d: nat)
    ensures Low(Low(v * p + w) * 131 + d) == Low(v * Low(p * 131) + Low(w * 131 + d))
  {
    LowMul(v * p + w, 131);
    LowAdd((v * p + w) * 131, d);
    LowAdd(Low(v * p + w) * 131, d);
    assert (v * p + w) * 131 + d == v * p * 131 + (w * 131 + d);
    LowMulRight(v, p * 131);
    Associate(v, p, 131);
    LowAdd(v * (p * 131), w * 131 + d);
    LowAdd(v * Low(p * 131), Low(w * 131 + d));
    LowAdd(w * 131 + d, v * (p * 131));
    LowAdd(w * 131 + d, v * Low(p * 131));
    LowAdd(v * Low(p * 131), w * 131 + d);
  }

  lemma {:induction false} ValueZeros(n: nat)
    ensures Value(Zeros(n)) == 0
  {
    if n > 0 {
      assert Zeros(n)[..n - 1] == Zeros(n - 1);
      ValueZeros(n - 1);
    }
  }

  lemma ValueOne(x: byte)
    ensures Value([x]) == x
  {
    assert [x][..0] == [];
  }

  /** The last k digits of a number. */
  function Digits(w: nat, k: nat): (s: bytes)
    ensures |s| == k
  {
    if k == 0 then [] else Digits(w / 131, k - 1) + [w % 131]
  }

  /** The first number that k digits do not write. */
  function Reach(k: nat): nat {
    if k == 0 then 1 else 131 * Reach(k - 1)
  }

  lemma {:induction false} DigitsValue(w: nat, k: nat)
    requires w < Reach(k) && w < WORD
    ensures Value(Digits(w, k)) == w
    decreases k
  {
    if k > 0 {
      assert Digits(w, k)[..k - 1] == Digits(w / 131, k - 1);
      DigitsValue(w / 131, k - 1);
    }
  }

  /** Five digits write any number below 2^32. */
  lemma FiveDigitsReach()
    ensures Reach(5) > WORD
  {
    assert Reach(1) == 131 && Reach(2) == 17161 && Reach(3) == 2248091;
  }

  // ---------------------------------------------------------------- masks

  lemma {:induction false} MaskOfLow(h: nat, mask: nat, bits: nat)
    requires mask < Pow2(bits)
    ensures BitAnd(h % Pow2(bits), mask) == BitAnd(h, mask)
    decreases bits
  {
    if bits > 0 && mask > 0 {
      var p := Pow2(bits - 1);
      HalfOf(h, p);
      MaskOfLow(h / 2, mask / 2, bits - 1);
      if h % (2 * p) == 0 {
        assert BitAnd(h / 2 % p, mask / 2) == 0;
      }
    }
  }

  lemma HalfOf(h: nat, p: nat)
    requires p >= 1
    ensures h % (2 * p) / 2 == h / 2 % p && h % (2 * p) % 2 == h % 2
  {
    var q, r := h / (2 * p), h % (2 * p);
    assert h == (2 * p) * q + r;
    assert (2 * p) * q == 2 * (p * q);
    assert h / 2 == p * q + r / 2;
    ModuloIs(h / 2, p, q, r / 2);
  }

  lemma ModuloIs(n: nat, m: nat, q: nat, r: nat)
    requires m >= 1 && n == m * q + r && r < m
    ensures n % m == r
  {
    var d := n / m;
    assert n == m * d + n % m;
    if d > q {
      MultiplesApart(m, d, q);
    } else if d < q {
      MultiplesApart(m, q, d);
    }
  }

  lemma MultiplesApart(m: nat, a: nat, b: nat)
    requires a > b
    ensures m * a >= m * b + m
  {
    var k := a - b - 1;
    assert m * a == m * b + m + m * k by { assert a == b + 1 + k; }
  }

  /** A 32-bit mask sees the low 32 bits. */
  lemma {:induction false} MaskLow(h: nat, mask: nat)
    requires mask < WORD
    ensures BitAnd(h, mask) == BitAnd(Low(h), mask)
  {
    Pow2Of32();
    MaskOfLow(h, mask, 32);
  }

  lemma {:induction false} MaskItself(mask: nat)
    ensures BitAnd(mask, mask) == mask
  {
    if mask > 0 {
      MaskItself(mask / 2);
    }
  }

  /** Among the multiples of a number with an inverse, two neighbours differ in whether the mask sees them. */
  lemma {:induction false} NeighboursDiffer(delta: nat, y: nat, mask: nat) returns (t: nat)
    requires Low(delta * y) == 1 && 0 < mask < WORD
    ensures BitAnd(Low(t * delta), mask) == 0 && BitAnd(Low((t + 1) * delta), mask) != 0
  {
    hide BitAnd;
    LowMul(delta * y, mask);
    Commute(delta, y);
    Associate(y, delta, mask);
    Commute(delta, mask);
    Associate(y, mask, delta);
    LowIs(mask, 0, mask);
    MaskItself(mask);
    t := LastUnseen(delta, y * mask, mask);
  }

  lemma {:induction false} LastUnseen(delta: nat, n: nat, mask: nat) returns (t: nat)
    requires BitAnd(Low(n * delta), mask) != 0
    ensures BitAnd(Low(t * delta), mask) == 0 && BitAnd(Low((t + 1) * delta), mask) != 0
    decreases n
  {
    if n == 0 {
      assert false;
    } else if BitAnd(Low((n - 1) * delta), mask) == 0 {
      t := n - 1;
    } else {
      t := LastUnseen(delta, n - 1, mask);
    }
  }
}
