/** Multiplication by an odd number modulo a power of two is invertible. */
module Modular {
  import opened Bytes
  import opened Bits

  lemma SmallMultiple(q: int, z: int)
    requires q >= 1 && -q < q * z < q
    ensures z == 0
  {
    if z >= 1 { MulLe(1, z, q); }
  }

  /** y == a + q * t with a in range: a is the remainder. */
  lemma UniqueMod(y: int, q: nat, a: int, t: int)
    requires q >= 1 && 0 <= a < q && y == a + q * t
    ensures y % q == a
  {
    var r, d := y % q, y / q;
    assert y == q * d + r;
    assert q * (d - t) == a - r by { DistributeMinus(q, d, t); }
    SmallMultiple(q, d - t);
  }

  lemma DistributeMinus(q: int, d: int, t: int)
    ensures q * (d - t) == q * d - q * t
  {}

  lemma DistributePlus(q: int, d: int, t: int)
    ensures q * (d + t) == q * d + q * t
  {}

  lemma Associate(a: int, b: int, c: int)
    ensures a * b * c == a * (b * c)
  {}

  ghost predicate IsInverse(m: int, x: int, q: nat) {
    q >= 1 && (m * x - 1) % q == 0
  }

  /** Multiplying by m and then by its inverse leaves a residue as it was. */
  lemma {:induction false} InverseUndoes(a: int, m: int, x: int, q: nat)
    requires IsInverse(m, x, q) && 0 <= a < q
    ensures ((a * m) % q * x) % q == a
  {
    var r, d := (a * m) % q, (a * m) / q;
    var e := (m * x - 1) / q;
    assert a * m == q * d + r;
    assert m * x == 1 + q * e;
    assert r * x == a + q * (a * e - d * x) by {
      assert r * x == (a * m) * x - (q * d) * x by { DistributeMinusRight(a * m, q * d, x); }
      assert (a * m) * x == a * (m * x) by { Associate(a, m, x); }
      assert a * (m * x) == a + a * (q * e) by { DistributePlus(a, 1, q * e); }
      assert a * (q * e) == q * (a * e) by { Swap(a, q, e); }
      assert (q * d) * x == q * (d * x) by { Associate(q, d, x); }
      DistributeMinus(q, a * e, d * x);
    }
    UniqueMod(r * x, q, a, a * e - d * x);
  }

  lemma DistributePlusRight(a: int, b: int, x: int)
    ensures (a + b) * x == a * x + b * x
  {}

  lemma DistributeMinusRight(a: int, b: int, x: int)
    ensures (a - b) * x == a * x - b * x
  {}

  lemma Swap(a: int, q: int, e: int)
    ensures a * (q * e) == q * (a * e)
  {}

  lemma InverseIsSymmetric(m: int, x: int, q: nat)
    requires IsInverse(m, x, q)
    ensures IsInverse(x, m, q)
  {
    assert m * x == x * m;
  }

  /** The inverse of an odd m modulo 2^k, found bit by bit. */
  function InverseMod(m: int, k: nat): nat
    decreases k
  {
    if k == 0 then 0 else
    var x := InverseMod(m, k - 1);
    if (m * x - 1) % Pow2(k) == 0 then x else x + Pow2(k - 1)
  }

  lemma {:induction false} InverseModIs(m: int, k: nat)
    requires m % 2 == 1
    ensures IsInverse(m, InverseMod(m, k), Pow2(k))
    decreases k
  {
    if k != 0 {
      InverseModIs(m, k - 1);
      HenselStep(m, InverseMod(m, k - 1), Pow2(k - 1));
    }
  }

  lemma HenselStep(m: int, x: int, p: nat)
    requires m % 2 == 1 && IsInverse(m, x, p)
    ensures (m * x - 1) % (2 * p) == 0 || (m * (x + p) - 1) % (2 * p) == 0
  {
    var e := (m * x - 1) / p;
    assert m * x - 1 == p * e;
    NextBit(m, x, p, e);
    if e % 2 == 0 { EvenMultiple(p, e); } else { OddSum(e, m); EvenMultiple(p, e + m); }
  }

  lemma OddSum(e: int, m: int)
    requires e % 2 == 1 && m % 2 == 1
    ensures (e + m) % 2 == 0
  {}

  lemma NextBit(m: int, x: int, p: int, e: int)
    requires m * x - 1 == p * e
    ensures m * (x + p) - 1 == p * (e + m)
  {
    DistributePlus(m, x, p);
    DistributePlus(p, e, m);
  }

  lemma EvenMultiple(p: nat, e: int)
    requires p >= 1 && e % 2 == 0
    ensures (p * e) % (2 * p) == 0
  {
    var f := e / 2;
    assert p * e == 2 * p * f by { Associate(p, 2, f); }
    UniqueMod(p * e, 2 * p, 0, f);
  }

  /** An odd factor can be cancelled modulo 2^k. */
  lemma {:induction false} OddCancels(a: int, b: int, m: int, k: nat)
    requires m % 2 == 1 && 0 <= a < Pow2(k) && 0 <= b < Pow2(k)
    requires (a * m) % Pow2(k) == (b * m) % Pow2(k)
    ensures a == b
  {
    InverseModIs(m, k);
    InverseUndoes(a, m, InverseMod(m, k), Pow2(k));
    InverseUndoes(b, m, InverseMod(m, k), Pow2(k));
  }

  lemma {:induction false} PowSum(a: nat, b: nat)
    ensures Pow2(a + b) == Pow2(a) * Pow2(b)
  {
    if a != 0 {
      PowSum(a - 1, b);
      Associate(2, Pow2(a - 1), Pow2(b));
    }
  }

  lemma PowEight(n: nat)
    ensures Pow2(n + 8) == 256 * Pow2(n)
  {
    assert Pow2(n + 2) == 4 * Pow2(n);
    assert Pow2(n + 4) == 4 * Pow2(n + 2);
    assert Pow2(n + 6) == 4 * Pow2(n + 4);
  }

  lemma PowSeven(n: nat)
    ensures Pow2(n + 7) == 128 * Pow2(n)
  {
    assert Pow2(n + 2) == 4 * Pow2(n);
    assert Pow2(n + 4) == 4 * Pow2(n + 2);
    assert Pow2(n + 6) == 4 * Pow2(n + 4);
  }

  lemma PowNone()
    ensures Pow2(0) == 1
  {}

  lemma WordSizes()
    ensures Pow2(8) == 0x100
    ensures Pow2(16) == 0x1_0000
    ensures Pow2(32) == 0x1_0000_0000
    ensures Pow2(64) == 0x1_0000_0000_0000_0000
  {
    hide Pow2;
    PowNone();
    PowEight(0);
    PowEight(8);
    PowEight(16);
    PowEight(24);
    PowEight(32);
    PowEight(40);
    PowEight(48);
    PowEight(56);
  }

  lemma WordXor(a: Word, b: Word)
    ensures Xor(a, b) < M32
  {
    hide Pow2, Xor;
    WordSizes();
    XorBound(a, b, 32);
  }
}
