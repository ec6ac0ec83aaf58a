/** Byte strings and the fixed-width integer fields cut from them. */
module Bytes {
  import opened Results

  type Byte = x: int | 0 <= x < 256
  type Octets = seq<Byte>
  type Word = x: int | 0 <= x < 0x1_0000_0000
  type Word64 = x: int | 0 <= x < 0x1_0000_0000_0000_0000

  const M16 := 0x1_0000
  const M24 := 0x100_0000
  const M32 := 0x1_0000_0000
  const M63 := 0x8000_0000_0000_0000
  const M64 := 0x1_0000_0000_0000_0000

  predicate IsByte(x: int) {
    0 <= x < 256
  }

  predicate IsWord(x: int) {
    0 <= x < M32
  }

  /** A fixed-size group read from the front of a byte string, and what follows it. */
  datatype Cut<+T> = Cut(value: T, rest: Octets)

  function Pow256(n: nat): (p: nat)
    ensures p >= 1
  {
    if n == 0 then 1 else 256 * Pow256(n - 1)
  }

  /** The n low-order bytes of v, least significant first. */
  function Le(v: nat, n: nat): (s: Octets)
    ensures |s| == n
  {
    if n == 0 then [] else [v % 256] + Le(v / 256, n - 1)
  }

  function FromLe(s: Octets): nat {
    if s == [] then 0 else s[0] + 256 * FromLe(s[1..])
  }

  /** The n low-order bytes of v, most significant first. */
  function Be(v: nat, n: nat): (s: Octets)
    ensures |s| == n
  {
    if n == 0 then [] else Be(v / 256, n - 1) + [v % 256]
  }

  function FromBe(s: Octets): nat {
    if s == [] then 0 else FromBe(s[..|s| - 1]) * 256 + s[|s| - 1]
  }

  lemma {:induction false} LeThenFromLe(v: nat, n: nat)
    requires v < Pow256(n)
    ensures FromLe(Le(v, n)) == v
  {
    if n != 0 {
      LeThenFromLe(v / 256, n - 1);
      assert Le(v, n)[1..] == Le(v / 256, n - 1);
    }
  }

  lemma ByteAndRest(b: Byte, rest: nat)
    ensures (b + 256 * rest) % 256 == b && (b + 256 * rest) / 256 == rest
  {}

  lemma {:induction false} FromLeThenLe(s: Octets)
    ensures FromLe(s) < Pow256(|s|)
    ensures Le(FromLe(s), |s|) == s
  {
    if s != [] {
      FromLeThenLe(s[1..]);
      ByteAndRest(s[0], FromLe(s[1..]));
      assert s == [s[0]] + s[1..];
    }
  }

  lemma {:induction false} BeThenFromBe(v: nat, n: nat)
    requires v < Pow256(n)
    ensures FromBe(Be(v, n)) == v
  {
    if n != 0 {
      BeThenFromBe(v / 256, n - 1);
      assert Be(v, n)[..n - 1] == Be(v / 256, n - 1);
    }
  }

  lemma {:induction false} FromBeThenBe(s: Octets)
    ensures FromBe(s) < Pow256(|s|)
    ensures Be(FromBe(s), |s|) == s
  {
    if s != [] {
      FromBeThenBe(s[..|s| - 1]);
      ByteAndRest(s[|s| - 1], FromBe(s[..|s| - 1]));
      assert s == s[..|s| - 1] + [s[|s| - 1]];
    }
  }

  lemma Pow256Values()
    ensures Pow256(1) == 0x100
    ensures Pow256(2) == 0x1_0000
    ensures Pow256(3) == 0x100_0000
    ensures Pow256(4) == 0x1_0000_0000
    ensures Pow256(8) == 0x1_0000_0000_0000_0000
  {
    assert Pow256(5) == 256 * Pow256(4);
    assert Pow256(6) == 256 * Pow256(5);
    assert Pow256(7) == 256 * Pow256(6);
  }

  // ---- byte by byte ---------------------------------------------------------------------

  lemma TwoBytes(v: nat)
    ensures Le(v, 2) == [v % 256, v / 256 % 256]
    ensures Be(v, 2) == [v / 256 % 256, v % 256]
  {
    assert Le(v / 256, 1) == [v / 256 % 256] + Le(v / 256 / 256, 0);
    assert Be(v / 256, 1) == Be(v / 256 / 256, 0) + [v / 256 % 256];
  }

  lemma LeStep(v: nat, n: nat)
    requires n > 0
    ensures Le(v, n) == [v % 256] + Le(v / 256, n - 1)
  {}

  lemma BeStep(v: nat, n: nat)
    requires n > 0
    ensures Be(v, n) == Be(v / 256, n - 1) + [v % 256]
  {}

  lemma {:induction false} ThreeBytes(v: nat)
    ensures Le(v, 3) == [v % 256, v / 0x100 % 256, v / 0x1_0000 % 256]
  {
    hide Le;
    LeStep(v, 3);
    TwoBytes(v / 256);
    assert v / 256 / 256 == v / 0x1_0000;
  }

  lemma {:induction false} FourBytes(v: nat)
    ensures Le(v, 4) == [v % 256, v / 0x100 % 256, v / 0x1_0000 % 256, v / 0x100_0000 % 256]
    ensures Be(v, 4) == [v / 0x100_0000 % 256, v / 0x1_0000 % 256, v / 0x100 % 256, v % 256]
  {
    hide Le, Be;
    LeStep(v, 4);
    ThreeBytes(v / 256);
    BeStep(v, 4);
    BeStep(v / 256, 3);
    TwoBytes(v / 256 / 256);
    assert v / 256 / 256 == v / 0x1_0000 && v / 256 / 256 / 256 == v / 0x100_0000;
    assert v / 256 / 0x1_0000 == v / 0x100_0000;
  }

  lemma {:induction false} EightBytes(v: nat)
    ensures Le(v, 8) == Le(v, 4) + Le(v / 0x1_0000_0000, 4)
  {
    hide Le;
    LeStep(v, 8);
    LeStep(v / 256, 7);
    LeStep(v / 256 / 256, 6);
    LeStep(v / 256 / 256 / 256, 5);
    LeStep(v, 4);
    LeStep(v / 256, 3);
    LeStep(v / 256 / 256, 2);
    LeStep(v / 256 / 256 / 256, 1);
    NoBytes(v / 256 / 256 / 256 / 256);
    assert v / 256 / 256 / 256 / 256 == v / 0x1_0000_0000;
  }

  lemma NoBytes(v: nat)
    ensures Le(v, 0) == []
  {}

  lemma FromLeStep(b: Octets)
    requires b != []
    ensures FromLe(b) == b[0] as int + 0x100 * FromLe(b[1..])
  {}

  lemma FromLeNone()
    ensures FromLe([]) == 0
  {}

  lemma FromBeStep(b: Octets)
    requires b != []
    ensures FromBe(b) == FromBe(b[..|b| - 1]) * 256 + b[|b| - 1] as int
  {}

  predicate Within(b: Byte, low: Byte, high: Byte) {
    low <= b <= high
  }

  /** n continuation bytes, the first of them within bounds, and then text again. */
  predicate Continues(s: Octets, n: nat, low: Byte, high: Byte)
    decreases |s|, 0
  {
    && |s| >= n >= 1 && Within(s[0], low, high)
    && (forall i | 1 <= i < n :: Within(s[i], 0x80, 0xBF))
    && Utf8(s[n..])
  }

  /** Well-formed UTF-8 (table 3-7 of the Unicode Standard): what bytes.decode("utf-8") accepts. */
  predicate Utf8(s: Octets)
    decreases |s|, 1
  {
    if s == [] then true
    else if s[0] < 0x80 then Utf8(s[1..])
    else if Within(s[0], 0xC2, 0xDF) then Continues(s[1..], 1, 0x80, 0xBF)
    else if s[0] == 0xE0 then Continues(s[1..], 2, 0xA0, 0xBF)
    else if s[0] == 0xED then Continues(s[1..], 2, 0x80, 0x9F)
    else if Within(s[0], 0xE1, 0xEF) then Continues(s[1..], 2, 0x80, 0xBF)
    else if s[0] == 0xF0 then Continues(s[1..], 3, 0x90, 0xBF)
    else if Within(s[0], 0xF1, 0xF3) then Continues(s[1..], 3, 0x80, 0xBF)
    else if s[0] == 0xF4 then Continues(s[1..], 3, 0x80, 0x8F)
    else false
  }

  /** What was read before, in front of what is read from here. */
  function PrependCut<T>(front: seq<T>, r: Result<Cut<seq<T>>>): Result<Cut<seq<T>>> {
    if r.Err? || front == [] then r else Ok(Cut(front + r.value.value, r.value.rest))
  }

  lemma PrependCutTwice<T>(a: seq<T>, b: seq<T>, r: Result<Cut<seq<T>>>)
    ensures PrependCut(a, PrependCut(b, r)) == PrependCut(a + b, r)
  {
    if r.Ok? {
      assert a + (b + r.value.value) == (a + b) + r.value.value;
      assert a == [] ==> a + b == b;
      assert b == [] ==> a + b == a;
    }
  }

  function TakeBytes(data: Octets, n: nat): Result<Cut<Octets>> {
    if |data| < n then Err(ValueError) else Ok(Cut(data[..n], data[n..]))
  }

  function TakeLe(data: Octets, n: nat): Result<Cut<nat>> {
    if |data| < n then Err(ValueError) else Ok(Cut(FromLe(data[..n]), data[n..]))
  }

  lemma TakeBytesOfConcat(a: Octets, rest: Octets)
    ensures TakeBytes(a + rest, |a|) == Ok(Cut(a, rest))
  {
    assert (a + rest)[..|a|] == a && (a + rest)[|a|..] == rest;
  }

  lemma TakeLeOfConcat(v: nat, n: nat, rest: Octets)
    requires v < Pow256(n)
    ensures TakeLe(Le(v, n) + rest, n) == Ok(Cut(v, rest))
  {
    LeThenFromLe(v, n);
    assert (Le(v, n) + rest)[..n] == Le(v, n) && (Le(v, n) + rest)[n..] == rest;
  }
}
