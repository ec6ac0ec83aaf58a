/** BitWriter, least significant bit first. */
module BitStream {
  import opened Results
  import opened Bytes
  import opened Bits

  // ---- bits -------------------------------------------------------------------------

  /** The n low bits of v, lowest first. */
  function BitsOf(v: nat, n: nat): (r: seq<bool>)
    ensures |r| == n
    decreases n
  {
    if n == 0 then [] else [v % 2 == 1] + BitsOf(v / 2, n - 1)
  }

  function OctetBits(s: Octets): (r: seq<bool>)
    ensures |r| == 8 * |s|
  {
    if s == [] then [] else BitsOf(s[0], 8) + OctetBits(s[1..])
  }

  function Zeros(n: nat): (r: seq<bool>)
    ensures |r| == n && forall i | 0 <= i < n :: !r[i]
  {
    seq(n, _ => false)
  }

  lemma {:induction false} BitAt(v: nat, n: nat, i: nat)
    requires i < n
    ensures BitsOf(v, n)[i] == (Shr(v, i) % 2 == 1)
    decreases n
  {
    if i > 0 {
      hide Shr;
      BitAt(v / 2, n - 1, i - 1);
      ShrStep(v, i);
    }
  }

  lemma {:induction false} BitsDetermine(a: nat, b: nat, n: nat)
    requires a < Pow2(n) && b < Pow2(n) && BitsOf(a, n) == BitsOf(b, n)
    ensures a == b
    decreases n
  {
    if n > 0 {
      assert BitsOf(a, n)[0] == BitsOf(b, n)[0];
      assert BitsOf(a, n)[1..] == BitsOf(a / 2, n - 1) && BitsOf(b, n)[1..] == BitsOf(b / 2, n - 1);
      BitsDetermine(a / 2, b / 2, n - 1);
    }
  }

  /** A byte string is determined by its bits. */
  lemma {:induction false} OctetBitsDetermine(a: Octets, b: Octets)
    requires OctetBits(a) == OctetBits(b)
    ensures a == b
    decreases |a|
  {
    hide BitsOf;
    assert |a| == |b|;
    if a != [] {
      assert OctetBits(a)[..8] == BitsOf(a[0], 8) && OctetBits(b)[..8] == BitsOf(b[0], 8);
      assert OctetBits(a)[8..] == OctetBits(a[1..]) && OctetBits(b)[8..] == OctetBits(b[1..]);
      BitsDetermine(a[0], b[0], 8);
      OctetBitsDetermine(a[1..], b[1..]);
      assert a == [a[0]] + a[1..] && b == [b[0]] + b[1..];
    }
  }

  lemma {:induction false} OctetBitsConcat(a: Octets, b: Octets)
    ensures OctetBits(a + b) == OctetBits(a) + OctetBits(b)
    decreases |a|
  {
    hide BitsOf;
    if a == [] {
      assert a + b == b;
    } else {
      assert (a + b)[0] == a[0] && (a + b)[1..] == a[1..] + b;
      OctetBitsConcat(a[1..], b);
    }
  }

  lemma NextOctet(s: Octets, i: nat)
    requires i < |s|
    ensures OctetBits(s[..i + 1]) == OctetBits(s[..i]) + BitsOf(s[i], 8)
  {
    hide BitsOf;
    OctetBitsConcat(s[..i], [s[i]]);
    assert [s[i]][1..] == [];
    assert s[..i + 1] == s[..i] + [s[i]];
  }

  /** Or-ing 1 << j into a byte sets bit j. */
  lemma {:induction false} OrSetsBit(b: nat, j: nat, n: nat)
    requires j < n && b < Pow2(n)
    ensures Or(b, Pow2(j)) < Pow2(n)
    ensures BitsOf(Or(b, Pow2(j)), n) == BitsOf(b, n)[j := true]
    decreases n
  {
    hide Or, Pow2, BitsOf;
    var or := Or(b, Pow2(j));
    OrHalves(b, Pow2(j));
    PowHalves(n);
    PowerHalves(j);
    if j == 0 {
      OrZero(b / 2);
    } else {
      OrSetsBit(b / 2, j - 1, n - 1);
    }
    assert or / 2 < Pow2(n - 1);
    BitsUnfold(b, n);
    BitsUnfold(or, n);
    SetBehindFirst(b % 2 == 1, or % 2 == 1, BitsOf(b / 2, n - 1), BitsOf(or / 2, n - 1), j);
  }

  lemma BitsUnfold(v: nat, n: nat)
    requires n > 0
    ensures BitsOf(v, n) == [v % 2 == 1] + BitsOf(v / 2, n - 1)
  {}

  lemma PowerHalves(j: nat)
    ensures if j == 0 then Pow2(j) % 2 == 1 && Pow2(j) / 2 == 0 else Pow2(j) % 2 == 0 && Pow2(j) / 2 == Pow2(j - 1)
  {
    hide Pow2;
    PowHalves(j);
  }

  lemma SetBehindFirst(x: bool, y: bool, xs: seq<bool>, ys: seq<bool>, j: nat)
    requires j <= |xs|
    requires if j == 0 then y && ys == xs else y == x && ys == xs[j - 1 := true]
    ensures [y] + ys == ([x] + xs)[j := true]
  {}

  lemma PowHalves(n: nat)
    ensures if n == 0 then Pow2(n) == 1 else Pow2(n) == 2 * Pow2(n - 1)
  {}

  lemma {:induction false} OrHalves(a: nat, b: nat)
    ensures Or(a, b) % 2 == (if a % 2 == 1 || b % 2 == 1 then 1 else 0)
    ensures Or(a, b) / 2 == Or(a / 2, b / 2)
  {
    hide Or;
    OrUnfolds(a, b);
    TwoParts(if a % 2 == 1 || b % 2 == 1 then 1 else 0, Or(a / 2, b / 2));
  }

  lemma OrUnfolds(a: nat, b: nat)
    ensures Or(a, b) == (if a % 2 == 1 || b % 2 == 1 then 1 else 0) + 2 * Or(a / 2, b / 2)
  {}

  lemma {:induction false} UpdateOctet(data: Octets, k: nat, b: Byte)
    requires k < |data|
    ensures OctetBits(data[k := b]) == OctetBits(data)[..8 * k] + BitsOf(b, 8) + OctetBits(data)[8 * k + 8..]
    decreases |data|
  {
    hide BitsOf;
    var d := data[k := b];
    if k == 0 {
      assert d[1..] == data[1..];
    } else {
      assert d[0] == data[0] && d[1..] == data[1..][k - 1 := b];
      UpdateOctet(data[1..], k - 1, b);
    }
  }

  lemma {:induction false} OctetAt(data: Octets, k: nat)
    requires k < |data|
    ensures OctetBits(data)[8 * k..8 * k + 8] == BitsOf(data[k], 8)
    decreases |data|
  {
    hide BitsOf;
    if k > 0 {
      OctetAt(data[1..], k - 1);
      assert OctetBits(data)[8 * k..8 * k + 8] == OctetBits(data[1..])[8 * (k - 1)..8 * (k - 1) + 8];
    }
  }

  function SetBit(data: Octets, p: nat): Octets
    requires p / 8 < |data|
  {
    assert Pow2(8) == 256;
    OrSetsBit(data[p / 8], p % 8, 8);
    data[p / 8 := Or(data[p / 8], Pow2(p % 8))]
  }

  lemma {:induction false} SetBitSets(data: Octets, p: nat)
    requires p / 8 < |data|
    ensures OctetBits(SetBit(data, p)) == OctetBits(data)[p := true]
  {
    hide BitsOf, Or, OctetBits;
    var (k, j) := (p / 8, p % 8);
    assert Pow2(8) == 256;
    OrSetsBit(data[k], j, 8);
    UpdateOctet(data, k, Or(data[k], Pow2(j)));
    OctetAt(data, k);
    var bits := OctetBits(data);
    assert bits == bits[..8 * k] + bits[8 * k..8 * k + 8] + bits[8 * k + 8..];
    assert p == 8 * k + j;
  }

  /** One round of the bit loop: the next bit replaces the first of the zeros still ahead. */
  lemma PaintStep(data: Octets, front: seq<bool>, bits: seq<bool>, i: nat, ahead: nat)
    requires i < |bits| && ahead > 0
    requires OctetBits(data) == front + bits[..i] + Zeros(ahead)
    ensures (|front| + i) / 8 < |data|
    ensures OctetBits(if bits[i] then SetBit(data, |front| + i) else data) == front + bits[..i + 1] + Zeros(ahead - 1)
  {
    hide OctetBits, BitsOf, SetBit;
    var p := |front| + i;
    assert |OctetBits(data)| == p + ahead;
    if bits[i] { SetBitSets(data, p); }
    assert bits[..i + 1] == bits[..i] + [bits[i]];
    assert Zeros(ahead) == [false] + Zeros(ahead - 1);
    assert (front + bits[..i] + Zeros(ahead))[p := bits[i]] == front + bits[..i + 1] + Zeros(ahead - 1);
  }

  lemma {:induction false} ZeroOctets(n: nat)
    ensures OctetBits(seq(n, _ => 0)) == Zeros(8 * n)
  {
    if n > 0 {
      ZeroOctets(n - 1);
      var s: Octets := seq(n, _ => 0);
      assert s[1..] == seq(n - 1, _ => 0);
      ZeroBits(8);
    }
  }

  lemma {:induction false} ZeroBits(n: nat)
    ensures BitsOf(0, n) == Zeros(n)
  {
    if n > 0 { ZeroBits(n - 1); }
  }

  // ---- the writer ---------------------------------------------------------------------

  /** On a byte boundary, appending the bits of whole bytes appends the bytes. */
  lemma WholeOctets(before: Octets, after: Octets, bits: seq<bool>, end: nat, more: Octets)
    requires end == 8 * |before| + 8 * |more| && |after| == OctetsFor(end)
    requires bits == OctetBits(before) + OctetBits(more) && OctetBits(after)[..end] == bits
    ensures after == before + more
  {
    hide OctetBits;
    OctetBitsConcat(before, more);
    assert OctetBits(after)[..end] == OctetBits(after);
    OctetBitsDetermine(after, before + more);
  }

  lemma OneByte(before: Octets, after: Octets, value: nat, start: nat, count: nat)
    requires value < Pow2(count)
    requires |before| == OctetsFor(start) && |after| == OctetsFor(start + count)
    requires OctetBits(after)[..start + count] == OctetBits(before)[..start] + BitsOf(value, count)
    ensures count == 8 && start % 8 == 0 ==> value < 256 && after == before + [value]
  {
    hide OctetBits, BitsOf, Pow2;
    if count == 8 && start % 8 == 0 {
      ByteSize();
      SingleOctet(value);
      var bits := OctetBits(after)[..start + count];
      assert OctetBits(before)[..start] == OctetBits(before);
      WholeOctets(before, after, bits, start + count, [value]);
    }
  }

  lemma ByteSize()
    ensures Pow2(8) == 256
  {
  }

  lemma SingleOctet(b: Byte)
    ensures OctetBits([b]) == BitsOf(b, 8)
  {
    hide BitsOf;
    assert [b][1..] == [];
  }

  predicate IsPowerOfTwo(b: nat)
    decreases b
  {
    b == 1 || (b > 1 && b % 2 == 0 && IsPowerOfTwo(b / 2))
  }

  /** The writer's test for a power of two. */
  lemma {:induction false} PowerOfTwoTest(b: nat)
    requires b >= 1
    ensures And(b, b - 1) == 0 <==> IsPowerOfTwo(b)
    decreases b
  {
    if b % 2 == 0 {
      assert (b - 1) / 2 == b / 2 - 1;
      PowerOfTwoTest(b / 2);
    } else {
      AndSelf(b / 2);
      assert (b - 1) / 2 == b / 2 && (b - 1) % 2 == 0;
    }
  }

  lemma {:induction false} AndSelf(a: nat)
    ensures And(a, a) == a
  {
    if a != 0 { AndSelf(a / 2); }
  }

  /** The low bits under a power of two are the remainder. */
  lemma {:induction false} AndLowBits(x: nat, b: nat)
    requires IsPowerOfTwo(b)
    ensures And(x, b - 1) == x % b
    decreases b
  {
    if b == 1 {
      AndZero(x);
    } else {
      hide And;
      var h := b / 2;
      assert (b - 1) / 2 == h - 1 && (b - 1) % 2 == 1;
      AndLowBits(x / 2, h);
      AndHalves(x, b - 1);
      RemainderOfHalf(x, h);
    }
  }

  lemma {:induction false} AndHalves(a: nat, b: nat)
    ensures And(a, b) == 2 * And(a / 2, b / 2) + (if b % 2 == 0 then 0 else a % 2)
  {
    if a != 0 { assert b % 2 == 0 || b % 2 == 1; }
  }

  lemma RemainderOfHalf(x: nat, h: nat)
    requires h >= 1
    ensures x % (2 * h) == 2 * (x / 2 % h) + x % 2
  {
    var q, r := x / 2 / h, x / 2 % h;
    assert q * (2 * h) == 2 * (q * h);
    DivUnique(x, 2 * h, q, 2 * r + x % 2);
  }

  lemma {:induction false} AndZero(a: nat)
    ensures And(a, 0) == 0
  {
    if a != 0 { AndZero(a / 2); }
  }

  lemma ZeroTail(bits: seq<bool>, front: seq<bool>, n: nat, end: nat)
    requires bits == front + Zeros(n) && |front| <= end <= |bits|
    ensures bits[..end] == front + Zeros(end - |front|)
    ensures bits[..|front|] == front
    ensures forall i | end <= i < |bits| :: !bits[i]
  {
  }

  /** The smallest multiple of the boundary that is not below the position. */
  function RoundUp(position: nat, boundary: nat): (r: nat)
    requires boundary >= 1
    ensures position <= r < position + boundary && r % boundary == 0
  {
    var x := position + boundary - 1;
    RoundedDown(x, boundary);
    x - x % boundary
  }

  lemma AlignedTarget(position: nat, boundary: nat)
    requires IsPowerOfTwo(boundary)
    ensures And(position + boundary - 1, boundary - 1) <= position + boundary - 1
    ensures position + boundary - 1 - And(position + boundary - 1, boundary - 1) == RoundUp(position, boundary)
  {
    hide And;
    AndLowBits(position + boundary - 1, boundary);
  }

  lemma TargetIsWhole(before: Octets, after: Octets, position: nat, target: nat, boundary: nat)
    requires boundary >= 1 && target == RoundUp(position, boundary)
    requires |before| == OctetsFor(position) && |after| == OctetsFor(target)
    requires OctetBits(after)[..position] == OctetBits(before)[..position]
    ensures boundary == 8 && position % 8 == 0 ==> after == before && target == position
  {
    hide OctetBits;
    if boundary == 8 && position % 8 == 0 {
      assert OctetBits(after)[..position] == OctetBits(after) && OctetBits(before)[..position] == OctetBits(before);
      OctetBitsDetermine(after, before);
    }
  }

  lemma RoundedDown(x: nat, b: nat)
    requires b >= 1
    ensures (x - x % b) % b == 0
  {
    var q := x / b;
    assert x - x % b == q * b + 0;
    DivUnique(x - x % b, b, q, 0);
  }

  function OctetsFor(bits: nat): nat {
    (bits + 7) / 8
  }

  class BitWriter {
    var data: Octets
    var bitPos: nat

    /** The bits written so far. */
    ghost function Written(): seq<bool>
      reads this
      requires Valid()
    {
      OctetBits(data)[..bitPos]
    }

    /** Exactly as many bytes as the bits need, and nothing but zeros behind the last bit. */
    ghost predicate Valid()
      reads this
    {
      && |data| == OctetsFor(bitPos)
      && forall i | bitPos <= i < 8 * |data| :: !OctetBits(data)[i]
    }

    constructor ()
      ensures Valid() && data == [] && bitPos == 0
    {
      data, bitPos := [], 0;
    }

    /** Appends zero bytes until there is room for the given number of bits. */
    method Extend(bits: nat)
      requires Valid() && bits >= bitPos
      modifies this`data
      ensures |data| == OctetsFor(bits)
      ensures OctetBits(data) == old(Written()) + Zeros(8 * |data| - bitPos)
    {
      hide BitsOf;
      var need := OctetsFor(bits);
      ghost var before := data;
      var zeros: Octets := seq(need - |data|, _ => 0);
      OctetBitsConcat(data, zeros);
      ZeroOctets(need - |data|);
      if need > |data| {
        data := data + zeros;
      } else {
        assert zeros == [] && before + zeros == before;
      }
      assert OctetBits(before) == OctetBits(before)[..bitPos] + Zeros(8 * |before| - bitPos);
    }

    method Align(boundary: int) returns (r: Result<()>)
      requires Valid()
      modifies this
      ensures Valid()
      ensures if boundary <= 0 || !IsPowerOfTwo(boundary) then r == Err(ValueError) && Written() == old(Written())
              else
                && r == Ok(()) && bitPos == RoundUp(old(bitPos), boundary)
                && Written() == old(Written()) + Zeros(bitPos - old(bitPos))
      ensures boundary == 8 && old(bitPos) % 8 == 0 ==> data == old(data) && bitPos == old(bitPos)
    {
      hide OctetBits, IsPowerOfTwo, And, RoundUp, Zeros;
      ghost var before := data;
      if boundary <= 0 {
        return Err(ValueError);
      }
      PowerOfTwoTest(boundary);
      if And(boundary, boundary - 1) != 0 {
        return Err(ValueError);
      }
      AlignedTarget(bitPos, boundary);
      var target := bitPos + boundary - 1 - And(bitPos + boundary - 1, boundary - 1);
      Extend(target);
      ZeroTail(OctetBits(data), old(Written()), 8 * |data| - bitPos, target);
      TargetIsWhole(before, data, bitPos, target, boundary);
      bitPos := target;
      r := Ok(());
    }

    method WriteBits(value: int, count: int) returns (r: Result<()>)
      requires Valid()
      modifies this
      ensures Valid()
      ensures if !(0 <= count <= 64) || value < 0 || value >= Pow2(count)
              then r == Err(ValueError) && Written() == old(Written())
              else r == Ok(()) && bitPos == old(bitPos) + count && Written() == old(Written()) + BitsOf(value, count)
      ensures r.Ok? && count == 8 && old(bitPos) % 8 == 0 ==> 0 <= value < 256 && data == old(data) + [value]
    {
      hide OctetBits, BitsOf, Pow2, SetBit, Shr;
      ghost var before := data;
      if !(0 <= count <= 64) {
        return Err(ValueError);
      }
      if value < 0 || value >= Pow2(count) {
        return Err(ValueError);
      }
      ghost var front := Written();
      Extend(bitPos + count);
      PaintBits(front, value, count);
      ZeroTail(OctetBits(data), front + BitsOf(value, count), 8 * |data| - bitPos - count, bitPos + count);
      OneByte(before, data, value, bitPos, count);
      bitPos := bitPos + count;
      r := Ok(());
    }

    /** The bit loop: the value's bits take the place of the zeros that the buffer was extended by. */
    method PaintBits(ghost front: seq<bool>, value: nat, count: nat)
      requires |data| == OctetsFor(bitPos + count) && |front| == bitPos
      requires OctetBits(data) == front + Zeros(8 * |data| - bitPos)
      modifies this`data
      ensures |data| == OctetsFor(bitPos + count)
      ensures OctetBits(data) == front + BitsOf(value, count) + Zeros(8 * |data| - bitPos - count)
    {
      hide OctetBits, BitsOf, Pow2, SetBit, Shr, Zeros;
      ghost var all := BitsOf(value, count);
      ghost var total := 8 * |data|;
      assert front + all[..0] == front;
      for i := 0 to count
        invariant |data| == OctetsFor(bitPos + count)
        invariant OctetBits(data) == front + all[..i] + Zeros(total - bitPos - i)
      {
        BitAt(value, count, i);
        PaintStep(data, front, all, i, total - bitPos - i);
        if Shr(value, i) % 2 == 1 {
          data := SetBit(data, bitPos + i);
        }
      }
      assert all[..count] == all;
    }

    /** Appends whole bytes, behind zero bits up to the next byte if asked to. */
    method WriteBytes(value: Octets, align: bool)
      requires Valid()
      modifies this
      ensures Valid()
      ensures var gap := if align then RoundUp(old(bitPos), 8) - old(bitPos) else 0;
              && bitPos == old(bitPos) + gap + 8 * |value|
              && Written() == old(Written()) + Zeros(gap) + OctetBits(value)
      ensures old(bitPos) % 8 == 0 ==> data == old(data) + value
    {
      hide OctetBits, BitsOf;
      ghost var before := data;
      assert IsPowerOfTwo(8);
      if align {
        var _ := Align(8);
      }
      ghost var front := Written();
      assert front == old(Written()) + Zeros(bitPos - old(bitPos));
      AppendOctets(value);
      if old(bitPos) % 8 == 0 {
        WholeOctets(before, data, Written(), bitPos, value);
      }
    }

    method AppendOctets(value: Octets)
      requires Valid()
      modifies this
      ensures Valid() && bitPos == old(bitPos) + 8 * |value|
      ensures Written() == old(Written()) + OctetBits(value)
    {
      hide OctetBits, BitsOf, Pow2;
      ByteSize();
      assert OctetBits(value[..0]) == [];
      for i := 0 to |value|
        invariant Valid() && bitPos == old(bitPos) + 8 * i
        invariant Written() == old(Written()) + OctetBits(value[..i])
      {
        var _ := WriteBits(value[i], 8);
        NextOctet(value, i);
      }
      assert value[..|value|] == value;
    }

    method WriteUintBe(value: int, width: int) returns (r: Result<()>)
      requires Valid()
      modifies this
      ensures Valid()
      ensures if width !in {1, 2, 4, 8} then r == Err(ValueError) && Written() == old(Written())
              else if !(0 <= value < Pow256(width)) then r == Err(OverflowError) && Written() == old(Written())
              else
                && r == Ok(()) && bitPos == old(bitPos) + 8 * width
                && Written() == old(Written()) + OctetBits(Be(value, width))
      ensures r.Ok? && old(bitPos) % 8 == 0 ==> data == old(data) + Be(value, width)
    {
      hide OctetBits, Pow256, Be;
      if width !in {1, 2, 4, 8} {
        return Err(ValueError);
      }
      if !(0 <= value < Pow256(width)) {
        return Err(OverflowError);
      }
      WriteBytes(Be(value, width), false);
      r := Ok(());
    }

    method Bytes() returns (r: Octets)
      requires Valid()
      ensures r == data && |r| == OctetsFor(bitPos)
      ensures OctetBits(r) == Written() + Zeros(8 * |r| - bitPos)
    {
      hide OctetBits;
      r := data[..OctetsFor(bitPos)];
      assert r == data;
    }
  }
}
