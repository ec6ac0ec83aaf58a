/** Unsigned LEB128 (section 7.6 of DWARF Version 5), ZigZag, and the 0x92 packet, as two modules implement them. */
module Varint {
  import opened Results
  import opened Bytes
  import opened Bits
  import opened Modular

  // ---- encoding ---------------------------------------------------------------------

  /** Groups of seven bits, least significant first, the continuation bit on all but the last. */
  function Leb(v: nat): (s: Octets)
    ensures s != []
  {
    if v < 128 then [v] else [128 + v % 128] + Leb(v / 128)
  }

  function EncodeVaruint(v: int): Result<Octets> {
    if 0 <= v < M64 then Ok(Leb(v)) else Err(ValueError)
  }

  /** application_bootstrap.encode_varuint. */
  method BootstrapEncode(v: int) returns (r: Result<Octets>)
    ensures r == EncodeVaruint(v)
  {
    if !(0 <= v < M64) {
      return Err(ValueError);
    }
    var value: nat := v;
    var out: Octets := [];
    while true
      invariant out + Leb(value) == Leb(v)
      decreases value
    {
      var byte: Byte := value % 128;
      value := value / 128;
      out := out + [if value != 0 then byte + 128 else byte];
      if value == 0 {
        return Ok(out);
      }
    }
  }

  /** application_challenge.encode_varuint. */
  method ChallengeEncode(v: int) returns (r: Result<Octets>)
    ensures r == EncodeVaruint(v)
  {
    if !(0 <= v < M64) {
      return Err(ValueError);
    }
    var value: nat := v;
    var out: Octets := [];
    while true
      invariant out + Leb(value) == Leb(v)
      decreases value
    {
      var byte: Byte := value % 128;
      value := value / 128;
      if value != 0 {
        byte := byte + 128;
      }
      out := out + [byte];
      if value == 0 {
        return Ok(out);
      }
    }
  }

  // ---- decoding ---------------------------------------------------------------------

  /** At most ten groups; the tenth may only hold the top bit of a 64-bit number. */
  function Scan(data: Octets, index: nat): (r: Result<Cut<nat>>)
    ensures r.Err? ==> r.error == ValueError
    ensures r.Ok? ==> |r.value.rest| < |data| && r.value.rest == data[|data| - |r.value.rest|..]
    decreases 10 - index
  {
    if index >= 10 || data == [] then Err(ValueError)
    else if index == 9 && data[0] > 1 then Err(ValueError)
    else if data[0] < 128 then Ok(Cut(data[0], data[1..]))
    else
      var more :- Scan(data[1..], index + 1);
      Ok(Cut(data[0] - 128 + 128 * more.value, more.rest))
  }

  /** _Reader.varuint: accepts overlong forms. */
  function Lenient(data: Octets): Result<Cut<nat>> {
    Scan(data, 0)
  }

  /** application_challenge.decode_varuint: the bytes read must be the canonical encoding. */
  function Strict(data: Octets): Result<Cut<nat>> {
    var read :- Scan(data, 0);
    if data[..|data| - |read.rest|] == Leb(read.value) then Ok(read) else Err(ValueError)
  }

  function Capacity(index: nat): nat
    requires index < 10
  {
    Pow2(64 - 7 * index)
  }

  lemma CapacityStep(index: nat)
    requires index < 9
    ensures Capacity(index) == 128 * Capacity(index + 1)
  {
    hide Pow2;
    PowSeven(57 - 7 * index);
  }

  lemma LastCapacity()
    ensures Capacity(9) == 2
  {
    assert Pow2(1) == 2;
  }

  lemma LebMore(low: nat, high: nat)
    requires low < 128 && high > 0
    ensures Leb(low + 128 * high) == [128 + low] + Leb(high)
  {
    assert (low + 128 * high) % 128 == low && (low + 128 * high) / 128 == high;
  }

  lemma ScanMore(low: nat, tail: Octets, index: nat)
    requires low < 128 && index < 9
    ensures var (data, more) := ([128 + low] + tail, Scan(tail, index + 1));
            Scan(data, index) == if more.Err? then more else Ok(Cut(low + 128 * more.value.value, more.value.rest))
  {
    assert ([128 + low] + tail)[1..] == tail;
  }

  lemma ScanLast(v: nat, tail: Octets, index: nat)
    requires v < 128 && index < 10 && (index == 9 ==> v <= 1)
    ensures Scan([v] + tail, index) == Ok(Cut(v, tail))
  {
    assert ([v] + tail)[1..] == tail;
  }

  lemma {:induction false} ScanInvertsLebAt(v: nat, suffix: Octets, index: nat)
    requires index < 10 && v < Capacity(index)
    ensures Scan(Leb(v) + suffix, index) == Ok(Cut(v, suffix))
    decreases 10 - index
  {
    hide Capacity, Pow2, Scan, Leb;
    LastCapacity();
    if v < 128 {
      LebSmall(v);
      ScanLast(v, suffix, index);
    } else {
      var (low, high) := (v % 128, v / 128);
      CapacityStep(index);
      ScanInvertsLebAt(high, suffix, index + 1);
      LebMore(low, high);
      ScanMore(low, Leb(high) + suffix, index);
      assert Leb(v) + suffix == [128 + low] + (Leb(high) + suffix);
    }
  }

  lemma LebSmall(v: nat)
    requires v < 128
    ensures Leb(v) == [v]
  {}

  lemma {:induction false} ScanInvertsLeb(v: nat, suffix: Octets)
    requires v < M64
    ensures Scan(Leb(v) + suffix, 0) == Ok(Cut(v, suffix))
  {
    hide Pow2;
    WordSizes();
    ScanInvertsLebAt(v, suffix, 0);
  }

  lemma {:induction false} ScanBound(data: Octets, index: nat)
    requires index < 10 && Scan(data, index).Ok?
    ensures Scan(data, index).value.value < Capacity(index)
    decreases 10 - index
  {
    if index == 9 { assert Pow2(1) == 2; } else {
      hide Capacity;
      CapacityStep(index);
      CapacityPositive(index + 1);
      if data[0] >= 128 { ScanBound(data[1..], index + 1); }
    }
  }

  lemma CapacityPositive(index: nat)
    requires index < 10
    ensures Capacity(index) >= 1
  {}

  /** The strict decoder accepts exactly the encodings of 64-bit numbers. */
  lemma {:induction false} StrictIsInverse(data: Octets, v: nat, rest: Octets)
    ensures Strict(data) == Ok(Cut(v, rest)) <==> v < M64 && data == Leb(v) + rest
  {
    hide Leb, Pow2;
    if v < M64 && data == Leb(v) + rest {
      ScanInvertsLeb(v, rest);
      assert data[..|data| - |rest|] == Leb(v);
    }
    if Strict(data) == Ok(Cut(v, rest)) {
      WordSizes();
      ScanBound(data, 0);
      assert data == data[..|data| - |rest|] + data[|data| - |rest|..];
    }
  }

  lemma {:induction false} CanonicalAt(data: Octets, index: nat)
    requires Scan(data, index).Ok?
    ensures var (v, n) := (Scan(data, index).value.value, |data| - |Scan(data, index).value.rest|);
            && (v == 0 ==> data[n - 1] == 0) && (n == 1 ==> v == data[0])
            && (data[..n] == Leb(v) <==> n == 1 || data[n - 1] != 0)
    decreases 10 - index
  {
    hide Scan, Leb;
    ScanOpens(data, index);
    if data[0] < 128 {
      LebSmall(data[0]);
      ScanLast(data[0], data[1..], index);
      assert data == [data[0]] + data[1..] && data[..1] == [data[0]];
    } else {
      var (low, tail) := (data[0] - 128, data[1..]);
      assert data == [128 + low] + tail;
      ScanMore(low, tail, index);
      CanonicalAt(tail, index + 1);
      var more := Scan(tail, index + 1).value;
      var m := |tail| - |more.rest|;
      assert data[..m + 1] == [128 + low] + tail[..m] && m >= 1;
      assert data[m] == tail[m - 1];
      if more.value == 0 {
        LebSmall(low);
      } else {
        LebMore(low, more.value);
        SameTail(128 + low, tail[..m], Leb(more.value));
      }
    }
  }

  lemma SameTail(first: Byte, a: Octets, b: Octets)
    ensures [first] + a == [first] + b <==> a == b
  {
    assert ([first] + a)[1..] == a && ([first] + b)[1..] == b;
  }

  lemma ScanOpens(data: Octets, index: nat)
    requires Scan(data, index).Ok?
    ensures data != [] && index < 10 && (index == 9 ==> data[0] <= 1)
    ensures data[0] >= 128 ==> Scan(data[1..], index + 1).Ok?
  {}

  /** The two decoders differ on exactly the overlong forms: more than one byte, ending in a zero byte. */
  lemma {:induction false} StrictIsLenientWithoutPadding(data: Octets)
    ensures Strict(data).Ok? <==>
              && Lenient(data).Ok?
              && var n := |data| - |Lenient(data).value.rest|;
              n == 1 || data[n - 1] != 0
    ensures Strict(data).Ok? ==> Lenient(data) == Strict(data)
  {
    hide Leb;
    if Lenient(data).Ok? { CanonicalAt(data, 0); }
  }

  lemma {:induction false} LenientAcceptsPadding()
    ensures Lenient([0x80, 0]) == Ok(Cut(0, [])) && Strict([0x80, 0]) == Err(ValueError)
  {
    assert [0x80, 0][1..] == [0];
    assert Scan([0], 1) == Ok(Cut(0, []));
    assert [0x80, 0][..2] == [0x80, 0];
    assert Leb(0) == [0];
  }

  /** The loop that both decoders run: groups are shifted into place and or-ed together. */
  method ScanGroups(data: Octets, start: nat) returns (r: Result<Cut<nat>>)
    requires start <= |data|
    ensures r == Scan(data[start..], 0)
  {
    hide Or, Shl, Pow2, Shifted, Scan;
    var value: nat := 0;
    var offset := start;
    PowNone();
    ShiftedNothing(Scan(data[start..], 0));
    for index := 0 to 10
      invariant offset == start + index <= |data|
      invariant value < Pow2(7 * index)
      invariant Scan(data[start..], 0) == Shifted(value, index, Scan(data[offset..], index))
    {
      ScanStep(value, index, data[offset..]);
      if offset >= |data| {
        return Err(ValueError);
      }
      var byte := data[offset];
      assert data[offset..][1..] == data[offset + 1..];
      offset := offset + 1;
      if index == 9 && byte > 1 {
        return Err(ValueError);
      }
      value := Or(value, Shl(byte % 128, 7 * index));
      if byte < 128 {
        return Ok(Cut(value, data[offset..]));
      }
    }
    ScanStep(value, 10, data[offset..]);
    r := Err(ValueError);
  }

  /** One turn of the loop. */
  lemma {:induction false} ScanStep(low: nat, index: nat, data: Octets)
    requires low < Pow2(7 * index)
    ensures var whole := Shifted(low, index, Scan(data, index));
            if index >= 10 || data == [] || (index == 9 && data[0] > 1) then whole == Err(ValueError)
            else
              var next := Or(low, Shl(data[0] % 128, 7 * index));
              && next < Pow2(7 * (index + 1))
              && whole == if data[0] < 128 then Ok(Cut(next, data[1..]))
                          else Shifted(next, index + 1, Scan(data[1..], index + 1))
  {
    if index < 10 && data != [] && !(index == 9 && data[0] > 1) {
      var more := Scan(data[1..], index + 1);
      assert Scan(data, index) == ScannedFrom(data, more);
      hide Or, Shl, Pow2, Scan, Shifted;
      ShiftedStep(low, index, data[0], more);
      ScannedShift(low, index, data, more);
    }
  }

  /** What one group makes of the groups behind it. */
  function ScannedFrom(data: Octets, more: Result<Cut<nat>>): Result<Cut<nat>>
    requires data != []
  {
    if data[0] < 128 then Ok(Cut(data[0], data[1..]))
    else if more.Err? then more
    else Ok(Cut(data[0] - 128 + 128 * more.value.value, more.value.rest))
  }

  lemma ScannedShift(low: nat, index: nat, data: Octets, more: Result<Cut<nat>>)
    requires data != [] && low < Pow2(7 * index)
    ensures var next := Or(low, Shl(data[0] % 128, 7 * index));
            Shifted(low, index, ScannedFrom(data, more))
            == if data[0] < 128 then Ok(Cut(next, data[1..])) else Shifted(next, index + 1, more)
  {
    hide Or, Shl, Pow2;
    ShiftedStep(low, index, data[0], more);
  }

  lemma ShiftedNothing(r: Result<Cut<nat>>)
    ensures Shifted(0, 0, r) == r
  {}

  method DecodeStrict(data: Octets, start: nat) returns (r: Result<Cut<nat>>)
    ensures r == if start <= |data| then Strict(data[start..]) else Err(ValueError)
  {
    if start > |data| {
      return Err(ValueError);
    }
    hide Leb, Scan;
    r := ScanGroups(data, start);
    if r.Ok? {
      var end := |data| - |r.value.rest|;
      assert data[start..][..end - start] == data[start..end];
      if data[start..end] != Leb(r.value.value) {
        return Err(ValueError);
      }
    }
  }

  /** The number whose low groups have been read already. */
  function Shifted(low: nat, groups: nat, r: Result<Cut<nat>>): Result<Cut<nat>> {
    if r.Err? then r else Ok(Cut(low + Shl(r.value.value, 7 * groups), r.value.rest))
  }

  lemma {:induction false} ShiftedStep(low: nat, groups: nat, byte: Byte, more: Result<Cut<nat>>)
    requires low < Pow2(7 * groups)
    ensures var next := Or(low, Shl(byte % 128, 7 * groups));
            && next == low + Shl(byte % 128, 7 * groups)
            && next < Pow2(7 * (groups + 1))
            && (byte >= 128 && more.Ok? ==>
                  Shifted(low, groups, Ok(Cut(byte - 128 + 128 * more.value.value, more.value.rest)))
                  == Shifted(next, groups + 1, more))
  {
    hide Or, Pow2;
    var (p, b) := (Pow2(7 * groups), byte % 128);
    OrCommutes(low, Shl(b, 7 * groups));
    OrOfDisjoint(b, low, 7 * groups);
    PowSeven(7 * groups);
    assert b * p + p <= 128 * p by { MulLe(b + 1, 128, p); assert (b + 1) * p == b * p + p; }
    if byte >= 128 && more.Ok? {
      var m := more.value.value;
      assert (b + 128 * m) * p == b * p + 128 * m * p;
      assert m * (128 * p) == 128 * m * p;
    }
  }

  // ---- ZigZag --------------------------------------------------------------------------

  lemma Xor64(a: Word64, b: Word64)
    ensures Xor(a, b) < M64
  {
    hide Pow2, Xor;
    WordSizes();
    XorBound(a, b, 64);
  }

  lemma XorAllOnes(a: Word64)
    ensures Xor(a, M64 - 1) == M64 - 1 - a
  {
    hide Pow2, Xor;
    WordSizes();
    XorOnes(a, 64);
  }

  /** zigzag64_encode_bits, on the raw 64-bit pattern. */
  function ZigzagBits(bits: int): Word64 {
    var b: Word64 := bits % M64;
    var fill: Word64 := if b >= M63 then M64 - 1 else 0;
    Xor64(b * 2 % M64, fill);
    Xor(b * 2 % M64, fill)
  }

  /** zigzag64_decode_bits. */
  function UnzigzagBits(encoded: int): Word64 {
    var e: Word64 := encoded % M64;
    var fill: Word64 := if e % 2 == 1 then M64 - 1 else 0;
    Xor64(e / 2, fill);
    Xor(e / 2, fill)
  }

  /** (v << 1) ^ (v >> 63), where v >> 63 is 0 or the infinitely long -1. */
  function ZigzagSigned(v: int): nat {
    if v >= 0 then 2 * v else -(2 * v) - 1
  }

  /** (e >> 1) ^ -(e & 1). */
  function UnzigzagSigned(e: int): int {
    if e % 2 == 0 then e / 2 else -(e / 2) - 1
  }

  /** Python's ^ on signed integers, in two's complement of unlimited length. */
  function XorSigned(a: int, b: int): int {
    if a >= 0 && b >= 0 then Xor(a, b)
    else if a < 0 && b < 0 then Xor(-a - 1, -b - 1)
    else if a < 0 then -1 - Xor(-a - 1, b)
    else -1 - Xor(a, -b - 1)
  }

  /** It works bit by bit: on the lowest bits, and on the rest. */
  lemma {:induction false} XorSignedStep(a: int, b: int)
    ensures XorSigned(a, b) % 2 == (a % 2 + b % 2) % 2
    ensures XorSigned(a, b) / 2 == XorSigned(a / 2, b / 2)
  {
    hide Xor, XorSigned, Magnitude;
    var (p, q) := (Magnitude(a), Magnitude(b));
    XorStep(p, q);
    MagnitudeHalves(a);
    MagnitudeHalves(b);
    Complement(Xor(p, q));
    XorSignedIs(a, b);
    XorSignedIs(a / 2, b / 2);
    MixedParity(a % 2, b % 2);
  }

  lemma XorSignedIs(a: int, b: int)
    ensures XorSigned(a, b)
         == if (a < 0) == (b < 0) then Xor(Magnitude(a), Magnitude(b)) else -1 - Xor(Magnitude(a), Magnitude(b))
  {
    hide Xor;
  }

  /** Complementing one bit complements the exclusive or; complementing both leaves it. */
  lemma MixedParity(x: int, y: int)
    requires 0 <= x < 2 && 0 <= y < 2
    ensures (1 - x + y) % 2 == 1 - (x + y) % 2 && (x + (1 - y)) % 2 == 1 - (x + y) % 2
    ensures (1 - x + (1 - y)) % 2 == (x + y) % 2
  {}

  /** The number, or the complement of a negative one. */
  function Magnitude(a: int): nat {
    if a < 0 then -a - 1 else a
  }

  lemma MagnitudeHalves(a: int)
    ensures Magnitude(a / 2) == Magnitude(a) / 2 && (a / 2 < 0 <==> a < 0)
    ensures Magnitude(a) % 2 == if a < 0 then 1 - a % 2 else a % 2
  {}

  lemma Complement(x: int)
    ensures (-x - 1) / 2 == -(x / 2) - 1 && (-x - 1) % 2 == 1 - x % 2
  {}

  /** The source's expressions: (v << 1) ^ (v >> 63) for 64-bit v, and (e >> 1) ^ -(e & 1). */
  lemma {:induction false} ZigzagExpressions(v: int, e: nat)
    ensures -M63 <= v < M63 ==> XorSigned(v * 2, v / M63) == ZigzagSigned(v)
    ensures XorSigned(e / 2, -(e % 2)) == UnzigzagSigned(e)
  {
    hide Xor;
    XorZero(if v >= 0 then v * 2 else -(v * 2) - 1);
    XorZero(e / 2);
  }

  function EncodeVarsint(v: int): Result<Octets> {
    if -M63 <= v < M63 then EncodeVaruint(ZigzagSigned(v)) else Err(ValueError)
  }

  function SignedOf(bits: Word64): int {
    if bits >= M63 then bits - M64 else bits
  }

  /** encode_varsint accepts every signed 64-bit number and raises for all others. */
  lemma VarsintRange(v: int)
    ensures EncodeVarsint(v) == if -M63 <= v < M63 then Ok(Leb(ZigzagSigned(v))) else Err(ValueError)
    ensures UnzigzagSigned(ZigzagSigned(v)) == v
    ensures forall bits: Word64 | SignedOf(bits) == v :: -M63 <= v < M63
  {
    hide Leb;
    ZigzagRange(v);
  }

  lemma ZigzagRange(v: int)
    ensures UnzigzagSigned(ZigzagSigned(v)) == v
    ensures -M63 <= v < M63 <==> ZigzagSigned(v) < M64
  {
    var e := ZigzagSigned(v);
    if v >= 0 {
      assert e % 2 == 0 && e / 2 == v;
    } else {
      assert e == 2 * (-v - 1) + 1 && e % 2 == 1 && e / 2 == -v - 1;
    }
  }

  lemma EncodersAgree(bits: Word64)
    ensures ZigzagBits(bits) == ZigzagSigned(SignedOf(bits))
  {
    hide Xor;
    if bits >= M63 { XorAllOnes(bits * 2 % M64); } else { XorZero(bits * 2 % M64); }
  }

  lemma DecodersAgree(e: Word64)
    ensures UnzigzagBits(e) == UnzigzagSigned(e) % M64
  {
    hide Xor;
    if e % 2 == 1 { XorAllOnes(e / 2); } else { XorZero(e / 2); }
  }

  /** The bit-pattern and the signed ZigZag are the same map, and so are their inverses. */
  lemma {:induction false} ZigzagsAgree(bits: Word64)
    ensures ZigzagBits(bits) == ZigzagSigned(SignedOf(bits))
    ensures UnzigzagBits(bits) == UnzigzagSigned(bits) % M64
  {
    EncodersAgree(bits);
    DecodersAgree(bits);
  }

  lemma SignedZigzagInverts(bits: Word64)
    ensures ZigzagSigned(SignedOf(bits)) < M64
    ensures UnzigzagSigned(ZigzagSigned(SignedOf(bits))) % M64 == bits
  {}

  lemma SignedUnzigzagInverts(e: Word64)
    ensures ZigzagSigned(SignedOf(UnzigzagSigned(e) % M64)) == e
  {}

  /** ZigZag is a bijection on 64-bit patterns. */
  lemma {:induction false} ZigzagIsBijective(bits: Word64)
    ensures UnzigzagBits(ZigzagBits(bits)) == bits
    ensures ZigzagBits(UnzigzagBits(bits)) == bits
  {
    hide ZigzagBits, UnzigzagBits, ZigzagSigned, UnzigzagSigned, SignedOf;
    ZigzagsAgree(bits);
    ZigzagsAgree(ZigzagBits(bits));
    ZigzagsAgree(UnzigzagBits(bits));
    SignedZigzagInverts(bits);
    SignedUnzigzagInverts(bits);
  }

  // ---- the 0x92 packet --------------------------------------------------------------------

  const ID_PLACE_VERIFICATION := 0x92

  /** random << 32 | (random ^ profile). */
  function Packed(random: int, profile: int): Word64
    requires IsWord(random) && IsWord(profile)
  {
    WordXor(random, profile);
    random * M32 + Xor(random, profile)
  }

  /** application_challenge.build_place_id_verification. */
  function BuildFromBits(random: int, profile: int): Result<Octets> {
    if !IsWord(random) || !IsWord(profile) then Err(ValueError) else
    Ok([ID_PLACE_VERIFICATION] + Leb(ZigzagBits(Packed(random, profile))))
  }

  /** application_bootstrap.build_placeid_verification, given its random word. */
  function BuildFromSigned(random: int, profile: int): Result<Octets> {
    if !IsWord(random) || !IsWord(profile) then Err(ValueError) else
    Ok([ID_PLACE_VERIFICATION] + Leb(ZigzagSigned(SignedOf(Packed(random, profile)))))
  }

  /** Two builders written independently emit the same bytes, and raise for the same words. */
  lemma {:induction false} BuildersAgree(random: int, profile: int)
    ensures BuildFromBits(random, profile) == BuildFromSigned(random, profile)
    ensures BuildFromBits(random, profile).Ok? <==> IsWord(random) && IsWord(profile)
    ensures IsWord(random) && IsWord(profile) ==>
              BuildFromBits(random, profile).value
              == [ID_PLACE_VERIFICATION] + EncodeVarsint(SignedOf(Packed(random, profile))).value
  {
    if IsWord(random) && IsWord(profile) {
      hide ZigzagBits, Packed, Leb;
      ZigzagsAgree(Packed(random, profile));
      VarsintRange(SignedOf(Packed(random, profile)));
    }
  }

  datatype Place = Place(random: int, profile: int, packed: int)

  function Unpacked(packed: Word64): Place {
    var (random, low) := (packed / M32, packed % M32);
    Place(random, Xor(low, random), packed)
  }

  /** application_challenge.parse_place_id_verification. */
  function ParseStrict(packet: Octets): Result<Place> {
    if packet == [] || packet[0] != ID_PLACE_VERIFICATION then Err(ValueError) else
    var read :- Strict(packet[1..]);
    if read.rest != [] then Err(ValueError) else Ok(Unpacked(UnzigzagBits(read.value)))
  }

  /** application_bootstrap.parse_placeid_verification. */
  function ParseLenient(packet: Octets, expected: int): Result<Place> {
    if packet == [] || packet[0] != ID_PLACE_VERIFICATION then Err(ValueError) else
    var read :- Lenient(packet[1..]);
    if read.rest != [] then Err(ValueError) else
    var place := Unpacked(UnzigzagSigned(read.value) % M64);
    if place.profile != expected % M32 then Err(ValueError) else Ok(place)
  }

  lemma {:induction false} UnpackedInvertsPacked(random: int, profile: int)
    requires IsWord(random) && IsWord(profile)
    ensures Unpacked(Packed(random, profile)) == Place(random, profile, Packed(random, profile))
  {
    hide Xor;
    WordXor(random, profile);
    XorCommutes(random, profile);
    XorCancels(profile, random);
  }

  /** Both parsers read back both words; the lenient one insists on the profile it expects. */
  lemma {:induction false} ParsersInvertBuilders(random: int, profile: int, expected: int)
    requires IsWord(random) && IsWord(profile)
    ensures var packet := BuildFromBits(random, profile).value;
            var place := Place(random, profile, Packed(random, profile));
            && BuildFromBits(random, profile).Ok?
            && ParseStrict(packet) == Ok(place)
            && ParseLenient(packet, expected) == if expected % M32 == profile then Ok(place) else Err(ValueError)
  {
    hide ZigzagBits, UnzigzagBits, Packed, Unpacked, Strict, Scan, UnzigzagSigned;
    var (bits, z) := (Packed(random, profile), ZigzagBits(Packed(random, profile)));
    var packet := BuildFromBits(random, profile).value;
    assert packet[1..] == Leb(z) && Leb(z) == Leb(z) + [];
    ScanInvertsLeb(z, []);
    StrictIsInverse(packet[1..], z, []);
    ZigzagIsBijective(bits);
    ZigzagsAgree(z);
    UnpackedInvertsPacked(random, profile);
  }

  /** Whatever the strict parser accepts, the lenient one accepts and reads alike, given the profile word in it. */
  lemma {:induction false} StrictImpliesLenient(packet: Octets)
    requires ParseStrict(packet).Ok?
    ensures ParseLenient(packet, ParseStrict(packet).value.profile) == ParseStrict(packet)
  {
    hide UnzigzagBits, UnzigzagSigned, Leb, Scan;
    StrictIsLenientWithoutPadding(packet[1..]);
    var read := Strict(packet[1..]).value;
    StrictValueIsWord(packet[1..]);
    ZigzagsAgree(read.value);
    UnpackedProfileIsWord(UnzigzagBits(read.value));
  }

  lemma {:induction false} StrictValueIsWord(data: Octets)
    requires Strict(data).Ok?
    ensures Strict(data).value.value < M64
  {
    var read := Strict(data).value;
    StrictIsInverse(data, read.value, read.rest);
  }

  lemma UnpackedProfileIsWord(packed: Word64)
    ensures IsWord(Unpacked(packed).profile)
  {
    WordXor(packed % M32, packed / M32);
  }
}
