/** XXH32 as the ticket builder computes it, and the platform-key mixer applied to its digest. */
module TicketHash {
  import opened Bytes
  import opened Bits
  import opened Modular

  const P1: Word := 0x9E37_79B1
  const P2: Word := 0x85EB_CA77
  const P3: Word := 0xC2B2_AE3D
  const P4: Word := 0x27D4_EB2F
  const P5: Word := 0x1656_67B1

  function Wrap(v: int): Word {
    v % M32
  }

  /** _rol32, operator for operator. */
  function Rol32(value: int, count: nat): Word {
    var c := count % 32;
    var v := Wrap(value);
    Or(Shl(v, c), Shr(v, (32 - c) % 32)) % M32
  }

  // ---- rotation ---------------------------------------------------------------------

  /** A rotation splits the word at bit 32 - c and swaps the two parts. */
  lemma {:induction false} RolSwapsParts(v: Word, c: nat, high: nat, low: nat)
    requires 0 < c < 32 && v == high * Pow2(32 - c) + low && low < Pow2(32 - c)
    ensures Rol32(v, c) == low * Pow2(c) + high && high < Pow2(c)
  {
    hide Or, Shr, Shl, Pow2, Rol32, Wrap;
    var p, q := Pow2(c), Pow2(32 - c);
    RolIs(v, c);
    ShrUnique(v, 32 - c, high, low);
    PowSplit(c);
    HighPartBound(v, high, low, p, q);
    OrOfShifted(v, high, c);
    ProductWraps(v, high, low, p, q);
  }

  lemma OrOfShifted(v: nat, low: nat, c: nat)
    requires low < Pow2(c)
    ensures Or(Shl(v, c), low) == v * Pow2(c) + low
  {
    hide Or, Shl, Pow2;
    OrOfDisjoint(v, low, c);
    ShlIs(v, c);
  }

  lemma ProductWraps(v: nat, high: nat, low: nat, p: nat, q: nat)
    requires v == high * q + low && p * q == M32 && low < q && high < p
    ensures (v * p + high) % M32 == low * p + high
  {
    PartsOfProduct(high, low, p, q);
    WrapOfParts(high, low * p + high);
  }

  lemma RolIs(v: Word, c: nat)
    requires 0 < c < 32
    ensures Rol32(v, c) == Or(Shl(v, c), Shr(v, 32 - c)) % M32
  {
    hide Or, Shl, Shr;
  }

  lemma ShlIs(v: nat, c: nat)
    ensures Shl(v, c) == v * Pow2(c)
  {
    hide Pow2;
  }

  lemma PartsOfProduct(high: nat, low: nat, p: nat, q: nat)
    requires p * q == M32 && low < q && high < p
    ensures (high * q + low) * p == high * M32 + low * p
    ensures low * p + high < M32
  {
    assert (high * q + low) * p == (high * q) * p + low * p by { DistributePlusRight(high * q, low, p); }
    assert (high * q) * p == high * (q * p) by { Associate(high, q, p); }
    MulLe(low + 1, q, p);
    assert (low + 1) * p == low * p + p;
  }

  lemma WrapOfParts(high: nat, rest: nat)
    requires rest < M32
    ensures (high * M32 + rest) % M32 == rest
  {}

  lemma HighPartBound(v: Word, high: nat, low: nat, p: nat, q: nat)
    requires v == high * q + low && p * q == M32
    ensures high < p
  {
    if high >= p { MulLe(p, high, q); }
  }

  lemma PowSplit(c: nat)
    requires c <= 32
    ensures Pow2(c) * Pow2(32 - c) == M32
  {
    hide Pow2;
    PowSum(c, 32 - c);
    WordSizes();
  }

  /** Rotating right by c is rotating left by 32 - c, and undoes rotating left by c. */
  lemma {:induction false} RolInverse(v: Word, c: nat)
    requires 0 < c < 32
    ensures Rol32(Rol32(v, c), 32 - c) == v
  {
    hide Rol32, Pow2;
    var high, low := v / Pow2(32 - c), v % Pow2(32 - c);
    assert v == high * Pow2(32 - c) + low;
    RolSwapsParts(v, c, high, low);
    RolSwapsParts(Rol32(v, c), 32 - c, low, high);
  }

  // ---- xor with a shifted copy -----------------------------------------------------------

  /** Solves x ^ (x >> shift) == y by iterating x := y ^ (x >> shift). */
  function UndoXorShift(y: nat, shift: nat, rounds: nat): nat
    decreases rounds
  {
    if rounds == 0 then y else Xor(y, Shr(UndoXorShift(y, shift, rounds - 1), shift))
  }

  lemma {:induction false} XorMiddle(a: nat, b: nat, c: nat)
    ensures Xor(Xor(a, b), Xor(b, c)) == Xor(a, c)
  {
    XorAssociates(Xor(a, b), b, c);
    XorCancels(a, b);
  }

  /** Each iteration moves the error another `shift` bits down, until nothing is left of it. */
  lemma {:induction false} IterationError(x: nat, shift: nat, rounds: nat)
    ensures Xor(UndoXorShift(Xor(x, Shr(x, shift)), shift, rounds), x) == Shr(x, shift * (rounds + 1))
    decreases rounds
  {
    hide Xor, Shr;
    var sx := Shr(x, shift);
    var y := Xor(x, sx);
    XorCancels(x, sx);
    if rounds == 0 {
      XorCommutes(x, sx);
      XorCancels(sx, x);
    } else {
      var su := Shr(UndoXorShift(y, shift, rounds - 1), shift);
      IterationError(x, shift, rounds - 1);
      XorShift(UndoXorShift(y, shift, rounds - 1), x, shift);
      ShrTwice(x, shift * rounds, shift);
      assert shift * rounds + shift == shift * (rounds + 1);
      XorCommutes(y, su);
      XorMiddle(su, y, sx);
    }
  }

  /** Consecutive iterates differ by y shifted ever further, so the iteration reaches a fixed point. */
  lemma {:induction false} IterationStep(y: nat, shift: nat, rounds: nat)
    ensures Xor(UndoXorShift(y, shift, rounds + 1), UndoXorShift(y, shift, rounds)) == Shr(y, shift * (rounds + 1))
    decreases rounds
  {
    hide Xor, Shr;
    var u := UndoXorShift(y, shift, rounds);
    if rounds == 0 {
      assert UndoXorShift(y, shift, 1) == Xor(y, Shr(y, shift));
      XorCommutes(y, Shr(y, shift));
      XorCancels(Shr(y, shift), y);
    } else {
      var t := UndoXorShift(y, shift, rounds - 1);
      IterationStep(y, shift, rounds - 1);
      XorShift(u, t, shift);
      ShrTwice(y, shift * rounds, shift);
      assert shift * rounds + shift == shift * (rounds + 1);
      XorCommutes(y, Shr(u, shift));
      XorMiddle(Shr(u, shift), y, Shr(t, shift));
    }
  }

  lemma {:induction false} XorIsZero(a: nat, b: nat)
    requires Xor(a, b) == 0
    ensures a == b
  {
    XorCancels(a, b);
    XorCommutes(0, b);
    XorZero(b);
  }

  lemma ShiftedOut(x: nat, shift: nat, width: nat)
    requires x < Pow2(width) && width <= shift * 33
    ensures Shr(x, shift * 33) == 0
  {
    hide Pow2, Shr;
    ShrOfSmall(x, width);
    ShrTwice(x, width, shift * 33 - width);
    ShrOfSmall(0, shift * 33 - width);
  }

  /** On words of the given width, 32 iterations invert the xor with a shifted copy, from either side. */
  lemma {:induction false} UndoIsInverse(x: nat, shift: nat, width: nat)
    requires x < Pow2(width) && width <= shift * 33
    ensures UndoXorShift(Xor(x, Shr(x, shift)), shift, 32) == x
    ensures var u := UndoXorShift(x, shift, 32); Xor(u, Shr(u, shift)) == x
  {
    hide Xor, Shr, UndoXorShift, Pow2;
    ShiftedOut(x, shift, width);
    IterationError(x, shift, 32);
    XorIsZero(UndoXorShift(Xor(x, Shr(x, shift)), shift, 32), x);
    var u := UndoXorShift(x, shift, 32);
    IterationStep(x, shift, 32);
    XorIsZero(UndoXorShift(x, shift, 33), u);
    UndoStep(x, shift);
    XorCancels(x, Shr(u, shift));
  }

  lemma {:induction false} XorShiftInverse(x: Word, shift: nat)
    requires shift >= 1
    ensures UndoXorShift(Xor(x, Shr(x, shift)), shift, 32) == x
    ensures var u := UndoXorShift(x, shift, 32); Xor(u, Shr(u, shift)) == x
  {
    hide Xor, Shr, UndoXorShift, Pow2;
    WordSizes();
    UndoIsInverse(x, shift, 32);
  }

  lemma UndoStep(y: nat, shift: nat)
    ensures UndoXorShift(y, shift, 33) == Xor(y, Shr(UndoXorShift(y, shift, 32), shift))
  {
    hide Xor, Shr;
  }

  lemma {:induction false} UndoIsBounded(y: nat, shift: nat, rounds: nat, width: nat)
    requires y < Pow2(width)
    ensures UndoXorShift(y, shift, rounds) < Pow2(width)
    decreases rounds
  {
    hide Xor, Shr, Pow2;
    if rounds != 0 {
      UndoIsBounded(y, shift, rounds - 1, width);
      ShrShrinks(UndoXorShift(y, shift, rounds - 1), shift);
      XorBound(y, Shr(UndoXorShift(y, shift, rounds - 1), shift), width);
    }
  }

  lemma {:induction false} UndoIsWord(y: Word, shift: nat, rounds: nat)
    ensures UndoXorShift(y, shift, rounds) < M32
  {
    hide UndoXorShift, Pow2;
    WordSizes();
    UndoIsBounded(y, shift, rounds, 32);
  }

  // ---- straight-line programs over words ----------------------------------------------------

  datatype Op =
    | Add(k: int)
    | SubtractFrom(k: int)
    | Multiply(m: int)
    | Rotate(c: nat)
    | XorWith(w: Word)
    | XorShifted(shift: nat)

  predicate Invertible(op: Op) {
    match op
    case Multiply(m) => m % 2 == 1
    case Rotate(c) => 0 < c < 32
    case XorShifted(shift) => shift >= 1
    case _ => true
  }

  function XorWord(a: Word, b: Word): Word {
    WordXor(a, b);
    Xor(a, b)
  }

  function ShrWord(a: Word, n: nat): Word {
    ShrShrinks(a, n);
    Shr(a, n)
  }

  function Apply(op: Op, v: Word): Word {
    match op
    case Add(k) => Wrap(v + k)
    case SubtractFrom(k) => Wrap(k - v)
    case Multiply(m) => Wrap(v * m)
    case Rotate(c) => Rol32(v, c)
    case XorWith(w) => XorWord(v, w)
    case XorShifted(shift) => XorWord(v, ShrWord(v, shift))
  }

  function Unapply(op: Op, v: Word): Word {
    match op
    case Add(k) => Wrap(v - k)
    case SubtractFrom(k) => Wrap(k - v)
    case Multiply(m) => Wrap(v * InverseMod(m, 32))
    case Rotate(c) => if c <= 32 then Rol32(v, 32 - c) else v
    case XorWith(w) => XorWord(v, w)
    case XorShifted(shift) => UndoIsWord(v, shift, 32); UndoXorShift(v, shift, 32)
  }

  lemma WrapShift(v: Word, k: int)
    ensures Wrap(Wrap(v + k) - k) == v
  {}

  lemma WrapMirror(v: Word, k: int)
    ensures Wrap(k - Wrap(k - v)) == v
  {}

  lemma {:induction false} OpIsBijective(op: Op, v: Word)
    requires Invertible(op)
    ensures Unapply(op, Apply(op, v)) == v
    ensures Apply(op, Unapply(op, v)) == v
  {
    hide Rol32, Xor, Shr, UndoXorShift, InverseMod, Wrap;
    match op {
      case Add(k) => WrapShift(v, k); WrapShift(v, -k);
      case SubtractFrom(k) => WrapMirror(v, k);
      case Multiply(m) => MultiplyIsBijective(m, v);
      case Rotate(c) =>
        RolInverse(v, c);
        RolInverse(v, 32 - c);
      case XorWith(w) => XorCancels(v, w);
      case XorShifted(shift) => XorShiftInverse(v, shift);
    }
  }

  lemma {:induction false} MultiplyIsBijective(m: int, v: Word)
    requires m % 2 == 1
    ensures Wrap(Wrap(v * m) * InverseMod(m, 32)) == v
    ensures Wrap(Wrap(v * InverseMod(m, 32)) * m) == v
  {
    hide Pow2, InverseMod;
    WordSizes();
    InverseModIs(m, 32);
    InverseIsSymmetric(m, InverseMod(m, 32), M32);
    InverseUndoes(v, m, InverseMod(m, 32), M32);
    InverseUndoes(v, InverseMod(m, 32), m, M32);
  }

  function Execute(ops: seq<Op>, v: Word): Word {
    if ops == [] then v else Execute(ops[1..], Apply(ops[0], v))
  }

  function Rewind(ops: seq<Op>, v: Word): Word {
    if ops == [] then v else Unapply(ops[0], Rewind(ops[1..], v))
  }

  /** A program of invertible steps is a bijection on words, and rewinding it is the inverse. */
  lemma {:induction false} ProgramIsBijective(ops: seq<Op>, v: Word)
    requires forall op | op in ops :: Invertible(op)
    ensures Rewind(ops, Execute(ops, v)) == v
    ensures Execute(ops, Rewind(ops, v)) == v
    decreases |ops|
  {
    hide Apply, Unapply, Invertible;
    if ops != [] {
      assert ops[0] in ops && Invertible(ops[0]);
      OpIsBijective(ops[0], v);
      OpIsBijective(ops[0], Rewind(ops[1..], v));
      ProgramIsBijective(ops[1..], v);
      ProgramIsBijective(ops[1..], Apply(ops[0], v));
    }
  }

  lemma {:induction false} ExecuteConcat(a: seq<Op>, b: seq<Op>, v: Word)
    ensures Execute(a + b, v) == Execute(b, Execute(a, v))
    decreases |a|
  {
    hide Apply;
    if a == [] {
      assert a + b == b;
    } else {
      assert (a + b)[1..] == a[1..] + b && (a + b)[0] == a[0];
      ExecuteConcat(a[1..], b, Apply(a[0], v));
    }
  }

  // ---- XXH32 (xxHash fast digest algorithm, section "XXH32 Algorithm Description") ---------------

  datatype Lanes = Lanes(v1: Word, v2: Word, v3: Word, v4: Word)

  function Round(accumulator: Word, lane: nat): Word {
    Wrap(Rol32(Wrap(accumulator + lane * P2), 13) * P1)
  }

  /** One 16-byte stripe feeds its four words to the four accumulators. */
  function Stripe(l: Lanes, stripe: Octets): Lanes
    requires |stripe| == 16
  {
    Lanes(Round(l.v1, FromLe(stripe[..4])), Round(l.v2, FromLe(stripe[4..8])),
          Round(l.v3, FromLe(stripe[8..12])), Round(l.v4, FromLe(stripe[12..16])))
  }

  /** The accumulators after every whole stripe, and the bytes left over. */
  datatype Striped = Striped(lanes: Lanes, rest: Octets)

  function Stripes(l: Lanes, data: Octets): Striped
    decreases |data|
  {
    if |data| < 16 then Striped(l, data) else Stripes(Stripe(l, data[..16]), data[16..])
  }

  function Start(seed: int): Lanes {
    Lanes(Wrap(seed + P1 + P2), Wrap(seed + P2), Wrap(seed), Wrap(seed - P1))
  }

  function Converge(l: Lanes): Word {
    Wrap(Rol32(l.v1, 1) + Rol32(l.v2, 7) + Rol32(l.v3, 12) + Rol32(l.v4, 18))
  }

  function WordStep(result: Word, lane: nat): Word {
    Wrap(Rol32(Wrap(result + lane * P3), 17) * P4)
  }

  function ByteStep(result: Word, byte: Byte): Word {
    Wrap(Rol32(Wrap(result + byte * P5), 11) * P1)
  }

  /** Fewer than 16 bytes: whole words first, then single bytes. */
  function Remainder(result: Word, data: Octets): Word
    decreases |data|
  {
    if |data| >= 4 then Remainder(WordStep(result, FromLe(data[..4])), data[4..])
    else if |data| > 0 then Remainder(ByteStep(result, data[0]), data[1..])
    else result
  }

  function AvalanchePlan(): seq<Op> {
    [XorShifted(15), Multiply(P2), XorShifted(13), Multiply(P3), XorShifted(16)]
  }

  function Avalanche(v: Word): Word {
    Execute(AvalanchePlan(), v)
  }

  function XxHash32(data: Octets, seed: int): Word {
    var striped := if |data| >= 16 then Stripes(Start(seed), data) else Striped(Start(seed), data);
    var gathered := if |data| >= 16 then Converge(striped.lanes) else Wrap(seed + P5);
    Avalanche(Remainder(Wrap(gathered + |data|), striped.rest))
  }

  /** The avalanche loses nothing: it is a bijection on words. */
  lemma {:induction false} AvalancheIsBijective(v: Word)
    ensures Rewind(AvalanchePlan(), Avalanche(v)) == v
    ensures Avalanche(Rewind(AvalanchePlan(), v)) == v
  {
    hide Execute, Rewind;
    ProgramIsBijective(AvalanchePlan(), v);
  }

  lemma {:induction false} StripesConsume(l: Lanes, data: Octets)
    ensures Stripes(l, data).rest == data[|data| / 16 * 16..]
    decreases |data|
  {
    hide Stripe;
    if |data| >= 16 {
      StripesConsume(Stripe(l, data[..16]), data[16..]);
    }
  }

  /** Appending whole stripes first: every byte is read once and in order. */
  lemma {:induction false} StripesOfConcat(l: Lanes, a: Octets, b: Octets)
    requires |a| % 16 == 0
    ensures Stripes(l, a + b) == Stripes(Stripes(l, a).lanes, b)
    decreases |a|
  {
    hide Stripe;
    if a == [] {
      assert a + b == b;
    } else {
      assert (a + b)[..16] == a[..16] && (a + b)[16..] == a[16..] + b;
      StripesOfConcat(Stripe(l, a[..16]), a[16..], b);
    }
  }

  method HashStripes(data: Octets, seed: int) returns (offset: nat, lanes: Lanes)
    requires |data| >= 16
    ensures offset <= |data| && |data| - offset < 16
    ensures Stripes(Start(seed), data) == Striped(lanes, data[offset..])
  {
    hide Rol32, FromLe, Round, Wrap;
    var v1, v2, v3, v4 := Wrap(seed + P1 + P2), Wrap(seed + P2), Wrap(seed), Wrap(seed - P1);
    offset := 0;
    assert data[0..] == data;
    while offset <= |data| - 16
      invariant 0 <= offset <= |data|
      invariant Stripes(Lanes(v1, v2, v3, v4), data[offset..]) == Stripes(Start(seed), data)
      decreases |data| - offset
    {
      ghost var stripe := data[offset..][..16];
      assert data[offset..][16..] == data[offset + 16..];
      assert data[offset..offset + 4] == stripe[..4] && data[offset + 4..offset + 8] == stripe[4..8];
      assert data[offset + 8..offset + 12] == stripe[8..12] && data[offset + 12..offset + 16] == stripe[12..16];
      v1 := Round(v1, FromLe(data[offset..offset + 4]));
      v2 := Round(v2, FromLe(data[offset + 4..offset + 8]));
      v3 := Round(v3, FromLe(data[offset + 8..offset + 12]));
      v4 := Round(v4, FromLe(data[offset + 12..offset + 16]));
      offset := offset + 16;
    }
    lanes := Lanes(v1, v2, v3, v4);
  }

  method HashRemainder(data: Octets, start: nat, initial: Word) returns (result: Word)
    requires start <= |data|
    ensures result == Remainder(initial, data[start..])
  {
    hide Rol32, FromLe, WordStep, ByteStep;
    result := initial;
    var offset := start;
    while offset <= |data| - 4
      invariant start <= offset <= |data|
      invariant Remainder(result, data[offset..]) == Remainder(initial, data[start..])
      decreases |data| - offset
    {
      assert data[offset..][..4] == data[offset..offset + 4] && data[offset..][4..] == data[offset + 4..];
      result := WordStep(result, FromLe(data[offset..offset + 4]));
      offset := offset + 4;
    }
    while offset < |data|
      invariant start <= offset <= |data| && |data| - offset < 4
      invariant Remainder(result, data[offset..]) == Remainder(initial, data[start..])
    {
      assert data[offset..][0] == data[offset] && data[offset..][1..] == data[offset + 1..];
      result := ByteStep(result, data[offset]);
      offset := offset + 1;
    }
  }

  method XxHash32Loops(data: Octets, seed: int := 0) returns (digest: Word)
    ensures digest == XxHash32(data, seed)
  {
    hide Rol32, Stripes, Remainder, Converge, Start, XorWord, ShrWord;
    var offset: nat, result: Word := 0, 0;
    if |data| >= 16 {
      var lanes;
      offset, lanes := HashStripes(data, seed);
      result := Converge(lanes);
    } else {
      result := Wrap(seed + P5);
      assert data[0..] == data;
    }
    result := Wrap(result + |data|);
    result := HashRemainder(data, offset, result);
    ghost var gathered := result;
    result := XorWord(result, ShrWord(result, 15));
    result := Wrap(result * P2);
    result := XorWord(result, ShrWord(result, 13));
    result := Wrap(result * P3);
    AvalancheUnrolled(gathered);
    digest := XorWord(result, ShrWord(result, 16));
  }

  lemma AvalancheUnrolled(v: Word)
    ensures Avalanche(v)
         == Apply(XorShifted(16),
                  Apply(Multiply(P3), Apply(XorShifted(13), Apply(Multiply(P2), Apply(XorShifted(15), v)))))
  {
    hide Apply;
    var first := [XorShifted(15), Multiply(P2), XorShifted(13), Multiply(P3)];
    assert AvalanchePlan() == first + [XorShifted(16)];
    Execute4(XorShifted(15), Multiply(P2), XorShifted(13), Multiply(P3), v);
    ExecuteConcat(first, [XorShifted(16)], v);
    Execute1(XorShifted(16), Execute(first, v));
  }

  // ---- the mixer -----------------------------------------------------------------------------

  const FIXED: Word := 0x557B_B5D7
  const INVERSE: Word := 0xAA84_4A29

  /** The switches of the mixer: the bits of the control word, lowest first. */
  type Switches = s: seq<bool> | |s| == 16 witness seq(16, _ => false)

  function Control(key: Word): Word {
    Wrap(key * 0xF7AB_BB9C)
  }

  function SwitchesOf(key: Word): Switches {
    seq(16, i requires 0 <= i < 16 => Shr(Control(key), i) % 2 == 1)
  }

  function Signed(positive: bool, key: Word): int {
    if positive then key as int else -(key as int)
  }

  function Choose(on: bool, a: Word, b: Word): Word {
    if on then a else b
  }

  function Turn(on: bool, a: nat, b: nat): nat {
    if on then a else b
  }

  /** mix_ticket_hash, statement by statement, for given switches. */
  function MixWith(digest: int, key: Word, s: Switches): Word {
    var value := Rol32(Wrap(digest + FIXED), 25);
    var value := Wrap(value + if !s[2] then INVERSE as int else -(key as int));
    var value := Wrap(value * Choose(!s[3], FIXED, key));
    var value := Rol32(value, Turn(!s[4], 19, 13));
    var middle := Wrap(Choose(!s[5], FIXED, key) - value);
    var middle := XorWord(middle, Choose(!s[6], FIXED, key));
    var middle := Rol32(middle, 15 + 2 * Turn(s[7], 1, 0));
    var result := Signed(s[8], key);
    var result := Wrap(result + Choose(s[9], FIXED, INVERSE) + middle);
    var result := Rol32(result, Turn(s[10], 23, 9));
    var result := Wrap(Signed(!s[11], result));
    var result := Wrap(result + key);
    var result := Wrap(Signed(!s[12], result));
    var result := Rol32(Wrap(result + FIXED), Turn(s[13], 29, 3));
    var result := XorWord(result, Choose(s[14], key, FIXED));
    Wrap(Signed(s[15], result))
  }

  function MixTicketHash(digest: int, platformKey: int): Word {
    MixWith(digest, Wrap(platformKey), SwitchesOf(Wrap(platformKey)))
  }

  function Negate(when: bool): Op {
    if when then SubtractFrom(0) else Add(0)
  }

  function BeforeFactor(key: Word, s: Switches): seq<Op> {
    [Add(FIXED), Rotate(25), Add(if !s[2] then INVERSE as int else -(key as int))]
  }

  function AfterFactor(key: Word, s: Switches): seq<Op> {
    [Rotate(Turn(!s[4], 19, 13)),
     SubtractFrom(Choose(!s[5], FIXED, key)),
     XorWith(Choose(!s[6], FIXED, key)),
     Rotate(15 + 2 * Turn(s[7], 1, 0)),
     Add(Signed(s[8], key) + Choose(s[9], FIXED, INVERSE)),
     Rotate(Turn(s[10], 23, 9)),
     Negate(s[11]),
     Add(key),
     Negate(s[12]),
     Add(FIXED),
     Rotate(Turn(s[13], 29, 3)),
     XorWith(Choose(s[14], key, FIXED)),
     Negate(!s[15])]
  }

  /** The same computation as a program of steps on words. */
  function MixPlan(key: Word, s: Switches): seq<Op> {
    BeforeFactor(key, s) + ([Multiply(Choose(!s[3], FIXED, key))] + AfterFactor(key, s))
  }

  lemma Execute1(op: Op, v: Word)
    ensures Execute([op], v) == Apply(op, v)
  {
    hide Apply;
    assert [op][1..] == [];
  }

  lemma Execute2(a: Op, b: Op, v: Word)
    ensures Execute([a, b], v) == Apply(b, Apply(a, v))
  {
    hide Apply;
    assert [a, b][1..] == [b];
    Execute1(b, Apply(a, v));
  }

  lemma Execute4(a: Op, b: Op, c: Op, d: Op, v: Word)
    ensures Execute([a, b, c, d], v) == Apply(d, Apply(c, Apply(b, Apply(a, v))))
  {
    hide Apply;
    Execute2(a, b, v);
    Execute2(c, d, Apply(b, Apply(a, v)));
    ExecuteConcat([a, b], [c, d], v);
    assert [a, b] + [c, d] == [a, b, c, d];
  }

  lemma ApplyNegate(when: bool, v: Word)
    ensures Apply(Negate(when), v) == Wrap(Signed(!when, v))
  {}

  function BeforeValue(digest: int, key: Word, s: Switches): Word {
    var value := Rol32(Wrap(digest + FIXED), 25);
    Wrap(value + if !s[2] then INVERSE as int else -(key as int))
  }

  lemma WrapTwice(v: int, k: int)
    ensures Wrap(Wrap(v) + k) == Wrap(v + k)
  {
    var q := v / M32;
    assert v + k == M32 * q + (Wrap(v) + k);
    WrapShifted(Wrap(v) + k, q);
  }

  lemma WrapShifted(x: int, q: int)
    ensures Wrap(M32 * q + x) == Wrap(x)
  {}

  lemma {:induction false} BeforeFactorRuns(digest: int, key: Word, s: Switches)
    ensures Execute(BeforeFactor(key, s), Wrap(digest)) == BeforeValue(digest, key, s)
  {
    hide Rol32, Execute, Wrap;
    var last := Add(if !s[2] then INVERSE as int else -(key as int));
    assert BeforeFactor(key, s) == [Add(FIXED), Rotate(25)] + [last];
    WrapTwice(digest, FIXED);
    ExecuteConcat([Add(FIXED), Rotate(25)], [last], Wrap(digest));
    Execute2(Add(FIXED), Rotate(25), Wrap(digest));
    Execute1(last, Rol32(Wrap(digest + FIXED), 25));
  }

  /** The three quarters of the mixer behind the multiplication. */
  function Quarter2(value: Word, key: Word, s: Switches): Word {
    var value := Rol32(value, Turn(!s[4], 19, 13));
    var middle := Wrap(Choose(!s[5], FIXED, key) - value);
    var middle := XorWord(middle, Choose(!s[6], FIXED, key));
    Rol32(middle, 15 + 2 * Turn(s[7], 1, 0))
  }

  function Quarter3(middle: Word, key: Word, s: Switches): Word {
    var result := Signed(s[8], key);
    var result := Wrap(result + Choose(s[9], FIXED, INVERSE) + middle);
    var result := Rol32(result, Turn(s[10], 23, 9));
    var result := Wrap(Signed(!s[11], result));
    Wrap(result + key)
  }

  function Quarter4(result: Word, key: Word, s: Switches): Word {
    var result := Wrap(Signed(!s[12], result));
    var result := Rol32(Wrap(result + FIXED), Turn(s[13], 29, 3));
    XorWord(result, Choose(s[14], key, FIXED))
  }

  lemma {:induction false} Quarter2Runs(value: Word, key: Word, s: Switches)
    ensures Execute(AfterFactor(key, s)[..4], value) == Quarter2(value, key, s)
  {
    hide Rol32, Execute, XorWord;
    var (a, b, c, d) := (Rotate(Turn(!s[4], 19, 13)), SubtractFrom(Choose(!s[5], FIXED, key)),
                         XorWith(Choose(!s[6], FIXED, key)), Rotate(15 + 2 * Turn(s[7], 1, 0)));
    assert AfterFactor(key, s)[..4] == [a, b, c, d];
    Execute4(a, b, c, d, value);
  }

  lemma {:induction false} Quarter3Runs(middle: Word, key: Word, s: Switches)
    ensures Execute(AfterFactor(key, s)[4..8], middle) == Quarter3(middle, key, s)
  {
    hide Rol32, Execute, XorWord, Negate;
    var (a, b, c, d) := (Add(Signed(s[8], key) + Choose(s[9], FIXED, INVERSE)), Rotate(Turn(s[10], 23, 9)),
                         Negate(s[11]), Add(key));
    assert AfterFactor(key, s)[4..8] == [a, b, c, d];
    Execute4(a, b, c, d, middle);
    ApplyNegate(s[11], Apply(b, Apply(a, middle)));
  }

  lemma {:induction false} Quarter4Runs(result: Word, key: Word, s: Switches)
    ensures Execute(AfterFactor(key, s)[8..12], result) == Quarter4(result, key, s)
  {
    hide Rol32, Execute, XorWord, Negate;
    var (a, b, c, d) := (Negate(s[12]), Add(FIXED), Rotate(Turn(s[13], 29, 3)), XorWith(Choose(s[14], key, FIXED)));
    assert AfterFactor(key, s)[8..12] == [a, b, c, d];
    Execute4(a, b, c, d, result);
    ApplyNegate(s[12], result);
  }

  lemma {:induction false} AfterFactorRuns(value: Word, key: Word, s: Switches)
    ensures Execute(AfterFactor(key, s), value)
         == Wrap(Signed(s[15], Quarter4(Quarter3(Quarter2(value, key, s), key, s), key, s)))
  {
    hide Execute, Quarter2, Quarter3, Quarter4, Apply, Negate, Choose, Turn, Signed;
    var plan := AfterFactor(key, s);
    var (v2, v3, v4) := (Quarter2(value, key, s), Quarter3(Quarter2(value, key, s), key, s),
                         Quarter4(Quarter3(Quarter2(value, key, s), key, s), key, s));
    assert plan == plan[..4] + (plan[4..8] + (plan[8..12] + [Negate(!s[15])]));
    ExecuteConcat(plan[..4], plan[4..8] + (plan[8..12] + [Negate(!s[15])]), value);
    ExecuteConcat(plan[4..8], plan[8..12] + [Negate(!s[15])], v2);
    ExecuteConcat(plan[8..12], [Negate(!s[15])], v3);
    Quarter2Runs(value, key, s);
    Quarter3Runs(v2, key, s);
    Quarter4Runs(v3, key, s);
    Execute1(Negate(!s[15]), v4);
    ApplyNegate(!s[15], v4);
  }

  /** The straight-line mixer and the program of steps compute the same word, for every setting of the switches. */
  lemma {:induction false} MixerFollowsPlan(digest: int, key: Word, s: Switches)
    ensures MixWith(digest, key, s) == Execute(MixPlan(key, s), Wrap(digest))
  {
    hide Rol32, Execute, XorWord, AfterFactor, BeforeFactor, Choose, Turn, Signed;
    var factor := Multiply(Choose(!s[3], FIXED, key));
    var value := BeforeValue(digest, key, s);
    ExecuteConcat(BeforeFactor(key, s), [factor] + AfterFactor(key, s), Wrap(digest));
    BeforeFactorRuns(digest, key, s);
    ExecuteConcat([factor], AfterFactor(key, s), value);
    Execute1(factor, value);
    AfterFactorRuns(Apply(factor, value), key, s);
  }

  lemma PlanIsInvertible(key: Word, s: Switches)
    ensures forall op | op in BeforeFactor(key, s) :: Invertible(op)
    ensures forall op | op in AfterFactor(key, s) :: Invertible(op)
    ensures Choose(!s[3], FIXED, key) % 2 == 1 ==> forall op | op in MixPlan(key, s) :: Invertible(op)
  {
    assert forall i | 0 <= i < 3 :: Invertible(BeforeFactor(key, s)[i]);
    assert forall i | 0 <= i < 13 :: Invertible(AfterFactor(key, s)[i]);
  }

  lemma LowBitsOfWrap(x: nat, u: nat, k: nat)
    requires x == 16 * u + k
    ensures Wrap(x) % 16 == k % 16
  {
    var q := x / M32;
    assert Wrap(x) == k + 16 * (u - 0x1000_0000 * q);
    AddMultiple(k, u - 0x1000_0000 * q);
  }

  lemma AddMultiple(k: int, z: int)
    ensures (k + 16 * z) % 16 == k % 16
  {}

  lemma ControlLowBits(key: Word)
    ensures Control(key) % 16 == (key * 12) % 16
  {
    hide Wrap;
    LowBitsOfWrap(key * 0xF7AB_BB9C, key * 0xF7A_BBB9, key * 12);
  }

  lemma ThirdBit(c: nat)
    ensures Shr(c, 3) % 2 == c % 16 / 8
  {
    ShrByThree(c);
    var (q, r) := (c / 16, c % 16);
    EighthOf(q, r);
  }

  lemma ShrByThree(c: nat)
    ensures Shr(c, 3) == c / 8
  {
    assert Pow2(3) == 8;
  }

  lemma EighthOf(q: nat, r: nat)
    requires r < 16
    ensures (16 * q + r) / 8 == 2 * q + r / 8
    ensures (2 * q + r / 8) % 2 == r / 8
  {}

  lemma TwelveTimes(key: Word)
    ensures (key * 12) % 16 / 8 == 1 <==> key % 4 == 1 || key % 4 == 2
  {
    var q, r := key / 4, key % 4;
    assert key * 12 == 16 * (3 * q) + 12 * r;
  }

  /** Bit 3 of the control word selects an even factor exactly for the keys that leave 2 modulo 4. */
  lemma FactorIsOdd(key: Word)
    ensures Choose(!SwitchesOf(key)[3], FIXED, key) % 2 == 1 <==> key % 4 != 2
  {
    hide Control, Shr;
    ControlLowBits(key);
    ThirdBit(Control(key));
    TwelveTimes(key);
    EvenKey(key);
    FixedIsOdd();
    assert SwitchesOf(key)[3] == (Shr(Control(key), 3) % 2 == 1);
  }

  lemma EvenKey(key: int)
    ensures key % 2 == 1 <==> key % 4 == 1 || key % 4 == 3
  {
    var (q, r) := (key / 4, key % 4);
    assert key == 2 * (2 * q) + r;
  }

  lemma FixedIsOdd()
    ensures FIXED % 2 == 1
  {}

  /** With an odd factor the mixer can be rewound from every word: it is a bijection of the digest. */
  lemma {:induction false} OddFactorBijection(digest: Word, key: Word)
    requires key % 4 != 2
    ensures var plan := MixPlan(key, SwitchesOf(key));
            && Rewind(plan, MixTicketHash(digest, key)) == digest
            && MixTicketHash(Rewind(plan, digest), key) == digest
  {
    hide MixPlan, Execute, Rewind, MixWith, SwitchesOf, Control;
    var s := SwitchesOf(key);
    FactorIsOdd(key);
    PlanIsInvertible(key, s);
    ProgramIsBijective(MixPlan(key, s), digest);
    MixerFollowsPlan(digest, key, s);
    MixerFollowsPlan(Rewind(MixPlan(key, s), digest), key, s);
  }

  /** With an even factor two digests meet: those whose values at the multiplication differ in bit 31 only. */
  lemma {:induction false} EvenFactorCollision(key: Word) returns (a: Word, b: Word)
    requires key % 4 == 2
    ensures a != b && MixTicketHash(a, key) == MixTicketHash(b, key)
  {
    hide Execute, Rewind, MixWith, SwitchesOf, Control, BeforeFactor, AfterFactor;
    var s := SwitchesOf(key);
    var factor := Multiply(Choose(!s[3], FIXED, key));
    FactorIsOdd(key);
    PlanIsInvertible(key, s);
    a, b := Rewind(BeforeFactor(key, s), 0), Rewind(BeforeFactor(key, s), 0x8000_0000);
    ProgramIsBijective(BeforeFactor(key, s), 0);
    ProgramIsBijective(BeforeFactor(key, s), 0x8000_0000);
    TopBitVanishes(Choose(!s[3], FIXED, key));
    Execute1(factor, 0);
    Execute1(factor, 0x8000_0000);
    MixedFrom(a, 0, key, s);
    MixedFrom(b, 0x8000_0000, key, s);
  }

  lemma TopBitVanishes(m: Word)
    requires m % 2 == 0
    ensures Wrap(0x8000_0000 * m) == 0
  {}

  lemma MixedFrom(digest: Word, value: Word, key: Word, s: Switches)
    requires Execute(BeforeFactor(key, s), digest) == value
    ensures MixWith(digest, key, s)
         == Execute(AfterFactor(key, s), Execute([Multiply(Choose(!s[3], FIXED, key))], value))
  {
    hide Execute, MixWith, BeforeFactor, AfterFactor, Choose;
    var factor := Multiply(Choose(!s[3], FIXED, key));
    MixerFollowsPlan(digest, key, s);
    ExecuteConcat(BeforeFactor(key, s), [factor] + AfterFactor(key, s), digest);
    ExecuteConcat([factor], AfterFactor(key, s), value);
  }

  ghost predicate Injective(key: Word) {
    forall a: Word, b: Word :: MixTicketHash(a, key) == MixTicketHash(b, key) ==> a == b
  }

  /** For every platform key: the mixer loses nothing of the digest exactly when the key does not leave 2 modulo 4. */
  lemma {:induction false} MixerIsInjectiveExactly(key: Word)
    ensures Injective(key) <==> key % 4 != 2
  {
    hide MixTicketHash, Rewind, MixPlan, SwitchesOf;
    if key % 4 == 2 {
      var a, b := EvenFactorCollision(key);
    } else {
      forall a: Word, b: Word | MixTicketHash(a, key) == MixTicketHash(b, key) ensures a == b {
        OddFactorBijection(a, key);
        OddFactorBijection(b, key);
      }
    }
  }

  /** generate_ticket_hash. */
  function GenerateTicketHash(ticket: Octets, platformKey: int): Word {
    MixTicketHash(XxHash32(ticket, 1), platformKey)
  }

  lemma KeyIsCut(platformKey: int)
    ensures var key := Wrap(platformKey); Wrap(key) == key && key % 4 == platformKey % 4
  {
    var q := platformKey / M32;
    assert platformKey == 4 * (0x4000_0000 * q) + Wrap(platformKey);
  }

  /** Under the keys whose multiplier is odd, ticket hashes collide only where the XXH32 digests do. */
  lemma {:induction false} TicketHashKeepsDigests(a: Octets, b: Octets, platformKey: int)
    requires platformKey % 4 != 2
    ensures GenerateTicketHash(a, platformKey) == GenerateTicketHash(b, platformKey)
       <==> XxHash32(a, 1) == XxHash32(b, 1)
  {
    hide XxHash32, MixWith, SwitchesOf, MixPlan, Rewind, Wrap;
    var key := Wrap(platformKey);
    KeyIsCut(platformKey);
    OddFactorBijection(XxHash32(a, 1), key);
    OddFactorBijection(XxHash32(b, 1), key);
  }
}
