/** Pcg32: the generator behind Random.new, its seeding and its bounded integers. */
module Pcg {
  import opened Results
  import opened Bytes
  import opened Bits
  import opened Modular
  import opened TicketHash

  const MULTIPLIER := 0x5851_F42D_4C95_7F2D
  const INCREMENT := 0x69
  const SEED_OFFSET := (INCREMENT * (MULTIPLIER + 1)) % M64

  /** The reference generator's linear congruential step. */
  function LcgStep(state: Word64): Word64 {
    (state * MULTIPLIER + INCREMENT) % M64
  }

  function Seeded(seed: int): Word64 {
    (seed % M64 * MULTIPLIER + SEED_OFFSET) % M64
  }

  /** The permuted output of a state: xorshift high, then a rotation by the top five bits. */
  function Output(state: Word64): nat {
    var value := Shr(Xor(Shr(state, 18), state), 27) % M32;
    var rotation: int := Shr(state, 59);
    Or(Shr(value, rotation), Shl(value, (-rotation) % 32)) % M32
  }

  function StateAfter(seed: int, n: nat): Word64 {
    if n == 0 then Seeded(seed) else LcgStep(StateAfter(seed, n - 1))
  }

  lemma CongruentSum(a: int, b: int, c: int)
    ensures ((a % M64) + b + c) % M64 == (a + b + c) % M64
  {}

  /** Seeding is the reference procedure: step from zero, add the seed, step again. */
  lemma {:induction false} SeedingIsReference(seed: int)
    ensures Seeded(seed) == LcgStep((LcgStep(0) + seed) % M64)
  {
    var s := seed % M64;
    var x := INCREMENT + s;
    assert (LcgStep(0) + seed) % M64 == x % M64 by {
      CongruentSum(seed, INCREMENT, 0);
      CongruentSum(0, INCREMENT, seed);
    }
    assert x % M64 * MULTIPLIER + INCREMENT
        == s * MULTIPLIER + INCREMENT * (MULTIPLIER + 1) - x / M64 * M64 * MULTIPLIER;
    CongruentProduct(s * MULTIPLIER + INCREMENT * (MULTIPLIER + 1), x / M64 * MULTIPLIER);
    CongruentSum(INCREMENT * (MULTIPLIER + 1), s * MULTIPLIER, 0);
  }

  lemma CongruentProduct(a: int, z: int)
    ensures (a - z * M64) % M64 == a % M64
  {}

  lemma {:induction false} AffineIsInjective(a: Word64, b: Word64, offset: int)
    requires (a * MULTIPLIER + offset) % M64 == (b * MULTIPLIER + offset) % M64
    ensures a == b
  {
    DropOffset(a * MULTIPLIER, b * MULTIPLIER, offset);
    CancelMultiplier(a, b);
  }

  lemma CancelMultiplier(a: Word64, b: Word64)
    requires (a * MULTIPLIER) % M64 == (b * MULTIPLIER) % M64
    ensures a == b
  {
    hide Pow2;
    WordSizes();
    OddCancels(a, b, MULTIPLIER, 64);
  }

  /** A step loses nothing of the state. */
  lemma {:induction false} StepIsInjective(a: Word64, b: Word64)
    requires LcgStep(a) == LcgStep(b)
    ensures a == b
  {
    AffineIsInjective(a, b, INCREMENT);
  }

  lemma DropOffset(x: int, y: int, c: int)
    requires (x + c) % M64 == (y + c) % M64
    ensures x % M64 == y % M64
  {
    CongruentSum(x + c, -c, 0);
    CongruentSum(y + c, -c, 0);
  }

  lemma {:induction false} SeedingIsInjective(a: int, b: int)
    requires Seeded(a) == Seeded(b)
    ensures a % M64 == b % M64
  {
    AffineIsInjective(a % M64, b % M64, SEED_OFFSET);
  }

  /** Two seeds reach the same state after the same number of steps only if they agree modulo 2^64. */
  lemma {:induction false} SeedsStayApart(a: int, b: int, n: nat)
    ensures StateAfter(a, n) == StateAfter(b, n) <==> a % M64 == b % M64
  {
    hide LcgStep, Seeded;
    if n == 0 {
      if Seeded(a) == Seeded(b) { SeedingIsInjective(a, b); }
      SeedModulo(a, b);
    } else {
      SeedsStayApart(a, b, n - 1);
      if StateAfter(a, n) == StateAfter(b, n) { StepIsInjective(StateAfter(a, n - 1), StateAfter(b, n - 1)); }
    }
  }

  lemma SeedModulo(a: int, b: int)
    ensures a % M64 == b % M64 ==> Seeded(a) == Seeded(b)
  {}

  // ---- the output function ----------------------------------------------------------------

  /** The state, xored with a shifted copy of itself. */
  function Mixed(state: Word64): nat {
    Xor(Shr(state, 18), state)
  }

  /** The low r bits. */
  function Below(v: nat, r: nat): nat {
    v % Pow2(r)
  }

  /** A rotation to the right: the low r bits of a 32-bit word change places with the others. */
  function RotateRight(v: Word, r: nat): nat
    requires r <= 32
  {
    Shl(Below(v, r), 32 - r) + Shr(v, r)
  }

  lemma PowFacts()
    ensures Pow2(0) == 1 && Pow2(32) == M32 && Pow2(64) == M64 && Pow2(5) == 32
    ensures Pow2(59) == M32 * Pow2(27) && M64 == 32 * Pow2(59)
  {
    hide Pow2;
    PowNone();
    WordSizes();
    PowFive();
    PowSum(32, 27);
    PowSum(5, 59);
  }

  lemma PowFive()
    ensures Pow2(5) == 32
  {
    assert Pow2(2) == 4;
    assert Pow2(4) == 16;
  }

  lemma QuotientIs(a: nat, n: nat)
    ensures Shr(a, n) == a / Pow2(n)
  {
    hide Pow2;
  }

  lemma OrRotatesNone(v: Word)
    ensures Or(Shr(v, 0), Shl(v, 0)) % M32 == RotateRight(v, 0)
  {
    hide Or, Shl, Shr, Pow2;
    PowFacts();
    QuotientIs(v, 0);
    ShlIs(v, 0);
    ShlIs(0, 32);
    OrSelf(v);
  }

  lemma RotateParts(v: Word, r: nat)
    requires r <= 32
    ensures v == Shr(v, r) * Pow2(r) + Below(v, r) && Below(v, r) < Pow2(r)
    ensures RotateRight(v, r) == Below(v, r) * Pow2(32 - r) + Shr(v, r)
  {
    hide Shr, Shl, Pow2;
    QuotientIs(v, r);
    ShlIs(Below(v, r), 32 - r);
  }

  /** The low part changes places with the high one: shifted apart, they meet without a common bit. */
  lemma {:induction false} OrRotates(v: Word, r: nat)
    requires r < 32
    ensures Or(Shr(v, r), Shl(v, (-(r as int)) % 32)) % M32 == RotateRight(v, r)
  {
    hide Or, Shl, Shr, Pow2, Rol32, RotateRight, Below;
    if r == 0 {
      OrRotatesNone(v);
    } else {
      assert 32 - (32 - r) == r && (-(r as int)) % 32 == 32 - r;
      RotateParts(v, r);
      RolSwapsParts(v, 32 - r, Shr(v, r), Below(v, r));
      RolIs(v, 32 - r);
      OrCommutes(Shr(v, r), Shl(v, 32 - r));
    }
  }

  lemma TopBits(state: Word64)
    ensures Shr(state, 59) < 32 && Mixed(state) < M64
    ensures Shr(Mixed(state), 59) == Shr(state, 59)
  {
    hide Shr, Xor, Pow2;
    PowFacts();
    ShrIsQuotient(state, 59);
    if Shr(state, 59) >= 32 { MulLe(32, Shr(state, 59), Pow2(59)); }
    ShrShrinks(state, 18);
    XorBound(Shr(state, 18), state, 64);
    XorShift(Shr(state, 18), state, 59);
    ShrTwice(state, 18, 59);
    ShrTwice(state, 64, 13);
    ShrOfSmall(state, 64);
    ShrOfSmall(0, 13);
    XorCommutes(0, Shr(state, 59));
    XorZero(Shr(state, 59));
  }

  /** An output is the middle word of the mixed state, rotated right by the top five bits of the state. */
  lemma {:induction false} OutputRotates(state: Word64)
    ensures Shr(state, 59) < 32
    ensures Output(state) == RotateRight(Shr(Mixed(state), 27) % M32, Shr(state, 59))
  {
    hide Shr, Shl, Xor, Or, RotateRight;
    TopBits(state);
    OrRotates(Shr(Mixed(state), 27) % M32, Shr(state, 59));
  }

  /** Rotating right by r and then by 32 - r gives the word back. */
  lemma {:induction false} RotateBack(v: Word, r: nat)
    requires r <= 32
    ensures RotateRight(v, r) < M32 && RotateRight(RotateRight(v, r), 32 - r) == v
  {
    hide Pow2;
    PowSplit(r);
    var (p, q) := (Pow2(r), Pow2(32 - r));
    var (high, low) := (v / p, v % p);
    assert v == high * p + low;
    HighPartBound(v, high, low, q, p);
    assert low * q + high < M32 by {
      MulLe(low + 1, p, q);
      assert (low + 1) * q == low * q + q;
    }
    DivUnique(low * q + high, q, low, high);
  }

  /** Three parts of a 64-bit word: the top five bits, a middle word, and the low 27 bits. */
  function Parts(r: nat, v: Word, low: nat): nat {
    Shl(r * M32 + v, 27) + low
  }

  lemma {:induction false} PartsAre(y: nat, r: nat, v: Word, low: nat)
    requires low < Pow2(27)
    ensures y == Parts(r, v, low) <==> Shr(y, 59) == r && Shr(y, 27) % M32 == v && y % Pow2(27) == low
    ensures r < 32 ==> Parts(r, v, low) < M64
  {
    hide Pow2;
    PowFacts();
    ShlIs(r * M32 + v, 27);
    var z := y / Pow2(27);
    QuotientIs(y, 27);
    assert y == z * Pow2(27) + y % Pow2(27);
    PowSum(27, 32);
    ShrTwice(y, 27, 32);
    QuotientIs(z, 32);
    if y == Parts(r, v, low) {
      DivUnique(y, Pow2(27), r * M32 + v, low);
    }
    if r < 32 {
      MulLe(r * M32 + v + 1, 32 * M32, Pow2(27));
      assert (r * M32 + v + 1) * Pow2(27) == (r * M32 + v) * Pow2(27) + Pow2(27);
      assert 32 * M32 * Pow2(27) == M64;
    }
  }

  /** The state with a given output, rotation, and low bits behind the output. */
  function StateFor(u: Word, r: nat, low: nat): nat
    requires r < 32
  {
    var v := RotateRight(u, 32 - r);
    UndoXorShift(if v < M32 then Parts(r, v, low) else 0, 18, 32)
  }

  lemma {:induction false} UnmixIs(y: nat, state: Word64)
    requires y < M64
    ensures UndoXorShift(y, 18, 32) < M64
    ensures state == UndoXorShift(y, 18, 32) <==> Mixed(state) == y
  {
    hide Shr, Xor, Pow2, UndoXorShift;
    PowFacts();
    UndoIsBounded(y, 18, 32, 64);
    UndoIsInverse(y, 18, 64);
    UndoIsInverse(state, 18, 64);
    XorCommutes(Shr(state, 18), state);
  }

  /** Every output has exactly one state for each rotation and each low part. */
  lemma {:induction false} StateForIsInverse(u: Word, r: nat, low: nat, state: Word64)
    requires r < 32 && low < Pow2(27)
    ensures StateFor(u, r, low) < M64
    ensures state == StateFor(u, r, low)
       <==> Output(state) == u && Shr(state, 59) == r && Below(Mixed(state), 27) == low
  {
    hide Shr, Mixed, Pow2, Output, RotateRight, Parts, UndoXorShift;
    var v := RotateRight(u, 32 - r);
    RotateBack(u, 32 - r);
    PartsAre(Mixed(state), r, v, low);
    UnmixIs(Parts(r, v, low), state);
    TopBits(state);
    OutputRotates(state);
    RotateBack(Shr(Mixed(state), 27) % M32, r);
  }

  /** The i-th state of an output: the rotation is i / 2^27, the low part i % 2^27. */
  function Candidate(u: Word, i: nat): nat
    requires i < M32
  {
    TwentySevenBits();
    StateFor(u, i / 0x800_0000, i % 0x800_0000)
  }

  lemma TwentySevenBits()
    ensures Pow2(27) == 0x800_0000
  {
    hide Pow2;
    PowEight(19);
    PowEight(11);
    PowEight(3);
    PowThree();
  }

  lemma PowThree()
    ensures Pow2(3) == 8
  {
    assert Pow2(1) == 2;
  }

  /** Which of the states with its output a state is. */
  function Place(state: Word64): nat {
    Shr(state, 59) * 0x800_0000 + Below(Mixed(state), 27)
  }

  lemma {:induction false} CandidateIs(u: Word, i: nat, state: nat)
    requires i < M32
    ensures state == Candidate(u, i)
       <==> state < M64 && Output(state) == u && Place(state) == i
  {
    hide Shr, Mixed, Pow2, Output, StateFor;
    TwentySevenBits();
    StateForIsInverse(u, i / 0x800_0000, i % 0x800_0000, 0);
    if state < M64 {
      StateForIsInverse(u, i / 0x800_0000, i % 0x800_0000, state);
    }
  }

  function Candidates(u: Word, n: nat): set<nat>
    requires n <= M32
  {
    if n == 0 then {} else Candidates(u, n - 1) + {Candidate(u, n - 1)}
  }

  lemma {:induction false} CandidatesAre(u: Word, n: nat)
    requires n <= M32
    ensures |Candidates(u, n)| == n
    ensures forall s: nat :: s in Candidates(u, n) <==> s < M64 && Output(s) == u && Place(s) < n
  {
    hide Output, Place, Candidate;
    if n != 0 {
      CandidatesAre(u, n - 1);
      forall s: nat ensures s == Candidate(u, n - 1) <==> s < M64 && Output(s) == u && Place(s) == n - 1 {
        CandidateIs(u, n - 1, s);
      }
    }
  }

  /** The outputs are balanced: each 32-bit word comes from exactly 2^32 of the 2^64 states. */
  lemma {:induction false} OutputIsBalanced(u: Word) returns (states: set<nat>)
    ensures forall s: nat :: s in states <==> s < M64 && Output(s) == u
    ensures |states| == M32
  {
    hide Output, Place, Candidates;
    states := Candidates(u, M32);
    CandidatesAre(u, M32);
    forall s: nat | s < M64 ensures Place(s) < M32 {
      PlaceBound(s);
    }
  }

  lemma PlaceBound(s: Word64)
    ensures Place(s) < M32
  {
    hide Pow2, Shr;
    TopBits(s);
    TwentySevenBits();
  }

  // ---- bounded integers ----------------------------------------------------------------

  function Min(a: int, b: int): int { if a < b then a else b }
  function Abs(a: int): nat { if a < 0 then -a else a }

  function Span(a: int, b: int): nat {
    Abs(a - b) + 1
  }

  /** lo + high32(span * u). */
  function Scale(a: int, b: int, u: nat): int {
    Min(a, b) + Shr(Span(a, b) * u, 32)
  }

  lemma HighPart(x: nat)
    ensures Shr(x, 32) == x / M32
  {
    hide Shr, Pow2;
    WordSizes();
    ShrIsQuotient(x, 32);
    DivUnique(x, M32, Shr(x, 32), x - Shr(x, 32) * M32);
  }

  /** The smallest u that maps to offset j or above. */
  function Threshold(j: nat, span: nat): nat
    requires span >= 1
  {
    (j * M32 + span - 1) / span
  }

  lemma ThresholdSplits(j: nat, span: nat, u: nat)
    requires span >= 1
    ensures j * M32 <= span * u <==> Threshold(j, span) <= u
  {
    var t := Threshold(j, span);
    var r := (j * M32 + span - 1) % span;
    assert j * M32 + span - 1 == span * t + r;
    if t <= u {
      MulLe(t, u, span);
    } else {
      MulLe(u + 1, t, span);
      assert (u + 1) * span == u * span + span;
    }
  }

  lemma OffsetIs(j: nat, span: nat, u: nat)
    requires span >= 1
    ensures span * u / M32 == j <==> Threshold(j, span) <= u < Threshold(j + 1, span)
  {
    ThresholdSplits(j, span, u);
    ThresholdSplits(j + 1, span, u);
    assert (j + 1) * M32 == j * M32 + M32;
  }

  lemma DivisionParts(n: nat, s: nat)
    requires s >= 1
    ensures n == n / s * s + n % s && n % s < s
  {}

  lemma CeilingOfParts(y: nat, s: nat, b: nat, r: nat)
    requires y == b * s + r && 1 <= r < s
    ensures (y + s - 1) / s == b + 1
  {
    assert 1 * s == s;
    QuotientOfSum(y + s - 1, s, b, r - 1, 1, 0);
  }

  lemma GapOfParts(x: nat, y: nat, s: nat, a: nat, r1: nat, b: nat, r2: nat)
    requires r1 < s && r2 < s && x + s - 1 == a * s + r1 && y == b * s + r2
    ensures var d := (x + y + s - 1) / s - a; d == b || (d == b + 1 && d == (y + s - 1) / s)
  {
    QuotientOfSum(x + y + s - 1, s, a, r1, b, r2);
    if r1 + r2 >= s { CeilingOfParts(y, s, b, r2); }
  }

  lemma CeilingDifference(x: nat, y: nat, s: nat)
    requires s >= 1
    ensures var d := (x + y + s - 1) / s - (x + s - 1) / s; d == y / s || d == (y + s - 1) / s
  {
    DivisionParts(x + s - 1, s);
    DivisionParts(y, s);
    GapOfParts(x, y, s, (x + s - 1) / s, (x + s - 1) % s, y / s, y % s);
  }

  lemma QuotientOfSum(n: nat, s: nat, a: nat, r1: nat, b: nat, r2: nat)
    requires s >= 1 && r1 < s && r2 < s && n == a * s + r1 + b * s + r2
    ensures n / s == a + b + if r1 + r2 < s then 0 else 1
  {
    assert (a + b) * s == a * s + b * s && (a + b + 1) * s == (a + b) * s + s;
    if r1 + r2 < s { DivUnique(n, s, a + b, r1 + r2); } else { DivUnique(n, s, a + b + 1, r1 + r2 - s); }
  }

  ghost function Interval(lo: nat, hi: nat): (r: set<nat>)
    ensures forall u: nat :: u in r <==> lo <= u < hi
    ensures |r| == if lo <= hi then hi - lo else 0
    decreases hi
  {
    if hi <= lo then {} else Interval(lo, hi - 1) + {hi - 1}
  }

  /** Exactly the 32-bit outputs that next_integer maps to `value`. */
  ghost predicate IsPreimage(us: set<nat>, a: int, b: int, value: int) {
    forall u: nat :: u in us <==> u < M32 && Scale(a, b, u) == value
  }

  lemma ThresholdEnds(span: nat)
    requires 1 <= span
    ensures Threshold(0, span) == 0
    ensures Threshold(span, span) == M32
  {
    DivUnique(span - 1, span, 0, span - 1);
    assert span * M32 + span - 1 == M32 * span + (span - 1);
    DivUnique(span * M32 + span - 1, span, M32, span - 1);
  }

  lemma ThresholdMonotone(i: nat, j: nat, span: nat)
    requires span >= 1 && i <= j
    ensures Threshold(i, span) <= Threshold(j, span)
  {
    ThresholdSplits(i, span, Threshold(j, span));
    ThresholdSplits(j, span, Threshold(j, span));
    MulLe(i, j, M32);
  }

  /** Every 32-bit output lands in the inclusive range. */
  lemma {:induction false} ScaleInRange(a: int, b: int, u: nat)
    requires u < M32
    ensures Min(a, b) <= Scale(a, b, u) <= Min(a, b) + Span(a, b) - 1
    ensures Min(a, b) + Span(a, b) - 1 == a || Min(a, b) + Span(a, b) - 1 == b
  {
    hide Shr;
    var span := Span(a, b);
    HighPart(span * u);
    var j := span * u / M32;
    assert span * u == j * M32 + span * u % M32;
    assert span * u < span * M32 by { MulLe(u + 1, M32, span); assert (u + 1) * span == u * span + span; }
  }

  /** Every value of the range is hit by floor(2^32 / span) or ceil(2^32 / span) of the 2^32 outputs. */
  lemma {:induction false} NearlyUniform(a: int, b: int, value: int) returns (us: set<nat>)
    requires Span(a, b) <= M32 && Min(a, b) <= value < Min(a, b) + Span(a, b)
    ensures IsPreimage(us, a, b, value)
    ensures |us| == M32 / Span(a, b) || |us| == (M32 + Span(a, b) - 1) / Span(a, b)
  {
    hide Shr, Threshold, Scale;
    var span, j := Span(a, b), value - Min(a, b);
    var lo, hi := Threshold(j, span), Threshold(j + 1, span);
    us := Interval(lo, hi);
    ThresholdMonotone(j, j + 1, span);
    ThresholdMonotone(j + 1, span, span);
    ThresholdEnds(span);
    forall u: nat ensures u in us <==> u < M32 && Scale(a, b, u) == value {
      ScaleIs(a, b, j, u);
    }
    ThresholdGap(j, span);
  }

  /** Which outputs are scaled to the j-th value of the range. */
  lemma ScaleIs(a: int, b: int, j: nat, u: nat)
    ensures Scale(a, b, u) == Min(a, b) + j <==> Threshold(j, Span(a, b)) <= u < Threshold(j + 1, Span(a, b))
  {
    hide Shr, Threshold, Min;
    HighPart(Span(a, b) * u);
    OffsetIs(j, Span(a, b), u);
  }

  lemma ThresholdGap(j: nat, span: nat)
    requires span >= 1
    ensures var d := Threshold(j + 1, span) - Threshold(j, span); d == M32 / span || d == (M32 + span - 1) / span
  {
    assert (j + 1) * M32 == j * M32 + M32;
    CeilingDifference(j * M32, M32, span);
  }

  class Pcg32 {
    var state: Word64

    constructor (seed: int)
      ensures state == StateAfter(seed, 0)
    {
      state := (seed % M64 * MULTIPLIER + SEED_OFFSET) % M64;
    }

    method NextU32() returns (u: nat)
      modifies this
      ensures u == Output(old(state)) && u < M32
      ensures state == LcgStep(old(state))
    {
      hide Shr, Shl, Xor, Or;
      var before := state;
      state := (before * MULTIPLIER + INCREMENT) % M64;
      var value := Shr(Xor(Shr(before, 18), before), 27) % M32;
      var rotation: int := Shr(before, 59);
      u := Or(Shr(value, rotation), Shl(value, (-rotation) % 32)) % M32;
    }

    method NextInteger(a: int, b: int) returns (r: Result<int>)
      modifies this
      ensures Span(a, b) > M32 ==> r == Err(ValueError) && state == old(state)
      ensures Span(a, b) <= M32 ==> r == Ok(Scale(a, b, Output(old(state)))) && state == LcgStep(old(state))
      ensures r.Ok? ==> Min(a, b) <= r.value <= Min(a, b) + Span(a, b) - 1
    {
      hide Output, Shr;
      var span := Span(a, b);
      if !(1 <= span <= M32) {
        return Err(ValueError);
      }
      var u := NextU32();
      ScaleInRange(a, b, u);
      r := Ok(Min(a, b) + Shr(span * u, 32));
    }
  }
}
