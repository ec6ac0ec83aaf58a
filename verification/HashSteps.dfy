/** The steps of XXH32 and of the ticket mixer's control word, in plain arithmetic on 32-bit numbers. */
module HashSteps {
  import opened Bytes
  import opened Bits
  import opened Modular
  import opened TicketHash

  /** v with its top bits, above the given power of two, moved to the bottom; p times q is 2^32. */
  function Turned(v: nat, p: nat, q: nat): nat
    requires q >= 1
  {
    v % q * p + v / q
  }

  lemma PowerTable()
    ensures Pow2(1) == 0x2 && Pow2(7) == 0x80 && Pow2(11) == 0x800 && Pow2(12) == 0x1000 && Pow2(13) == 0x2000
    ensures Pow2(14) == 0x4000 && Pow2(15) == 0x8000 && Pow2(17) == 0x2_0000 && Pow2(18) == 0x4_0000
    ensures Pow2(19) == 0x8_0000 && Pow2(20) == 0x10_0000 && Pow2(21) == 0x20_0000 && Pow2(25) == 0x200_0000
    ensures Pow2(31) == 0x8000_0000
  {
    hide Pow2;
    PowNone();
    PowOne(0);
    PowSeven(0);
    PowOne(7);
    PowOne(8);
    PowOne(9);
    PowOne(10);
    PowOne(11);
    PowOne(12);
    PowOne(13);
    PowOne(14);
    PowOne(15);
    PowOne(16);
    PowOne(17);
    PowOne(18);
    PowOne(19);
    PowOne(20);
    PowSeven(14);
    PowSeven(18);
    PowSeven(24);
    PowSeven(17);
  }

  lemma PowOne(n: nat)
    ensures Pow2(n + 1) == 2 * Pow2(n)
  {}

  lemma RolTurns(v: Word, c: nat, p: nat, q: nat)
    requires 0 < c < 32 && Pow2(c) == p && Pow2(32 - c) == q
    ensures Rol32(v, c) == Turned(v, p, q)
  {
    hide Pow2, Rol32;
    assert v == v / q * q + v % q;
    RolSwapsParts(v, c, v / q, v % q);
  }

  /** Four bytes as a number, lowest first. */
  function Lane(data: Octets, at: nat): nat
    requires at + 4 <= |data|
  {
    data[at] as int + 0x100 * data[at + 1] as int + 0x1_0000 * data[at + 2] as int + 0x100_0000 * data[at + 3] as int
  }

  lemma LaneIs(data: Octets, at: nat)
    requires at + 4 <= |data|
    ensures FromLe(data[at..at + 4]) == Lane(data, at)
  {
    hide FromLe;
    var b := data[at..at + 4];
    FromLeStep(b);
    FromLeStep(b[1..]);
    FromLeStep(b[1..][1..]);
    FromLeStep(b[1..][1..][1..]);
    assert b[1..][0] == data[at + 1] && b[1..][1..][0] == data[at + 2] && b[1..][1..][1..][0] == data[at + 3];
    assert b[1..][1..][1..][1..] == [];
    FromLeNone();
  }

  /** One lane: add it times the second prime, rotate by 13, multiply by the first. */
  lemma {:induction false} RoundIs(accumulator: Word, lane: nat)
    ensures var x := (accumulator + lane * 0x85EB_CA77) % 0x1_0000_0000;
            Round(accumulator, lane) == Turned(x, 0x2000, 0x8_0000) * 0x9E37_79B1 % 0x1_0000_0000
  {
    hide Pow2, Rol32, Turned;
    PowerTable();
    RolTurns((accumulator + lane * 0x85EB_CA77) % 0x1_0000_0000, 13, 0x2000, 0x8_0000);
  }

  /** Each stripe feeds its words, in order, to the four accumulators. */
  lemma {:induction false} StripeIs(l: Lanes, stripe: Octets)
    requires |stripe| == 16
    ensures Stripe(l, stripe) == Lanes(Round(l.v1, Lane(stripe, 0)), Round(l.v2, Lane(stripe, 4)),
                                       Round(l.v3, Lane(stripe, 8)), Round(l.v4, Lane(stripe, 12)))
  {
    hide FromLe, Lane, Round;
    LaneIs(stripe, 0);
    LaneIs(stripe, 4);
    LaneIs(stripe, 8);
    LaneIs(stripe, 12);
  }

  lemma StartIs(seed: int)
    ensures Start(seed) == Lanes((seed + 0x9E37_79B1 + 0x85EB_CA77) % 0x1_0000_0000,
                                 (seed + 0x85EB_CA77) % 0x1_0000_0000,
                                 seed % 0x1_0000_0000,
                                 (seed - 0x9E37_79B1) % 0x1_0000_0000)
  {}

  /** The accumulators are rotated by 1, 7, 12 and 18 and added. */
  lemma {:induction false} ConvergeIs(l: Lanes)
    ensures Converge(l) == (Turned(l.v1, 0x2, 0x8000_0000) + Turned(l.v2, 0x80, 0x200_0000)
                            + Turned(l.v3, 0x1000, 0x10_0000) + Turned(l.v4, 0x4_0000, 0x4000)) % 0x1_0000_0000
  {
    hide Pow2, Rol32, Turned;
    PowerTable();
    RolTurns(l.v1, 1, 0x2, 0x8000_0000);
    RolTurns(l.v2, 7, 0x80, 0x200_0000);
    RolTurns(l.v3, 12, 0x1000, 0x10_0000);
    RolTurns(l.v4, 18, 0x4_0000, 0x4000);
  }

  /** A word behind the stripes: third prime, rotation by 17, fourth prime; a byte: fifth prime, 11, first prime. */
  lemma {:induction false} RestStepsAre(result: Word, lane: nat, byte: Byte)
    ensures var x := (result + lane * 0xC2B2_AE3D) % 0x1_0000_0000;
            WordStep(result, lane) == Turned(x, 0x2_0000, 0x8000) * 0x27D4_EB2F % 0x1_0000_0000
    ensures var x := (result + byte as int * 0x1656_67B1) % 0x1_0000_0000;
            ByteStep(result, byte) == Turned(x, 0x800, 0x20_0000) * 0x9E37_79B1 % 0x1_0000_0000
  {
    hide Pow2, Rol32, Turned;
    PowerTable();
    RolTurns((result + lane * 0xC2B2_AE3D) % 0x1_0000_0000, 17, 0x2_0000, 0x8000);
    RolTurns((result + byte as int * 0x1656_67B1) % 0x1_0000_0000, 11, 0x800, 0x20_0000);
  }

  /** The avalanche: xor with itself shifted by 15, second prime, shift by 13, third prime, shift by 16. */
  lemma {:induction false} AvalancheIs(v: Word)
    ensures var a := Xor(v, v / 0x8000);
            var b := a * 0x85EB_CA77 % 0x1_0000_0000;
            var c := Xor(b, b / 0x2000);
            var d := c * 0xC2B2_AE3D % 0x1_0000_0000;
            Avalanche(v) == Xor(d, d / 0x1_0000)
  {
    hide Pow2, Xor, Execute;
    PowerTable();
    WordSizes();
    AvalancheUnrolled(v);
  }

  /** The digest: short inputs start from the fifth prime, others from the stripes; then the length and the rest. */
  lemma {:induction false} DigestIs(data: Octets, seed: int)
    ensures |data| < 16 ==>
              XxHash32(data, seed) == Avalanche(Remainder((seed + 0x1656_67B1 + |data|) % 0x1_0000_0000, data))
    ensures |data| >= 16 ==>
              var striped := Stripes(Start(seed), data);
              XxHash32(data, seed)
              == Avalanche(Remainder((Converge(striped.lanes) + |data|) % 0x1_0000_0000, data[|data| / 16 * 16..]))
  {
    hide Stripes, Start, Converge, Remainder, Avalanche;
    StripesConsume(Start(seed), data);
    WrapTwice(seed + P5, |data|);
  }

  // ---- the ticket mixer -----------------------------------------------------------------------

  lemma ShrIs(a: nat, n: nat)
    ensures Shr(a, n) == a / Pow2(n)
  {
    hide Pow2;
  }

  /** The switches of the mixer are bits 0 to 15 of the key times a constant. */
  lemma {:induction false} SwitchesAre(key: Word, i: nat)
    requires i < 16
    ensures SwitchesOf(key)[i] <==> key * 0xF7AB_BB9C % 0x1_0000_0000 / Pow2(i) % 2 == 1
  {
    hide Pow2, Shr;
    ShrIs(Control(key), i);
  }

  /** The two words that the mixer combines with the key are each other's negation. */
  lemma FixedWords()
    ensures FIXED == 0x557B_B5D7 && (FIXED + INVERSE) % 0x1_0000_0000 == 0
  {}

  /** The steps of the mixer up to the multiplication, and then those behind it, as the switches choose them. */
  lemma PlanIs(key: Word, s: Switches)
    ensures MixPlan(key, s)
         == BeforeFactor(key, s) + ([Multiply(if s[3] then key else 0x557B_B5D7)] + AfterFactor(key, s))
    ensures var b := BeforeFactor(key, s);
            && |b| == 3 && b[0] == Add(0x557B_B5D7) && b[1] == Rotate(25)
            && b[2] == Add(if s[2] then -(key as int) else 0xAA84_4A29)
  {
    hide AfterFactor;
  }

  lemma StepsBehind(key: Word, s: Switches)
    ensures var a := AfterFactor(key, s);
            && |a| == 13 && a[0] == Rotate(if s[4] then 13 else 19)
            && a[1] == SubtractFrom(if s[5] then key else 0x557B_B5D7)
            && a[2] == XorWith(if s[6] then key else 0x557B_B5D7)
            && a[3] == Rotate(if s[7] then 17 else 15)
            && a[4] == Add((if s[8] then key as int else -(key as int)) + if s[9] then 0x557B_B5D7 else 0xAA84_4A29)
            && a[5] == Rotate(if s[10] then 23 else 9) && a[6] == (if s[11] then SubtractFrom(0) else Add(0))
            && a[7] == Add(key) && a[8] == (if s[12] then SubtractFrom(0) else Add(0)) && a[9] == Add(0x557B_B5D7)
            && a[10] == Rotate(if s[13] then 29 else 3) && a[11] == XorWith(if s[14] then key else 0x557B_B5D7)
            && a[12] == (if s[15] then Add(0) else SubtractFrom(0))
  {}

  /** What each kind of step does to a word. */
  lemma StepsAre(v: Word, c: int, w: Word, n: nat)
    requires 0 < n < 32
    ensures Apply(Add(c), v) == (v + c) % 0x1_0000_0000
    ensures Apply(SubtractFrom(c), v) == (c - v) % 0x1_0000_0000
    ensures Apply(Multiply(w), v) == v * w % 0x1_0000_0000
    ensures Apply(XorWith(w), v) == Xor(v, w)
    ensures Apply(Rotate(n), v) == Turned(v, Pow2(n), Pow2(32 - n))
  {
    hide Pow2, Rol32, Xor, Turned;
    RolTurns(v, n, Pow2(n), Pow2(32 - n));
  }
}
