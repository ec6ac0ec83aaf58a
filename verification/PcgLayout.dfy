/** The generator in plain arithmetic: its constants, its output, and how an output becomes an integer of a range. */
module PcgLayout {
  import opened Results
  import opened Bytes
  import opened Bits
  import opened Pcg

  /** The multiplier of the reference generator, and 0x69 in place of its increment. */
  lemma StepIs(state: Word64)
    ensures LcgStep(state) == (state * 6364136223846793005 + 105) % 0x1_0000_0000_0000_0000
  {}

  lemma QuotientIs(a: nat, n: nat, p: nat)
    requires p == Pow2(n)
    ensures p > 0 && Shr(a, n) == a / p
  {
    hide Pow2;
  }

  lemma Powers()
    ensures Pow2(18) == 0x4_0000 && Pow2(27) == 0x800_0000 && Pow2(59) == 0x800_0000_0000_0000
  {
    hide Pow2;
    TwentySevenBits();
    PowFacts();
    Modular.PowSum(27, 32);
    Modular.PowSum(9, 9);
    NineBits();
  }

  lemma NineBits()
    ensures Pow2(9) == 512
  {
    assert Pow2(5) == 32;
  }

  /**
   * The state xored with itself without its low 18 bits, 32 bits of that above the lowest 27, rotated right by the
   * top 5.
   */
  lemma {:induction false} OutputIs(state: Word64)
    ensures var (mixed, r) := (Xor(state / 0x4_0000, state), state / 0x800_0000_0000_0000);
            var (v, p) := (mixed / 0x800_0000 % 0x1_0000_0000, Pow2(r));
            r < 32 && Output(state) == v / p + v % p * Pow2(32 - r)
  {
    hide Pow2, Xor, Shr, Output;
    Powers();
    QuotientIs(state, 18, 0x4_0000);
    QuotientIs(state, 59, 0x800_0000_0000_0000);
    var mixed := Xor(state / 0x4_0000, state);
    QuotientIs(mixed, 27, 0x800_0000);
    OutputRotates(state);
    var (v, r) := (mixed / 0x800_0000 % 0x1_0000_0000, state / 0x800_0000_0000_0000);
    QuotientIs(v, r, Pow2(r));
    RotatedIs(v, r);
  }

  lemma RotatedIs(v: Word, r: nat)
    requires r <= 32
    ensures RotateRight(v, r) == v % Pow2(r) * Pow2(32 - r) + Shr(v, r)
  {
    hide Pow2, Shr;
  }

  /** The lower bound and the upper half of output times range: a greater output never gives a smaller number. */
  lemma {:induction false} ScaleIsMonotone(a: int, b: int, u: nat, v: nat)
    requires u <= v < 0x1_0000_0000
    ensures var (low, span) := (if a <= b then a else b, if a <= b then b - a + 1 else a - b + 1);
            && Scale(a, b, u) == low + span * u / 0x1_0000_0000
            && Scale(a, b, u) <= Scale(a, b, v)
            && Scale(a, b, 0) == low
  {
    hide Shr;
    var span := Span(a, b);
    HighPart(span * u);
    HighPart(span * v);
    HighPart(span * 0);
    MulLe(u, v, span);
    assert span * u <= span * v;
    DivideLe(span * u, span * v);
  }

  lemma DivideLe(a: nat, b: nat)
    requires a <= b
    ensures a / 0x1_0000_0000 <= b / 0x1_0000_0000
  {}
}
