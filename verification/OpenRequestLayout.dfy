/** The bytes of the open request, field by field. */
module OpenRequestLayout {
  import opened Results
  import opened Bytes
  import opened OpenRequest

  /** Eight bytes from `at` hold v, highest byte first. */
  predicate Holds64(b: Octets, at: nat, v: nat) {
    && at + 8 <= |b|
    && b[at] == v / 0x100_0000_0000_0000 % 0x100 && b[at + 1] == v / 0x1_0000_0000_0000 % 0x100
    && b[at + 2] == v / 0x100_0000_0000 % 0x100 && b[at + 3] == v / 0x1_0000_0000 % 0x100
    && b[at + 4] == v / 0x100_0000 % 0x100 && b[at + 5] == v / 0x1_0000 % 0x100
    && b[at + 6] == v / 0x100 % 0x100 && b[at + 7] == v % 0x100
  }

  lemma EightHigh(v: nat)
    ensures |Be(v, 8)| == 8 && Holds64(Be(v, 8), 0, v)
  {
    hide Be, Holds64;
    var high := v / 0x1_0000_0000;
    BeStep(v, 8);
    BeStep(v / 256, 7);
    BeStep(v / 256 / 256, 6);
    BeStep(v / 256 / 256 / 256, 5);
    assert v / 256 / 256 == v / 0x1_0000 && v / 256 / 256 / 256 == v / 0x100_0000;
    assert v / 256 / 256 / 256 / 256 == high;
    FourBytes(high);
    EightAreHeld(v, high, Be(v, 8));
  }

  lemma EightAreHeld(v: nat, high: nat, b: Octets)
    requires high == v / 0x1_0000_0000
    requires b == [high / 0x100_0000 % 0x100, high / 0x1_0000 % 0x100, high / 0x100 % 0x100, high % 0x100,
                   v / 0x100_0000 % 0x100, v / 0x1_0000 % 0x100, v / 0x100 % 0x100, v % 0x100]
    ensures Holds64(b, 0, v)
  {
    assert high / 0x100 == v / 0x100_0000_0000 && high / 0x1_0000 == v / 0x1_0000_0000_0000;
    assert high / 0x100_0000 == v / 0x100_0000_0000_0000;
  }

  /** A part of a concatenation, where it stands. */
  lemma PartAt(front: Octets, part: Octets, rest: Octets)
    ensures var b := front + (part + rest);
            b[|front|..|front| + |part|] == part && b[|front| + |part|..] == rest
            && forall i | 0 <= i < |part| :: b[|front| + i] == part[i]
  {}

  /** Which requests are accepted, and which errors the others raise. */
  lemma RefusedExactly(q: Request2)
    ensures var sizes := |q.staticLabel| == 16 && |q.key| == 32 && |q.rupp| < 0x100 && |q.endpoint| < 0x100
                         && |q.identity| < 0x100;
            var numbers := 576 <= q.mtu <= 1492 && 0 <= q.clientValue < 0x1_0000_0000_0000_0000
                           && 0 <= q.selector < 0x100 && 0 <= q.version < 0x100 && 0 <= q.reserved < 0x100;
            var fields := 0 <= q.fieldA < 0x1_0000 && 0 <= q.fieldB < 0x1_0000;
            Refusal(q) == if !sizes || !numbers then Some(ValueError) else if !fields then Some(OverflowError) else None
  {}

  /** The prefix: 0x78, the sixteen bytes of the label, and the version. */
  lemma PrefixLayout(q: Request2)
    requires Refusal(q) == None
    ensures var b := Prefix(q); |b| == 18 && b[0] == 0x78 && b[1..17] == q.staticLabel && b[17] == q.version
  {}

  /** The first 37 bytes: reserved, the two 16-bit fields, higher byte first, and the key. */
  lemma {:induction false} HeadLayout(q: Request2)
    requires Refusal(q) == None
    ensures var b := Body(q);
            && |b| >= 37 && b[0] == q.reserved && b[1] == q.fieldA / 0x100 && b[2] == q.fieldA % 0x100
            && b[3] == q.fieldB / 0x100 && b[4] == q.fieldB % 0x100 && b[5..37] == q.key && b[37..] == Tail(q)
  {
    hide Be, Tail;
    TwoBytes(q.fieldA);
    TwoBytes(q.fieldB);
    var head: Octets := [q.reserved, q.fieldA / 0x100, q.fieldA % 0x100, q.fieldB / 0x100, q.fieldB % 0x100];
    assert Body(q) == head + (q.key + Tail(q));
    PartAt(head, q.key, Tail(q));
  }

  function Numbers(q: Request2): Octets
    requires Admissible(q)
  {
    Be(q.clientValue, 8) + (Be(q.mtu, 2) + ([q.selector] + ([4] + Span(q.identity))))
  }

  lemma TailParts(q: Request2)
    requires Admissible(q)
    ensures Tail(q) == Span(q.rupp) + (Span(q.endpoint) + Numbers(q))
  {
    hide Be, Span;
  }

  /** Behind them: two counted spans, the client value, the size, the selector, the byte 4, and a counted span. */
  lemma {:induction false} TailLayout(q: Request2)
    requires Refusal(q) == None
    ensures var (t, n, m) := (Tail(q), 1 + |q.rupp|, 2 + |q.rupp| + |q.endpoint|);
            && |t| == m + 13 + |q.identity|
            && t[0] == |q.rupp| && t[1..n] == q.rupp && t[n] == |q.endpoint| && t[n + 1..m] == q.endpoint
            && Holds64(t, m, q.clientValue) && t[m + 8] == q.mtu / 0x100 && t[m + 9] == q.mtu % 0x100
            && t[m + 10] == q.selector && t[m + 11] == 4 && t[m + 12] == |q.identity| && t[m + 13..] == q.identity
  {
    hide Be, Holds64, Span, Tail;
    NumbersFit(q);
    var (t, m, numbers) := (Tail(q), 2 + |q.rupp| + |q.endpoint|, Numbers(q));
    TailParts(q);
    TwoSpans(q.rupp, q.endpoint, numbers);
    NumbersLayout(q);
    HeldBehind(t, numbers, m, q.clientValue);
    ByteBehind(t, numbers, m);
  }

  /** Two counted spans and what follows them. */
  lemma TwoSpans(a: Octets, b: Octets, rest: Octets)
    requires |a| < 256 && |b| < 256
    ensures var (t, n, m) := (Span(a) + (Span(b) + rest), 1 + |a|, 2 + |a| + |b|);
            && |t| == m + |rest| && t[0] == |a| && t[1..n] == a && t[n] == |b| && t[n + 1..m] == b && t[m..] == rest
  {
    SpanIs(a);
    SpanIs(b);
    assert Span(a) + (Span(b) + rest) == [|a|] + a + [|b|] + b + rest;
  }

  lemma ByteBehind(b: Octets, part: Octets, at: nat)
    requires at <= |b| && b[at..] == part && |part| >= 13
    ensures at + 13 <= |b| && b[at + 8] == part[8] && b[at + 9] == part[9] && b[at + 10] == part[10]
    ensures b[at + 11] == part[11] && b[at + 12] == part[12] && b[at + 13..] == part[13..]
  {}

  lemma HeldBehind(b: Octets, part: Octets, at: nat, v: nat)
    requires at <= |b| && b[at..] == part && Holds64(part, 0, v)
    ensures Holds64(b, at, v)
  {
    assert forall i | 0 <= i < |part| :: b[at + i] == part[i];
  }

  lemma NumbersLayout(q: Request2)
    requires Refusal(q) == None
    ensures var b := Numbers(q);
            && |b| == 13 + |q.identity| && Holds64(b, 0, q.clientValue)
            && b[8] == q.mtu / 0x100 && b[9] == q.mtu % 0x100
            && b[10] == q.selector && b[11] == 4 && b[12] == |q.identity| && b[13..] == q.identity
  {
    hide Be;
    EightHigh(q.clientValue);
    TwoBytes(q.mtu);
  }
}
