/** The clear prefix and body of RbxOpenRequest2, written through the bit writer. */
module OpenRequest {
  import opened Results
  import opened Bytes
  import opened Bits
  import opened BitStream

  datatype Request2 = Request2(
    staticLabel: Octets, key: Octets, mtu: int, clientValue: int, selector: int, version: int, reserved: int,
    fieldA: int, fieldB: int, rupp: Octets, endpoint: Octets, identity: Octets)

  datatype Parts = Parts(prefix: Octets, body: Octets)

  /** The checks made before anything is written. */
  predicate Admissible(q: Request2) {
    && |q.staticLabel| == 16 && |q.key| == 32
    && 576 <= q.mtu <= 1492 && 0 <= q.clientValue < M64 && IsByte(q.selector)
    && |q.rupp| <= 0xFF && |q.endpoint| <= 0xFF && |q.identity| <= 0xFF
  }

  /** What the request may raise: its value errors first, then a 16-bit field that does not fit. */
  function Refusal(q: Request2): Option<Fault> {
    if !Admissible(q) || !IsByte(q.version) || !IsByte(q.reserved) then Some(ValueError)
    else if !(0 <= q.fieldA < 0x1_0000) || !(0 <= q.fieldB < 0x1_0000) then Some(OverflowError)
    else None
  }

  /** A length byte and the span it counts. */
  function Span(s: Octets): Octets
    requires |s| < 256
  {
    [|s|] + s
  }

  function Prefix(q: Request2): Octets
    requires IsByte(q.version)
  {
    [0x78] + q.staticLabel + [q.version]
  }

  /** The body as whole bytes: what the bit writer must produce. */
  function Body(q: Request2): Octets
    requires Refusal(q) == None
  {
    [q.reserved] + (Be(q.fieldA, 2) + (Be(q.fieldB, 2) + (q.key + Tail(q))))
  }

  function Tail(q: Request2): Octets
    requires Admissible(q)
  {
    Span(q.rupp) + (Span(q.endpoint)
      + (Be(q.clientValue, 8) + (Be(q.mtu, 2) + ([q.selector] + ([4] + Span(q.identity))))))
  }

  // ---- the writer produces exactly these bytes -------------------------------------------

  lemma Shift(done: Octets, x: Octets, rest: Octets)
    ensures done + (x + rest) == (done + x) + rest
  {
  }

  lemma SpanIs(s: Octets)
    requires |s| < 256
    ensures Span(s) == [|s|] + s
  {}

  /** Appends the span's length byte, then the span unless it is empty. */
  method WriteSpan(w: BitWriter, s: Octets)
    requires w.Valid() && w.bitPos % 8 == 0 && |s| < 256
    modifies w
    ensures w.Valid() && w.bitPos % 8 == 0
    ensures w.data == old(w.data) + Span(s)
  {
    hide *;
    ByteSize();
    EightIsPower();
    SpanIs(s);
    var _ := w.WriteBits(|s|, 8);
    if s != [] {
      var _ := w.Align(8);
      w.WriteBytes(s, true);
    }
  }

  lemma EightIsPower()
    ensures IsPowerOfTwo(8)
  {
  }

  lemma RefusalIs(q: Request2)
    requires Admissible(q) && IsByte(q.version)
    ensures Refusal(q) == if !(0 <= q.reserved < 256) then Some(ValueError)
                          else if !(0 <= q.fieldA < 0x1_0000) || !(0 <= q.fieldB < 0x1_0000) then Some(OverflowError)
                          else None
  {}

  /** The leading fields; the only writes of the body that can fail. */
  method WriteHead(w: BitWriter, q: Request2) returns (r: Result<()>)
    requires w.Valid() && w.bitPos == 0 && w.data == []
    requires Admissible(q) && IsByte(q.version)
    modifies w
    ensures match Refusal(q)
            case Some(fault) => r == Err(fault)
            case None =>
              && r == Ok(()) && w.Valid() && w.bitPos % 8 == 0
              && w.data == [q.reserved] + Be(q.fieldA, 2) + Be(q.fieldB, 2) + q.key
  {
    hide *;
    ByteSize();
    EightIsPower();
    Pow256Values();
    RefusalIs(q);
    r := w.WriteBits(q.reserved, 8);
    if r.Err? { return; }
    r := w.WriteUintBe(q.fieldA, 2);
    if r.Err? { return; }
    r := w.WriteUintBe(q.fieldB, 2);
    if r.Err? { return; }
    r := w.Align(8);
    w.WriteBytes(q.key, true);
  }

  lemma HeadFromLeft(q: Request2)
    requires Refusal(q) == None
    ensures [q.reserved] + Be(q.fieldA, 2) + Be(q.fieldB, 2) + q.key + Tail(q) == Body(q)
  {
    hide Be, Tail;
    var (x, r2) := ([q.reserved] + Be(q.fieldA, 2), q.key + Tail(q));
    Shift([q.reserved], Be(q.fieldA, 2), Be(q.fieldB, 2) + r2);
    Shift(x, Be(q.fieldB, 2), r2);
    Shift(x + Be(q.fieldB, 2), q.key, Tail(q));
  }

  method WriteTail(w: BitWriter, q: Request2)
    requires w.Valid() && w.bitPos % 8 == 0 && Admissible(q)
    modifies w
    ensures w.Valid() && w.data == old(w.data) + Tail(q)
  {
    hide OctetBits, BitsOf, IsPowerOfTwo, RoundUp, Zeros, Be, Span;
    WriteSpan(w, q.rupp);
    WriteSpan(w, q.endpoint);
    WriteNumbers(w, q);
    WriteSpan(w, q.identity);
    TailFromLeft(old(w.data), q);
  }

  lemma NumbersFit(q: Request2)
    requires Admissible(q)
    ensures 0 <= q.clientValue < 0x1_0000_0000_0000_0000 && 0 <= q.mtu < 0x1_0000 && 0 <= q.selector < 256
    ensures |q.rupp| < 256 && |q.endpoint| < 256 && |q.identity| < 256
  {}

  method WriteNumbers(w: BitWriter, q: Request2)
    requires w.Valid() && w.bitPos % 8 == 0 && Admissible(q)
    modifies w
    ensures w.Valid() && w.bitPos % 8 == 0
    ensures w.data == old(w.data) + Be(q.clientValue, 8) + Be(q.mtu, 2) + [q.selector] + [4]
  {
    hide *;
    ByteSize();
    EightIsPower();
    Pow256Values();
    NumbersFit(q);
    var _ := w.Align(8);
    var _ := w.WriteUintBe(q.clientValue, 8);
    var _ := w.WriteUintBe(q.mtu, 2);
    var _ := w.WriteBits(q.selector, 8);
    var _ := w.WriteBits(4, 8);
  }

  lemma TailFromLeft(done: Octets, q: Request2)
    requires Admissible(q)
    ensures done + Span(q.rupp) + Span(q.endpoint) + Be(q.clientValue, 8) + Be(q.mtu, 2) + [q.selector] + [4]
            + Span(q.identity)
         == done + Tail(q)
  {
    hide Span, Be;
    var (x1, x2, x3, x4, x5, x6, x7) := (Span(q.rupp), Span(q.endpoint), Be(q.clientValue, 8), Be(q.mtu, 2),
                                         [q.selector], [4], Span(q.identity));
    var (r6, d1) := (x6 + x7, done + x1);
    var r5 := x5 + r6;
    var r4 := x4 + r5;
    var r3 := x3 + r4;
    var (d2, d3) := (d1 + x2, d1 + x2 + x3);
    Shift(done, x1, x2 + r3);
    Shift(d1, x2, r3);
    Shift(d2, x3, r4);
    Shift(d3, x4, r5);
    Shift(d3 + x4, x5, r6);
    Shift(d3 + x4 + x5, x6, x7);
  }

  /** Builds the clear prefix and the body, driving the bit writer. */
  method BuildParts(q: Request2) returns (r: Result<Parts>)
    ensures match Refusal(q)
            case Some(fault) => r == Err(fault)
            case None => r == Ok(Parts(Prefix(q), Body(q)))
  {
    if !Admissible(q) || !IsByte(q.version) {
      return Err(ValueError);
    }
    var prefix := [0x78] + q.staticLabel + [q.version];
    var w := new BitWriter();
    var head := WriteHead(w, q);
    if head.Err? {
      return Err(head.error);
    }
    WriteTail(w, q);
    var body := w.Bytes();
    HeadFromLeft(q);
    r := Ok(Parts(prefix, body));
  }

  // ---- nothing in the request is lost -------------------------------------------------------

  lemma SameCut(a: Octets, b: Octets, x: Octets, y: Octets)
    requires a + x == b + y && |a| == |b|
    ensures a == b && x == y
  {
    assert a == (a + x)[..|a|] && b == (b + y)[..|b|];
    assert x == (a + x)[|a|..] && y == (b + y)[|b|..];
  }

  lemma SameSpan(a: Octets, b: Octets, x: Octets, y: Octets)
    requires |a| < 256 && |b| < 256 && Span(a) + x == Span(b) + y
    ensures a == b && x == y
  {
    assert (Span(a) + x)[0] == |a| && (Span(b) + y)[0] == |b|;
    SameCut(Span(a), Span(b), x, y);
    assert Span(a)[1..] == a && Span(b)[1..] == b;
  }

  lemma SameField(a: int, b: int, n: nat, x: Octets, y: Octets)
    requires 0 <= a < Pow256(n) && 0 <= b < Pow256(n) && Be(a, n) + x == Be(b, n) + y
    ensures a == b && x == y
  {
    hide Be, FromBe;
    SameCut(Be(a, n), Be(b, n), x, y);
    BeThenFromBe(a, n);
    BeThenFromBe(b, n);
  }

  lemma SameTail(a: Request2, b: Request2)
    requires Admissible(a) && Admissible(b) && Tail(a) == Tail(b)
    ensures
      && a.rupp == b.rupp && a.endpoint == b.endpoint && a.clientValue == b.clientValue && a.mtu == b.mtu
      && a.selector == b.selector && a.identity == b.identity
  {
    hide Be, Span, Pow256;
    Pow256Values();
    var (u, v) := (Span(a.identity), Span(b.identity));
    var (a6, b6) := ([4] + u, [4] + v);
    var (a5, b5) := ([a.selector] + a6, [b.selector] + b6);
    var (a4, b4) := (Be(a.mtu, 2) + a5, Be(b.mtu, 2) + b5);
    var (a3, b3) := (Be(a.clientValue, 8) + a4, Be(b.clientValue, 8) + b4);
    SameSpan(a.rupp, b.rupp, Span(a.endpoint) + a3, Span(b.endpoint) + b3);
    SameSpan(a.endpoint, b.endpoint, a3, b3);
    SameField(a.clientValue, b.clientValue, 8, a4, b4);
    SameField(a.mtu, b.mtu, 2, a5, b5);
    SameCut([a.selector], [b.selector], a6, b6);
    SameCut([4], [4], u, v);
    assert Span(a.identity) + [] == Span(a.identity) && Span(b.identity) + [] == Span(b.identity);
    SameSpan(a.identity, b.identity, [], []);
  }

  /** Two accepted requests with the same prefix and body bytes are the same request. */
  lemma RequestsAreToldApart(a: Request2, b: Request2)
    requires Refusal(a) == None && Refusal(b) == None
    requires Prefix(a) + Body(a) == Prefix(b) + Body(b)
    ensures a == b
  {
    hide Be, Tail, Pow256;
    Pow256Values();
    SameCut(Prefix(a), Prefix(b), Body(a), Body(b));
    SameCut([0x78] + a.staticLabel, [0x78] + b.staticLabel, [a.version], [b.version]);
    SameCut([0x78], [0x78], a.staticLabel, b.staticLabel);
    var (a3, b3) := (a.key + Tail(a), b.key + Tail(b));
    var (a2, b2) := (Be(a.fieldB, 2) + a3, Be(b.fieldB, 2) + b3);
    SameCut([a.reserved], [b.reserved], Be(a.fieldA, 2) + a2, Be(b.fieldA, 2) + b2);
    SameField(a.fieldA, b.fieldA, 2, a2, b2);
    SameField(a.fieldB, b.fieldB, 2, a3, b3);
    SameCut(a.key, b.key, Tail(a), Tail(b));
    SameTail(a, b);
  }
}
