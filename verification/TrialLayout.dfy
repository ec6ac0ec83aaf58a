/**
 * Trial decryption on values: which counters and associated data are tried, and that it opens what the sender seals.
 */
module TrialLayout {
  import opened Results
  import opened Bytes
  import opened EstablishedAead

  // ---- counters -----------------------------------------------------------------------------

  /** The counter starts from the eight letters "UniqueNu", read lowest byte first. */
  lemma BaseLayout()
    ensures COUNTER_BASE == FromLe([0x55, 0x6E, 0x69, 0x71, 0x75, 0x65, 0x4E, 0x75])
  {
    hide FromLe;
    LowFirst(0x55, [0x6E, 0x69, 0x71, 0x75, 0x65, 0x4E, 0x75]);
    assert [0x55] + [0x6E, 0x69, 0x71, 0x75, 0x65, 0x4E, 0x75] == [0x55, 0x6E, 0x69, 0x71, 0x75, 0x65, 0x4E, 0x75];
    LowFirst(0x6E, [0x69, 0x71, 0x75, 0x65, 0x4E, 0x75]);
    assert [0x6E] + [0x69, 0x71, 0x75, 0x65, 0x4E, 0x75] == [0x6E, 0x69, 0x71, 0x75, 0x65, 0x4E, 0x75];
    LowFirst(0x69, [0x71, 0x75, 0x65, 0x4E, 0x75]);
    assert [0x69] + [0x71, 0x75, 0x65, 0x4E, 0x75] == [0x69, 0x71, 0x75, 0x65, 0x4E, 0x75];
    LowFirst(0x71, [0x75, 0x65, 0x4E, 0x75]);
    assert [0x71] + [0x75, 0x65, 0x4E, 0x75] == [0x71, 0x75, 0x65, 0x4E, 0x75];
    LowFirst(0x75, [0x65, 0x4E, 0x75]);
    assert [0x75] + [0x65, 0x4E, 0x75] == [0x75, 0x65, 0x4E, 0x75];
    LowFirst(0x65, [0x4E, 0x75]);
    assert [0x65] + [0x4E, 0x75] == [0x65, 0x4E, 0x75];
    LowestFirst(0x4E, 0x75);
  }

  lemma LowFirst(low: Byte, rest: Octets)
    ensures FromLe([low] + rest) == low as int + 0x100 * FromLe(rest)
  {
    assert ([low] + rest)[1..] == rest;
  }

  /** How far around the extended counter a known stream looks: the span, 32 at most. */
  function Reach(span: int): nat {
    if span <= 0 then 0 else if span >= 32 then 32 else span
  }

  lemma {:induction false} NeighbourAt(first: int, radius: nat, k: nat)
    requires 1 <= k <= radius
    ensures var s := Neighbours(first, radius);
            |s| == 2 * radius + 1 && s[0] == first && s[2 * k - 1] == first - k && s[2 * k] == first + k
    decreases radius
  {
    NeighboursAre(first, radius);
    NeighboursAre(first, radius - 1);
    if k < radius { NeighbourAt(first, radius - 1, k); } else if radius > 1 { NeighbourAt(first, radius - 1, 1); }
  }

  /**
   * On a known stream the counter next to the last one with these 16 bits comes first, and then its neighbours, the
   * lower one before the upper one, up to 32 of each.
   */
  lemma {:induction false} KnownCandidates(hint: int, base: int, span: int, last: int, first: int, k: nat)
    requires 0 <= hint < 0x1_0000 && first % 0x1_0000 == hint && last - 0x8000 <= first < last + 0x8000
    ensures var s := CounterCandidates(hint, base, span, Some(last));
            && |s| == 2 * Reach(span) + 1 && s[0] == first
            && (1 <= k <= Reach(span) ==> s[2 * k - 1] == first - k && s[2 * k] == first + k)
  {
    hide Neighbours, Nearest;
    NearestIsUnique(hint, last, first);
    NeighboursAre(first, Radius(span));
    NeighboursStart(first, Radius(span));
    if 1 <= k <= Radius(span) { NeighbourAt(first, Radius(span), k); }
  }

  lemma NeighboursStart(first: int, radius: nat)
    ensures Neighbours(first, radius) != [] && Neighbours(first, radius)[0] == first
  {
    if radius > 0 { NeighbourAt(first, radius, 1); }
  }

  /** On a fresh stream: the 16 bits alone or within the base's block, counting on from both, `span` of each. */
  lemma {:induction false} FreshCandidates(hint: int, base: int, span: int, c: int)
    requires 0 <= hint < 0x1_0000
    ensures c in CounterCandidates(hint, base, span, None)
       <==> exists n :: 0 <= n < (if span > 1 then span else 1) && FreshTurn(hint, base, c, n)
  {
    hide Anchors, Fresh;
    CandidatesAre(hint, base, span, None);
    var block := base - base % M16 + hint;
    if hint <= c < hint + Scan(span) { assert FreshTurn(hint, base, c, c - hint); }
    if c >= block && (c - block) % M16 == 0 && (c - block) / M16 < Scan(span) {
      assert FreshTurn(hint, base, c, (c - block) / M16);
    }
    forall n | 0 <= n < Scan(span) && FreshTurn(hint, base, c, n) ensures c in CounterCandidates(hint, base, span,
                                                                                                 None) {
      if c == block + n * M16 { Multiple(c - block, n); }
    }
  }

  lemma Multiple(d: int, n: int)
    requires d == n * 0x1_0000 && n >= 0
    ensures d >= 0 && d % 0x1_0000 == 0 && d / 0x1_0000 == n
  {}

  predicate FreshTurn(hint: int, base: int, c: int, n: int) {
    c == hint + n || c == base - base % 0x1_0000 + hint + n * 0x1_0000
  }

  /** The 16 bits alone are tried first, and then those within the base's block. */
  lemma {:induction false} FreshStart(hint: int, base: int, span: int)
    requires 0 <= hint < 0x1_0000
    ensures var (s, block) := (CounterCandidates(hint, base, span, None), base - base % 0x1_0000 + hint);
            && |s| >= 1 && s[0] == hint && (block != hint ==> |s| >= 2 && s[1] == block)
  {
    hide Anchors, Fresh;
    FreshTurns(hint, base - base % 0x1_0000 + hint, Scan(span));
  }

  /** A wider span adds its last turn behind the others, each counter unless it is there already. */
  ghost predicate FreshGrown(hint: int, base: int, span: int) {
    span > 1 ==>
      var (s, less) := (CounterCandidates(hint, base, span, None), CounterCandidates(hint, base, span - 1, None));
      var (low, high) := (hint + span - 1, base - base % 0x1_0000 + hint + (span - 1) * 0x1_0000);
      var more := if low in less then less else less + [low];
      s == if high in more then more else more + [high]
  }

  lemma {:induction false} FreshGrows(hint: int, base: int, span: int)
    requires 0 <= hint < 0x1_0000
    ensures FreshGrown(hint, base, span)
  {
    hide Anchors, Fresh;
    if span > 1 { OneMoreTurn(hint, base - base % 0x1_0000 + hint, span); }
  }

  lemma OneMoreTurn(first: int, block: int, n: nat)
    requires n > 1
    ensures var (less, low, high) := (Fresh(Anchors(first, block, n - 1)), first + (n - 1), block + (n - 1) * 0x1_0000);
            var more := if low in less then less else less + [low];
            Fresh(Anchors(first, block, n)) == if high in more then more else more + [high]
  {
    hide Fresh;
    var (a, low, high) := (Anchors(first, block, n - 1), first + (n - 1), block + (n - 1) * M16);
    assert Anchors(first, block, n) == (a + [low]) + [high];
    FreshLast(a, low);
    FreshLast(a + [low], high);
  }

  lemma FreshLast<T>(values: seq<T>, x: T)
    ensures Fresh(values + [x]) == if x in Fresh(values) then Fresh(values) else Fresh(values) + [x]
  {
    assert (values + [x])[..|values|] == values;
  }

  lemma {:induction false} FreshTurns(first: int, block: int, n: nat)
    requires n >= 1
    ensures var s := Fresh(Anchors(first, block, n));
            && |s| >= 1 && s[0] == first && (block != first ==> |s| >= 2 && s[1] == block)
    decreases n
  {
    hide Fresh;
    if n == 1 {
      FreshNone();
      assert [] + [first] == [first] && [first] + [block] == [first, block];
      FreshLast([], first);
      FreshLast([first], block);
    } else {
      FreshTurns(first, block, n - 1);
      OneMoreTurn(first, block, n);
    }
  }

  // ---- records ----------------------------------------------------------------------------------

  /** Which bytes are a record: its prefix, the two header sizes, the start of the header, and room for the trailer. */
  predicate IsRecord(b: Octets) {
    && |b| >= 7 && b[..3] == [0x01, 0x00, 0x00] && b[3] in {0x17, 0x1F} && |b| >= b[3] + 18
    && b[4] == 0x01 && b[5] == 0x11 && (b[6] == 0x01 || b[6] == 0x02)
  }

  /**
   * Every such byte string is read, and nothing else: header, ciphertext, 16 bits of the counter, lowest first, and
   * tag.
   */
  lemma {:induction false} RecordRead(b: Octets)
    ensures ParseRecord(b) == if !IsRecord(b) then Err(ValueError) else
              var (h, n) := (b[3], |b| - 18);
              Ok(EstablishedDatagram(b[4..h], b[h..n], b[n] as int + 0x100 * b[n + 1] as int, b[n + 2..]))
  {
    hide FromLe;
    if |b| >= 4 && b[..3] == [1, 0, 0] && b[3] in {0x17, 0x1F} && |b| >= b[3] + 18 {
      var (header, body) := (b[4..b[3]], b[b[3]..]);
      assert header[..2] == [b[4], b[5]];
      var n := |body|;
      assert body[..n - 18] == b[b[3]..|b| - 18] && body[n - 16..] == b[|b| - 16..];
      assert body[n - 18..n - 16] == [b[|b| - 18], b[|b| - 17]];
      LowestFirst(b[|b| - 18], b[|b| - 17]);
    }
  }

  lemma LowestFirst(a: Byte, b: Byte)
    ensures FromLe([a, b]) == a as int + 0x100 * b as int
  {
    assert [a, b][1..] == [b] && [b][1..] == [] && FromLe([b]) == b;
  }

  // ---- associated data ------------------------------------------------------------------------

  /** Unless the caller names them: none, the header, and the header behind the four bytes before it. */
  lemma {:induction false} AssociatedData(packet: Octets)
    requires ParseRecord(packet).Ok?
    ensures var header := ParseRecord(packet).value.header;
            && 4 <= packet[3] <= |packet| && header == packet[4..packet[3]]
            && AadCandidates(packet, header, None) == [[], packet[4..packet[3]], packet[..packet[3]]]
  {
    hide FromLe, Fresh;
    var header := ParseRecord(packet).value.header;
    assert packet[..4] + header == packet[..packet[3]];
    ThreeApart([], header, packet[..packet[3]]);
  }

  lemma ThreeApart(a: Octets, b: Octets, c: Octets)
    requires a != b && b != c && a != c
    ensures Fresh([a, b, c]) == [a, b, c]
  {
    hide Fresh;
    assert Fresh<Octets>([]) == [] by { FreshEmpty(); }
    assert [] + [a] == [a] && [a] + [b] == [a, b] && [a, b] + [c] == [a, b, c];
    FreshLast([], a);
    FreshLast([a], b);
    FreshLast([a, b], c);
  }

  lemma FreshEmpty()
    ensures Fresh<Octets>([]) == []
  {}

  /** The key and the counter open the record under some of the associated data. */
  ghost predicate OpensBy(aead: Aead, body: Octets, key: Octets, counter: int, aads: seq<Octets>, text: Octets) {
    Nonce(counter).Ok? && exists aad :: aad in aads && aead.open(key, Nonce(counter).value, body, aad) == Some(text)
  }

  lemma OpensIs(aead: Aead, body: Octets, key: Octets, counter: int, aads: seq<Octets>, text: Octets)
    ensures Opens(aead, key, counter, body, aads, text) <==> OpensBy(aead, body, key, counter, aads, text)
  {
    hide Nonce;
    if a :| a in aads && Attempt(aead, key, counter, body, a) == Some(text) {
      assert aead.open(key, Nonce(counter).value, body, a) == Some(text);
    }
    if OpensBy(aead, body, key, counter, aads, text) {
      var aad :| aad in aads && aead.open(key, Nonce(counter).value, body, aad) == Some(text);
      assert Attempt(aead, key, counter, body, aad) == Some(text);
    }
  }

  /**
   * A record is opened exactly if there is a key, all keys have 32 bytes, and some key, candidate and associated data
   * open it; then the result is that of such a combination.
   */
  lemma {:induction false} OpenedExactly(aead: Aead, b: Octets, keys: seq<Octets>, base: int, span: int,
                                         last: Option<int>)
    requires IsRecord(b)
    ensures ParseRecord(b).Ok?
    ensures var (r, d) := (DecryptRecord(aead, b, keys, base, span, None, last), ParseRecord(b).value);
            var (counters, aads) := (CounterCandidates(d.hint, base, span, last), [[], b[4..b[3]], b[..b[3]]]);
            && (r.Err? ==> r == Err(ValueError))
            && (r.Ok? ==>
                  var found := r.value.found;
                  && found.counter in counters
                  && exists key :: key in keys && OpensBy(aead, d.Body(), key, found.counter, aads, found.plaintext))
            && (r.Ok? <==>
                  && keys != [] && (forall key | key in keys :: |key| == 32)
                  && exists key, c, text :: key in keys && c in counters && OpensBy(aead, d.Body(), key, c, aads, text))
  {
    hide ParseRecord, CounterCandidates, TryKeys, AadCandidates, IsRecord, OpensBy, Opens;
    RecordRead(b);
    AssociatedData(b);
    var (d, aads) := (ParseRecord(b).value, [[], b[4..b[3]], b[..b[3]]]);
    TryKeysIs(aead, keys, CounterCandidates(d.hint, base, span, last), d.Body(), aads);
    forall key, c, text
      ensures Opens(aead, key, c, d.Body(), aads, text) <==> OpensBy(aead, d.Body(), key, c, aads, text)
    {
      OpensIs(aead, d.Body(), key, c, aads, text);
    }
  }

  // ---- from the sender to the receiver ----------------------------------------------------------

  /**
   * When the sender seals: a key, a header of 19 or 27 bytes, and its first three bytes of the second epoch or
   * transition.
   */
  lemma SealsBy(out: Outbound)
    ensures Seals(out) <==>
              && |out.key| > 0 && |out.header| in {19, 27}
              && (out.header[..3] == [0x01, 0x11, 0x02] || (out.transition && out.header[..3] == [0x01, 0x11, 0x01]))
  {
    if |out.header| >= 3 { assert out.header[..3] == out.header[..2] + [out.header[2]]; }
  }

  /**
   * What the sender seals under the n-th counter opens at the receiver that has the key and either knows a counter of
   * the stream within half a wrap or scans far enough: to the same plaintext and counter, without naming
   * associated data.
   */
  lemma {:induction false} SealedIsOpened(aead: Aead, outs: seq<Outbound>, n: nat, setup: Setup, last: Option<int>)
    requires aead.Sized() && n < |outs| && SealedAt(aead, outs, n)
    requires KeysUsable(setup.keys) && outs[n].key in setup.keys && setup.explicit.None?
    requires var c := CounterAfter(aead, outs[..n]);
             match last
             case Some(l) => l - 0x8000 <= c < l + 0x8000
             case None => setup.base - setup.base % 0x1_0000 <= c
                          < setup.base - setup.base % 0x1_0000 + (if setup.span > 1 then setup.span else 1) * 0x1_0000
    ensures var wire := Transmit(aead, CounterAfter(aead, outs[..n]), outs[n]).wire; wire.Ok? && wire.value.Sealed?
    ensures var packet := Transmit(aead, CounterAfter(aead, outs[..n]), outs[n]).wire.value.packet;
            && ParseRecord(packet).Ok? && |packet| >= packet[3] >= 4
            && (aead.Ideal(setup.keys, [[], packet[4..packet[3]], packet[..packet[3]]]) ==>
                  var r := DecryptRecord(aead, packet, setup.keys, setup.base, setup.span, None, last);
                  r.Ok? && r.value.found == Opened(outs[n].plaintext, CounterAfter(aead, outs[..n])))
  {
    hide ParseRecord, DecryptRecord, AadCandidates, CounterCandidates, EncryptRecord, CounterAfter, KeysUsable, Seals;
    var (c, out) := (CounterAfter(aead, outs[..n]), outs[n]);
    var packet := Transmit(aead, c, out).wire.value.packet;
    var g := Genuine(out.header, out.plaintext, out.key, c, []);
    ParseInvertsEncrypt(aead, out.header, out.plaintext, out.key, c, []);
    AssociatedData(packet);
    if last.None? { FreshEpochIsCovered(setup, c); }
    WindowIsCandidate(setup, last, c);
    if aead.Ideal(setup.keys, [[], packet[4..packet[3]], packet[..packet[3]]]) {
      GenuineIsRecovered(aead, setup, g, packet, last);
    }
  }
}
