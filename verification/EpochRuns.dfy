/**
 * Established records on their bytes: where the fields stand, which packets belong to one stream, and recovery over
 * runs in which streams are told apart by those bytes.
 */
module EpochRuns {
  import opened Results
  import opened Bytes
  import opened EstablishedAead

  // ---- the bytes of a record ----------------------------------------------------------------

  lemma LowBytes(v: nat)
    ensures Le(v % M16, 2) == [v % 256, v / 256 % 256]
  {
    hide Le;
    TwoBytes(v % M16);
    assert v / 256 == v % M16 / 256 + 256 * (v / M16);
  }

  /** Prefix, header size, header, ciphertext, two bytes of the counter, lowest first, and the 16-byte tag. */
  lemma {:induction false} RecordLayout(aead: Aead, header: Octets, plaintext: Octets, key: Octets, counter: int,
                                        aad: Octets)
    requires aead.Sized() && EncryptRecord(aead, header, plaintext, key, counter, aad).Ok?
    ensures |key| == 32 && 0 <= counter < M64 && (|header| == 19 || |header| == 27)
    ensures var (packet, h) := (EncryptRecord(aead, header, plaintext, key, counter, aad).value, |header|);
            var sealed := aead.seal(key, Nonce(counter).value, plaintext, aad);
            var n := |plaintext|;
            && |packet| == h + n + 22 && packet[..3] == [1, 0, 0] && packet[3] == h + 4
            && packet[4..h + 4] == header && packet[h + 4..h + 4 + n] == sealed[..n]
            && packet[h + 4 + n] == counter % 256 && packet[h + 5 + n] == counter / 256 % 256
            && packet[h + 6 + n..] == sealed[n..]
  {
    hide Le, KnownPrefix;
    var (packet, h) := (EncryptRecord(aead, header, plaintext, key, counter, aad).value, |header|);
    var sealed := aead.seal(key, Nonce(counter).value, plaintext, aad);
    var n := |plaintext|;
    LowBytes(counter);
    var front: Octets := [1, 0, 0, 4 + h];
    var low: Octets := [counter % 256, counter / 256 % 256];
    assert |sealed| == n + 16;
    assert packet == front + header + sealed[..n] + low + sealed[n..];
    FiveParts(front, header, sealed[..n], low, sealed[n..]);
  }

  lemma FiveParts(a: Octets, b: Octets, c: Octets, d: Octets, e: Octets)
    requires |a| == 4 && |d| == 2
    ensures var (s, h, n) := (a + b + c + d + e, 4 + |b|, 4 + |b| + |c|);
            && |s| == n + 2 + |e| && s[..3] == a[..3] && s[3] == a[3] && s[4..h] == b && s[h..n] == c
            && s[n] == d[0] && s[n + 1] == d[1] && s[n + 2..] == e
  {}

  /** The nonce: the counter in eight bytes, lowest first, and the four letters "mbeR". */
  lemma {:induction false} NonceLayout(counter: int)
    requires 0 <= counter < M64
    ensures Nonce(counter).Ok? && |Nonce(counter).value| == 12
    ensures var (b, high) := (Nonce(counter).value, counter / 0x1_0000_0000);
            && b[..4] == [counter % 256, counter / 0x100 % 256, counter / 0x1_0000 % 256, counter / 0x100_0000 % 256]
            && b[4..8] == [high % 256, high / 0x100 % 256, high / 0x1_0000 % 256, high / 0x100_0000 % 256]
            && b[8..] == [0x6D, 0x62, 0x65, 0x52]
  {
    hide Le;
    assert Nonce(counter).value == Le(counter, 8) + [0x6D, 0x62, 0x65, 0x52];
    EightBytes(counter);
    FourBytes(counter);
    FourBytes(counter / 0x1_0000_0000);
  }

  // ---- streams ------------------------------------------------------------------------------

  /** The header size and the epoch: sixteen bytes behind the prefix of the header. */
  predicate SameBytes(a: Octets, b: Octets) {
    |a| >= 23 && |b| >= 23 && a[3] == b[3] && a[7..23] == b[7..23]
  }

  lemma StreamBytes(packet: Octets)
    requires ParseRecord(packet).Ok?
    ensures |packet| >= 41 && StreamOf(packet) == StreamId(packet[3], packet[7..23])
  {
    hide FromLe;
    var header := ParseRecord(packet).value.header;
    assert header == packet[4..packet[3]] && header[3..19] == packet[7..23];
  }

  /** Two records belong to one stream exactly when they agree in those bytes. */
  lemma {:induction false} StreamsByBytes(a: Octets, b: Octets)
    requires ParseRecord(a).Ok? && ParseRecord(b).Ok?
    ensures StreamOf(a) == StreamOf(b) <==> SameBytes(a, b)
  {
    hide ParseRecord, StreamOf;
    StreamBytes(a);
    StreamBytes(b);
  }

  /** The counter of the last genuine record that agrees with the packet in the bytes of its stream. */
  function LastAlike(arrivals: seq<Incoming>, packet: Octets): Option<int> {
    if arrivals == [] then None else
    var (front, last) := (arrivals[..|arrivals| - 1], arrivals[|arrivals| - 1]);
    if last.FromPeer? && SameBytes(last.packet, packet) then Some(last.record.counter) else LastAlike(front, packet)
  }

  /** A genuine record within half a wrap of the last one alike, or the first alike and a fresh candidate; or noise. */
  ghost predicate ExpectedByBytes(aead: Aead, ring: Keyring, before: seq<Incoming>, arrival: Incoming) {
    match arrival
    case FromPeer(g, packet) =>
      && |packet| >= 23
      && var setup := ring(StreamId(packet[3], packet[7..23]));
      && g.Sent(aead, packet) && Decidable(aead, setup, g, packet)
      && var last := LastAlike(before, packet);
      if last.Some? then last.value - 0x8000 <= g.counter < last.value + 0x8000 else FreshCandidate(setup, g.counter)
    case Noise(packet) =>
      || ParseRecord(packet).Err?
      || (|packet| >= 23
          && var setup := ring(StreamId(packet[3], packet[7..23]));
          DecryptRecord(aead, packet, setup.keys, setup.base, setup.span, setup.explicit,
                        LastAlike(before, packet)).Err?)
  }

  /** The counter is its own 16 wire bits and a little more, or sits in one of the scanned blocks above the base. */
  predicate FreshCandidate(setup: Setup, c: int) {
    exists n :: 0 <= n < (if setup.span > 1 then setup.span else 1) && FreshAt(setup, c, n)
  }

  predicate FreshAt(setup: Setup, c: int, n: int) {
    c == c % 0x1_0000 + n || c == setup.base - setup.base % 0x1_0000 + c % 0x1_0000 + n * 0x1_0000
  }

  ghost predicate OrderlyByBytes(aead: Aead, ring: Keyring, arrivals: seq<Incoming>) {
    forall i | 0 <= i < |arrivals| :: ExpectedByBytes(aead, ring, arrivals[..i], arrivals[i])
  }

  lemma FreshAtIs(setup: Setup, c: int, n: nat)
    requires n < Scan(setup.span) && FreshAt(setup, c, n)
    ensures c in CounterCandidates(c % M16, setup.base, setup.span, None)
  {
    var block := setup.base - setup.base % M16 + c % M16;
    CandidatesAre(c % M16, setup.base, setup.span, None);
    if c == block + n * M16 { BlockCount(c - block, n); }
  }

  lemma BlockCount(d: int, n: nat)
    requires d == n * M16
    ensures d >= 0 && d % M16 == 0 && d / M16 == n
  {}

  lemma GenuineParses(aead: Aead, g: Genuine, packet: Octets)
    requires g.Sent(aead, packet)
    ensures ParseRecord(packet).Ok?
  {
    hide ParseRecord, EncryptRecord;
    ParseInvertsEncrypt(aead, g.header, g.plaintext, g.key, g.counter, g.aad);
  }

  /** The bytes tell the streams apart as the receiver does. */
  lemma {:induction false} LastAlikeIs(aead: Aead, arrivals: seq<Incoming>, packet: Octets)
    requires ParseRecord(packet).Ok?
    requires forall a | a in arrivals && a.FromPeer? :: ParseRecord(a.packet).Ok?
    ensures LastGenuine(arrivals, StreamOf(packet)) == LastAlike(arrivals, packet)
    decreases |arrivals|
  {
    hide ParseRecord, StreamOf, SameBytes;
    if arrivals != [] {
      var n := |arrivals| - 1;
      assert arrivals[n] in arrivals;
      LastAlikeIs(aead, arrivals[..n], packet);
      if arrivals[n].FromPeer? { StreamsByBytes(arrivals[n].packet, packet); }
    }
  }

  lemma ExpectedGenuineParses(aead: Aead, ring: Keyring, arrivals: seq<Incoming>, a: Incoming)
    requires OrderlyByBytes(aead, ring, arrivals) && a in arrivals && a.FromPeer?
    ensures ParseRecord(a.packet).Ok?
  {
    hide ParseRecord, Decidable;
    var i :| 0 <= i < |arrivals| && arrivals[i] == a;
    assert ExpectedByBytes(aead, ring, arrivals[..i], arrivals[i]);
    GenuineParses(aead, a.record, a.packet);
  }

  lemma {:induction false} ExpectedIsExpected(aead: Aead, ring: Keyring, before: seq<Incoming>, arrival: Incoming)
    requires ExpectedByBytes(aead, ring, before, arrival)
    requires forall a | a in before && a.FromPeer? :: ParseRecord(a.packet).Ok?
    ensures ExpectedAfter(aead, ring, before, arrival)
  {
    hide ParseRecord, StreamOf, Decidable, CounterCandidates, LastAlike, LastGenuine;
    var packet := arrival.packet;
    if arrival.FromPeer? { GenuineParses(aead, arrival.record, packet); }
    if ParseRecord(packet).Ok? {
      StreamBytes(packet);
      LastAlikeIs(aead, before, packet);
      if arrival.FromPeer? && LastAlike(before, packet).None? {
        var setup := ring(StreamOf(packet));
        var n :| 0 <= n < Scan(setup.span) && FreshAt(setup, arrival.record.counter, n);
        FreshAtIs(setup, arrival.record.counter, n);
      }
    }
  }

  lemma {:induction false} OrderlyEitherWay(aead: Aead, ring: Keyring, arrivals: seq<Incoming>)
    requires OrderlyByBytes(aead, ring, arrivals)
    ensures Orderly(aead, ring, arrivals)
  {
    hide ExpectedAfter, ExpectedByBytes, ParseRecord;
    forall i | 0 <= i < |arrivals| ensures ExpectedAfter(aead, ring, arrivals[..i], arrivals[i]) {
      forall a | a in arrivals[..i] && a.FromPeer? ensures ParseRecord(a.packet).Ok? {
        assert a in arrivals;
        ExpectedGenuineParses(aead, ring, arrivals, a);
      }
      ExpectedIsExpected(aead, ring, arrivals[..i], arrivals[i]);
    }
  }

  /**
   * Over every run in which genuine counters move by less than half a wrap among packets that agree in byte 3 and in
   * bytes 7 to 22, each genuine record yields its own plaintext and its 64-bit counter.
   */
  lemma {:induction false} RecoveredByBytes(aead: Aead, ring: Keyring, arrivals: seq<Incoming>, i: nat)
    requires OrderlyByBytes(aead, ring, arrivals) && i < |arrivals| && arrivals[i].FromPeer?
    ensures var r := Attempted(aead, ring, ReceiveAll(aead, ring, Packets(arrivals)[..i]), arrivals[i].packet);
            r.Ok? && r.value.found == Opened(arrivals[i].record.plaintext, arrivals[i].record.counter)
  {
    hide OrderlyByBytes, Orderly, Attempted, ReceiveAll;
    OrderlyEitherWay(aead, ring, arrivals);
    EveryGenuineIsRecovered(aead, ring, arrivals, i);
  }

  lemma {:induction false} NobodyAlike(arrivals: seq<Incoming>, packet: Octets)
    requires forall a | a in arrivals && a.FromPeer? :: !SameBytes(a.packet, packet)
    ensures LastAlike(arrivals, packet) == None
    decreases |arrivals|
  {
    hide SameBytes;
    if arrivals != [] {
      assert arrivals[|arrivals| - 1] in arrivals;
      NobodyAlike(arrivals[..|arrivals| - 1], packet);
    }
  }

  /**
   * The first record of an epoch is recovered from its 16 wire bits alone, wherever the counters of all other epochs
   * and of the other direction stand.
   */
  lemma {:induction false} NewEpochIsRecovered(aead: Aead, ring: Keyring, before: seq<Incoming>, g: Genuine,
                                               packet: Octets)
    requires OrderlyByBytes(aead, ring, before) && g.Sent(aead, packet) && |packet| >= 23
    requires Decidable(aead, ring(StreamId(packet[3], packet[7..23])), g, packet)
    requires forall a | a in before && a.FromPeer? :: !SameBytes(a.packet, packet)
    requires 0 <= g.counter < 0x1_0000
    ensures var r := Attempted(aead, ring, ReceiveAll(aead, ring, Packets(before)), packet);
            r.Ok? && r.value.found == Opened(g.plaintext, g.counter)
  {
    hide Attempted, ReceiveAll, Decidable, SameBytes;
    var (n, all) := (|before|, before + [FromPeer(g, packet)]);
    NobodyAlike(before, packet);
    assert FreshAt(ring(StreamId(packet[3], packet[7..23])), g.counter, 0);
    assert all[..n] == before && Packets(all)[..n] == Packets(before);
    forall i | 0 <= i < |all| ensures ExpectedByBytes(aead, ring, all[..i], all[i]) {
      if i < n {
        assert all[..i] == before[..i];
        assert ExpectedByBytes(aead, ring, before[..i], before[i]);
      }
    }
    RecoveredByBytes(aead, ring, all, n);
  }
}
