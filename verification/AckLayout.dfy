/** Datagrams and acknowledgements by their bytes: which first bytes are which kind, and what a record says. */
module AckLayout {
  import opened Results
  import opened Bytes
  import opened RaknetCodec
  import opened FrameLayout
  import opened Replication

  // ---- kinds of datagrams -----------------------------------------------------------------------

  /** The sender's own parser takes first bytes 0x80 to 0x8F, a sequence number lowest byte first, and whole frames. */
  lemma ConnectedKinds(data: Octets)
    ensures ParseConnected(data).Ok? <==> |data| >= 4 && 0x80 <= data[0] <= 0x8F && ParseFrames(data[4..]).Ok?
    ensures ParseConnected(data).Ok? ==>
              ParseConnected(data).value == Datagram(Read24(data, 1), ParseFrames(data[4..]).value)
  {
    hide FromLe, ParseFrames;
    if |data| >= 4 { SequenceRead(data); }
  }

  lemma SequenceRead(data: Octets)
    requires |data| >= 4
    ensures FromLe(data[1..4]) == Read24(data, 1)
  {
    hide FromLe;
    FromLe24(data[1..]);
    assert data[1..][..3] == data[1..4];
  }

  /** The receiver takes 0x40 to 0x7F and 0xC0 to 0xFF as acknowledgements unread, and 0x80 to 0xBF as data. */
  lemma DatagramKinds(data: Octets)
    ensures data != [] && (0x40 <= data[0] < 0x80 || data[0] >= 0xC0) ==> ParseDatagram(data) == Ok(AckPacket(data[0]))
    ensures data == [] || data[0] < 0x40 ==> ParseDatagram(data) == Err(ValueError)
    ensures data != [] && 0x80 <= data[0] < 0xC0 ==>
              ParseDatagram(data) == if |data| < 4 || ParseFrames(data[4..]).Err? then Err(ValueError)
                                     else Ok(DataPacket(data[0], Read24(data, 1), ParseFrames(data[4..]).value))
  {
    hide FromLe, ParseFrames;
    if |data| >= 4 { SequenceRead(data); }
  }

  /** Bytes that are whole frames, and more bytes behind them: the frames, and then those of the rest. */
  lemma {:induction false} FramesTogether(a: Octets, b: Octets)
    requires ParseFrames(a).Ok?
    ensures ParseFrames(a + b) == if ParseFrames(b).Err? then Err(ValueError)
                                  else Ok(ParseFrames(a).value + ParseFrames(b).value)
    decreases |a|
  {
    hide Decode;
    if a == [] {
      assert a + b == b;
      if ParseFrames(b).Ok? { assert [] + ParseFrames(b).value == ParseFrames(b).value; }
    } else {
      var n := Decode(a).value.wireSize;
      FramesTogether(a[n..], b);
      MoreBehind(a, b);
      assert (a + b)[n..] == a[n..] + b;
      if ParseFrames(b).Ok? {
        var (first, more) := ([Decode(a).value.frame], ParseFrames(a[n..]).value);
        assert first + (more + ParseFrames(b).value) == (first + more) + ParseFrames(b).value;
      }
    }
  }

  /** A frame is read alike whatever follows it. */
  lemma {:induction false} MoreBehind(a: Octets, b: Octets)
    requires Decode(a).Ok?
    ensures Decode(a + b) == Decode(a)
  {
    hide FromLe, FromBe, ReadIndices, ReadSplit;
    var (mode, flag) := (a[0] / 32, a[0] / 16 % 2 == 1);
    assert (a + b)[3..] == a[3..] + b && (a + b)[1..3] == a[1..3];
    IndicesBehind(mode, a[3..], b);
    var indices := ReadIndices(mode, a[3..]).value;
    SplitBehind(flag, indices.rest, b);
    var split := ReadSplit(flag, indices.rest).value;
    var size := (FromBe(a[1..3]) + 7) / 8;
    assert (split.rest + b)[..size] == split.rest[..size];
  }

  lemma IndicesBehind(mode: int, data: Octets, b: Octets)
    requires ReadIndices(mode, data).Ok?
    ensures ReadIndices(mode, data + b)
         == Ok(Cut(ReadIndices(mode, data).value.value, ReadIndices(mode, data).value.rest + b))
  {
    hide ReadIf;
    ReadIfBehind(Reliable(mode), data, b);
    var message := ReadIf(Reliable(mode), data).value;
    ReadIfBehind(Sequenced(mode), message.rest, b);
    var sequencing := ReadIf(Sequenced(mode), message.rest).value;
    ReadIfBehind(Ordered(mode), sequencing.rest, b);
    var order := ReadIf(Ordered(mode), sequencing.rest).value;
    if Ordered(mode) { assert (order.rest + b)[1..] == order.rest[1..] + b; }
  }

  lemma ReadIfBehind(present: bool, data: Octets, b: Octets)
    requires ReadIf(present, data).Ok?
    ensures ReadIf(present, data + b) == Ok(Cut(ReadIf(present, data).value.value,
                                                ReadIf(present, data).value.rest + b))
  {
    if present { assert (data + b)[..3] == data[..3] && (data + b)[3..] == data[3..] + b; }
  }

  lemma SplitBehind(present: bool, data: Octets, b: Octets)
    requires ReadSplit(present, data).Ok?
    ensures ReadSplit(present, data + b)
         == Ok(Cut(ReadSplit(present, data).value.value, ReadSplit(present, data).value.rest + b))
  {
    hide FromBe;
    if present {
      var d := data + b;
      assert d[..4] == data[..4] && d[4..6] == data[4..6] && d[6..10] == data[6..10] && d[10..] == data[10..] + b;
    }
  }

  /** Bytes that do not begin with a frame make the whole datagram unreadable. */
  lemma NoFrame(data: Octets)
    requires data != [] && Decode(data).Err?
    ensures ParseFrames(data) == Err(ValueError)
  {
    hide Decode;
  }

  // ---- acknowledgements ---------------------------------------------------------------------------

  /** The seven bytes of the ACK of one datagram. */
  lemma {:induction false} BuiltAck(q: int)
    ensures BuildAck(q)
         == if q < 0 || q >= 0x100_0000 then Err(ValueError)
            else Ok([0xC0, 0, 1, 1, q % 0x100, q / 0x100 % 0x100, q / 0x1_0000])
  {
    hide Le, Be;
    if 0 <= q < 0x100_0000 {
      ThreeBytes(q);
      TwoBytes(1);
      assert q / 0x1_0000 % 0x100 == q / 0x1_0000 && Be(1, 2) == [0, 1];
      assert BuildAck(q).value == [0xC0, 0, 1, 1, q % 0x100, q / 0x100 % 0x100, q / 0x1_0000];
    }
  }

  /** The first bytes of an acknowledgement; only 0xD0 and 0xB0 may end in six bytes more. */
  predicate Acknowledges(kind: Byte, metrics: Octets) {
    kind in {0xA0, 0xB0, 0xC0, 0xD0} && (metrics == [] || (|metrics| == 6 && kind in {0xB0, 0xD0}))
  }

  /** One record with any nonzero marker names one number. */
  lemma {:induction false} OneNumber(kind: Byte, marker: Byte, q: nat, metrics: Octets)
    requires Acknowledges(kind, metrics) && marker != 0 && q < 0x100_0000
    ensures ParseAck([kind, 0, 1, marker, q % 0x100, q / 0x100 % 0x100, q / 0x1_0000 % 0x100] + metrics) == Ok([q])
  {
    hide ParseAck, Le, Be;
    var records := [Single(marker, q)];
    AckMeaning(kind, records, metrics);
    OneMeans(Single(marker, q));
    assert Range(q, q) == [q];
    ThreeBytes(q);
    TwoBytes(1);
    assert AckBytes(kind, records, metrics)
        == [kind, 0, 1, marker, q % 0x100, q / 0x100 % 0x100, q / 0x1_0000 % 0x100] + metrics;
  }

  lemma OneMeans(r: Record)
    ensures RecordListBytes([r]) == RecordBytes(r)
    ensures Meaning([r]) == if Bounds(r).None? then None else Some(Range(Bounds(r).value.first, Bounds(r).value.last))
  {
    hide RecordBytes, Bounds, Range;
    assert [r][1..] == [] && RecordBytes(r) + [] == RecordBytes(r) && Meaning([]) == Some([]);
    if Bounds(r).Some? {
      var range := Range(Bounds(r).value.first, Bounds(r).value.last);
      assert range + [] == range;
    }
  }

  /** One record with marker 0 names all numbers from the first to the last, unless they run down or are too many. */
  lemma {:induction false} OneRange(kind: Byte, a: nat, z: nat, metrics: Octets)
    requires Acknowledges(kind, metrics) && a < 0x100_0000 && z < 0x100_0000
    ensures var list := ParseAck([kind, 0, 1, 0, a % 0x100, a / 0x100 % 0x100, a / 0x1_0000 % 0x100,
                                  z % 0x100, z / 0x100 % 0x100, z / 0x1_0000 % 0x100] + metrics);
            if z < a || z - a >= 0x1_0000 then list == Err(ValueError)
            else list.Ok? && |list.value| == z - a + 1 && forall i | 0 <= i < |list.value| :: list.value[i] == a + i
  {
    hide ParseAck, Le, Be;
    var records := [Span(a, z)];
    AckMeaning(kind, records, metrics);
    OneMeans(Span(a, z));
    ThreeBytes(a);
    ThreeBytes(z);
    TwoBytes(1);
    assert AckBytes(kind, records, metrics)
        == [kind, 0, 1, 0, a % 0x100, a / 0x100 % 0x100, a / 0x1_0000 % 0x100,
            z % 0x100, z / 0x100 % 0x100, z / 0x1_0000 % 0x100] + metrics;
  }

  /** Any other first byte is refused. */
  lemma OtherKinds(data: Octets)
    requires data == [] || data[0] !in {0xA0, 0xB0, 0xC0, 0xD0}
    ensures ParseAck(data) == Err(ValueError)
  {
    hide ParseRecords, FromBe;
  }

  /** So are bytes behind the records, unless there are six of them behind 0xB0 or 0xD0. */
  lemma {:induction false} TrailingBytes(kind: Byte, records: seq<Record>, rest: Octets)
    requires |records| < 0x1_0000 && (forall r | r in records :: WireRecord(r))
    requires rest != [] && !(|rest| == 6 && kind in {0xB0, 0xD0})
    ensures ParseAck(AckBytes(kind, records, rest)) == Err(ValueError)
  {
    hide Be, FromBe, Pow256, ParseRecords, RecordListBytes, WireRecord, Meaning;
    var data := AckBytes(kind, records, rest);
    Pow256Values();
    BeThenFromBe(|records|, 2);
    assert data[1..3] == Be(|records|, 2) && data[3..] == RecordListBytes(records) + rest;
    RecordsMean(records, rest, 0);
  }

  /** Records one after the other, behind their number in two bytes, the higher first. */
  lemma {:induction false} RecordsLayout(kind: Byte, records: seq<Record>, metrics: Octets)
    requires |records| < 0x1_0000
    ensures AckBytes(kind, records, metrics)
         == [kind, |records| / 0x100, |records| % 0x100] + (RecordListBytes(records) + metrics)
  {
    hide Be, RecordListBytes;
    TwoBytes(|records|);
  }
}
