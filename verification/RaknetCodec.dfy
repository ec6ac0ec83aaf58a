/** The encapsulated-frame codec, the connected datagram and the ACK record list. */
module RaknetCodec {
  import opened Results
  import opened Bytes

  predicate Reliable(mode: int) { 2 <= mode <= 4 || 6 <= mode <= 7 }
  predicate Ordered(mode: int) { mode == 1 || mode == 3 || mode == 4 || mode == 7 }
  predicate Sequenced(mode: int) { mode == 1 || mode == 4 }

  datatype Frame = Frame(
    payload: Octets,
    reliable: bool,
    ordered: bool,
    messageIndex: int,
    orderIndex: int,
    orderChannel: int,
    sequencingIndex: int,
    splitCount: int,
    splitId: int,
    splitIndex: int,
    mode: Option<int>)
  {
    predicate Split() { splitCount > 0 }

    /** The explicit reliability mode, or the one the two flags imply. */
    function EffectiveMode(): int {
      match mode
      case Some(m) => m
      case None => if reliable && ordered then 3 else if reliable then 2 else 0
    }
  }

  /** A frame outside any split group. */
  function Whole(payload: Octets, reliable: bool, ordered: bool, messageIndex: int, orderIndex: int,
                 channel: int): Frame {
    Frame(payload, reliable, ordered, messageIndex, orderIndex, channel, 0, 0, 0, 0, None)
  }

  datatype Decoded = Decoded(frame: Frame, wireSize: nat)

  // ---- encoding -------------------------------------------------------------

  function MessageField(f: Frame): Octets {
    if Reliable(f.EffectiveMode()) then Le(f.messageIndex % M24, 3) else []
  }

  function SequencingField(f: Frame): Octets {
    if Sequenced(f.EffectiveMode()) then Le(f.sequencingIndex % M24, 3) else []
  }

  function OrderField(f: Frame): Octets {
    if Ordered(f.EffectiveMode()) then Le(f.orderIndex % M24, 3) + [f.orderChannel % 256] else []
  }

  function SplitField(f: Frame): Octets
    requires f.Split() ==> 0 <= f.splitIndex
  {
    if f.Split() then Be(f.splitCount, 4) + Be(f.splitId % 0x1_0000, 2) + Be(f.splitIndex, 4) else []
  }

  /** Reliability in the top three bits, the split flag in bit 4, then the payload size in bits. */
  function Head(f: Frame): (h: Octets)
    requires 0 <= f.EffectiveMode() < 8
    ensures |h| == 3
  {
    [f.EffectiveMode() * 32 + if f.Split() then 16 else 0] + Be(|f.payload| * 8, 2)
  }

  function Encode(f: Frame): Result<Octets> {
    var mode := f.EffectiveMode();
    if !(0 <= mode < 8) then Err(ValueError)
    else if |f.payload| * 8 > 0xFFFF then Err(StructError)
    else if f.Split() && !(f.splitCount <= 0xFFFF_FFFF && 0 <= f.splitIndex < f.splitCount) then Err(ValueError)
    else
      Ok(Head(f) + MessageField(f) + SequencingField(f) + OrderField(f) + SplitField(f) + f.payload)
  }

  method EncodeFrame(f: Frame) returns (r: Result<Octets>)
    ensures r == Encode(f)
  {
    hide Le, Be;
    var mode := f.EffectiveMode();
    if !(0 <= mode < 8) {
      return Err(ValueError);
    }
    if |f.payload| * 8 > 0xFFFF {
      return Err(StructError);
    }
    var header := Head(f);
    if Reliable(mode) {
      header := header + Le(f.messageIndex % M24, 3);
    }
    assert header == Head(f) + MessageField(f);
    ghost var sofar := header;
    if Sequenced(mode) {
      header := header + Le(f.sequencingIndex % M24, 3);
    }
    assert header == sofar + SequencingField(f);
    sofar := header;
    if Ordered(mode) {
      header := header + (Le(f.orderIndex % M24, 3) + [f.orderChannel % 256]);
    }
    assert header == sofar + OrderField(f);
    sofar := header;
    if f.Split() {
      if !(0 < f.splitCount <= 0xFFFF_FFFF) {
        return Err(ValueError);
      }
      if !(0 <= f.splitIndex < f.splitCount) {
        return Err(ValueError);
      }
      header := header + (Be(f.splitCount, 4) + Be(f.splitId % 0x1_0000, 2) + Be(f.splitIndex, 4));
    }
    assert header == sofar + SplitField(f);
    r := Ok(header + f.payload);
  }

  // ---- decoding -------------------------------------------------------------

  function ReadIf(present: bool, data: Octets): (r: Result<Cut<nat>>)
    ensures r.Err? ==> r.error == ValueError
    ensures r.Ok? ==> |r.value.rest| <= |data|
  {
    if present then TakeLe(data, 3) else Ok(Cut(0, data))
  }

  datatype Indices = Indices(message: nat, sequencing: nat, order: nat, channel: nat)

  /** The index fields that the reliability mode calls for. */
  function ReadIndices(mode: int, data: Octets): (r: Result<Cut<Indices>>)
    ensures r.Err? ==> r.error == ValueError
    ensures r.Ok? ==> |r.value.rest| <= |data|
  {
    var message :- ReadIf(Reliable(mode), data);
    var sequencing :- ReadIf(Sequenced(mode), message.rest);
    var order :- ReadIf(Ordered(mode), sequencing.rest);
    if !Ordered(mode) then Ok(Cut(Indices(message.value, sequencing.value, 0, 0), order.rest))
    else if order.rest == [] then Err(ValueError)
    else Ok(Cut(Indices(message.value, sequencing.value, order.value, order.rest[0]), order.rest[1..]))
  }

  datatype SplitHeader = SplitHeader(count: nat, id: nat, index: nat)

  function ReadSplit(present: bool, data: Octets): (r: Result<Cut<SplitHeader>>)
    ensures r.Err? ==> r.error == ValueError
    ensures r.Ok? ==> |r.value.rest| <= |data|
  {
    if !present then Ok(Cut(SplitHeader(0, 0, 0), data))
    else if |data| < 10 then Err(ValueError)
    else
      var h := SplitHeader(FromBe(data[..4]), FromBe(data[4..6]), FromBe(data[6..10]));
      if h.count == 0 || h.index >= h.count then Err(ValueError) else Ok(Cut(h, data[10..]))
  }

  function Decode(data: Octets): (r: Result<Decoded>)
    ensures r.Err? ==> r.error == ValueError
    ensures r.Ok? ==> 0 < r.value.wireSize <= |data|
  {
    if |data| < 3 then Err(ValueError) else
    var mode := data[0] / 32;
    var size := (FromBe(data[1..3]) + 7) / 8;
    var indices :- ReadIndices(mode, data[3..]);
    var split :- ReadSplit(data[0] / 16 % 2 == 1, indices.rest);
    if |split.rest| < size then Err(ValueError) else
    Ok(Decoded(
      Received(mode, indices.value, split.value, split.rest[..size]),
      |data| - |split.rest| + size))
  }

  function Received(mode: int, i: Indices, s: SplitHeader, payload: Octets): Frame {
    Frame(payload, Reliable(mode), Ordered(mode), i.message, i.order, i.channel, i.sequencing,
          s.count, s.id, s.index, Some(mode))
  }

  /** The index fields behind the first three bytes, and the offset after them. */
  method ReadIndexFields(data: Octets, mode: int) returns (r: Result<Indices>, offset: nat)
    requires |data| >= 3
    ensures 3 <= offset <= |data|
    ensures ReadIndices(mode, data[3..])
         == if r.Err? then Err(r.error) else Ok(Cut(r.value, data[offset..]))
  {
    hide FromLe;
    offset := 3;
    var message, order, channel, sequencing := 0, 0, 0, 0;
    if Reliable(mode) {
      if offset + 3 > |data| {
        return Err(ValueError), offset;
      }
      message := FromLe(data[offset..][..3]);
      offset := offset + 3;
    }
    assert ReadIf(Reliable(mode), data[3..]) == Ok(Cut(message, data[offset..]));
    ghost var afterMessage := data[offset..];
    if Sequenced(mode) {
      if offset + 3 > |data| {
        return Err(ValueError), offset;
      }
      sequencing := FromLe(data[offset..][..3]);
      offset := offset + 3;
    }
    assert ReadIf(Sequenced(mode), afterMessage) == Ok(Cut(sequencing, data[offset..]));
    if Ordered(mode) {
      if offset + 3 > |data| {
        return Err(ValueError), offset;
      }
      order := FromLe(data[offset..][..3]);
      assert data[offset..][3..] == data[offset + 3..];
      offset := offset + 3;
      if offset >= |data| {
        return Err(ValueError), offset;
      }
      channel := data[offset];
      assert data[offset..][1..] == data[offset + 1..];
      offset := offset + 1;
    }
    r := Ok(Indices(message, sequencing, order, channel));
  }

  method DecodeFrame(data: Octets) returns (r: Result<Decoded>)
    ensures r == Decode(data)
  {
    hide FromLe, FromBe, ReadIndices;
    if |data| < 3 {
      return Err(ValueError);
    }
    var flags := data[0];
    var bitLength := FromBe(data[1..3]);
    var mode := flags / 32;
    var indices, offset := ReadIndexFields(data, mode);
    if indices.Err? {
      return Err(ValueError);
    }
    var split := SplitHeader(0, 0, 0);
    if flags / 16 % 2 == 1 {
      if offset + 10 > |data| {
        return Err(ValueError);
      }
      var fields := data[offset..];
      split := SplitHeader(FromBe(fields[..4]), FromBe(fields[4..6]), FromBe(fields[6..10]));
      assert fields[10..] == data[offset + 10..];
      offset := offset + 10;
      if split.count == 0 || split.index >= split.count {
        return Err(ValueError);
      }
    }
    var size := (bitLength + 7) / 8;
    if |data| - offset < size {
      return Err(ValueError);
    }
    r := Ok(Decoded(Received(mode, indices.value, split, data[offset..][..size]), offset + size));
  }

  /** What a frame says once its unencoded fields are dropped and the others are cut to width. */
  function Normal(f: Frame): Frame {
    var mode := f.EffectiveMode();
    Frame(
      f.payload, Reliable(mode), Ordered(mode),
      if Reliable(mode) then f.messageIndex % M24 else 0,
      if Ordered(mode) then f.orderIndex % M24 else 0,
      if Ordered(mode) then f.orderChannel % 256 else 0,
      if Sequenced(mode) then f.sequencingIndex % M24 else 0,
      if f.Split() then f.splitCount else 0,
      if f.Split() then f.splitId % 0x1_0000 else 0,
      if f.Split() then f.splitIndex else 0,
      Some(mode))
  }

  /** Every field agrees with the mode and fits its place on the wire. */
  predicate WireFrame(f: Frame) {
    && f.mode.Some? && 0 <= f.mode.value < 8
    && f.reliable == Reliable(f.mode.value)
    && f.ordered == Ordered(f.mode.value)
    && 0 <= f.messageIndex < (if f.reliable then M24 else 1)
    && 0 <= f.sequencingIndex < (if Sequenced(f.mode.value) then M24 else 1)
    && 0 <= f.orderIndex < (if f.ordered then M24 else 1)
    && 0 <= f.orderChannel < (if f.ordered then 256 else 1)
    && (if f.Split() then f.splitCount <= 0xFFFF_FFFF && 0 <= f.splitId < 0x1_0000 && 0 <= f.splitIndex < f.splitCount
        else f.splitCount == f.splitId == f.splitIndex == 0)
  }

  lemma {:induction false} ReadSplitOfField(f: Frame, rest: Octets)
    requires f.Split() ==> f.splitCount <= 0xFFFF_FFFF && 0 <= f.splitIndex < f.splitCount
    ensures ReadSplit(f.Split(), SplitField(f) + rest)
         == Ok(Cut(SplitHeader(Normal(f).splitCount, Normal(f).splitId, Normal(f).splitIndex), rest))
  {
    var data := SplitField(f) + rest;
    if f.Split() {
      Pow256Values();
      BeThenFromBe(f.splitCount, 4);
      BeThenFromBe(f.splitId % 0x1_0000, 2);
      BeThenFromBe(f.splitIndex, 4);
      assert data[..4] == Be(f.splitCount, 4);
      assert data[4..6] == Be(f.splitId % 0x1_0000, 2);
      assert data[6..10] == Be(f.splitIndex, 4);
      assert data[10..] == rest;
    } else {
      assert data == rest;
    }
  }

  lemma {:induction false} ReadIfOfField(present: bool, v: nat, rest: Octets)
    requires v < M24
    ensures ReadIf(present, (if present then Le(v, 3) else []) + rest) == Ok(Cut(if present then v else 0, rest))
  {
    Pow256Values();
    if present { TakeLeOfConcat(v, 3, rest); } else { assert [] + rest == rest; }
  }

  lemma {:induction false} ReadIndicesOfFields(f: Frame, rest: Octets)
    ensures var n := Normal(f);
            ReadIndices(f.EffectiveMode(), MessageField(f) + (SequencingField(f) + (OrderField(f) + rest)))
            == Ok(Cut(Indices(n.messageIndex, n.sequencingIndex, n.orderIndex, n.orderChannel), rest))
  {
    var mode := f.EffectiveMode();
    var order: Octets := if Ordered(mode) then Le(f.orderIndex % M24, 3) else [];
    var channel: Octets := if Ordered(mode) then [f.orderChannel % 256] else [];
    assert OrderField(f) + rest == order + (channel + rest);
    ReadIfOfField(Reliable(mode), f.messageIndex % M24, SequencingField(f) + (OrderField(f) + rest));
    ReadIfOfField(Sequenced(mode), f.sequencingIndex % M24, OrderField(f) + rest);
    ReadIfOfField(Ordered(mode), f.orderIndex % M24, channel + rest);
    if Ordered(mode) {
      assert (channel + rest)[1..] == rest;
    } else {
      assert channel + rest == rest;
    }
  }

  /** The frame code is prefix-free: whatever follows an encoded frame, decoding reads exactly that frame. */
  lemma {:induction false} DecodeInvertsEncode(f: Frame, suffix: Octets)
    requires Encode(f).Ok?
    ensures Decode(Encode(f).value + suffix) == Ok(Decoded(Normal(f), |Encode(f).value|))
    ensures WireFrame(Normal(f))
  {
    hide Le, Be, FromBe, FromLe, ReadIndices, ReadSplit, MessageField, SequencingField, OrderField, SplitField, Head;
    var data := Encode(f).value + suffix;
    var afterSplit := f.payload + suffix;
    var afterIndices := SplitField(f) + afterSplit;
    var fields := MessageField(f) + (SequencingField(f) + (OrderField(f) + afterIndices));
    assert data == Head(f) + fields;
    HeadIsRead(f, fields);
    ReadIndicesOfFields(f, afterIndices);
    ReadSplitOfField(f, afterSplit);
    assert afterSplit[..|f.payload|] == f.payload;
  }

  lemma {:induction false} HeadIsRead(f: Frame, fields: Octets)
    requires 0 <= f.EffectiveMode() < 8 && |f.payload| * 8 <= 0xFFFF
    ensures var data := Head(f) + fields;
            && data[0] / 32 == f.EffectiveMode()
            && (data[0] / 16 % 2 == 1 <==> f.Split())
            && (FromBe(data[1..3]) + 7) / 8 == |f.payload|
            && data[3..] == fields
  {
    var data := Head(f) + fields;
    assert data[0] == f.EffectiveMode() * 32 + if f.Split() then 16 else 0;
    assert data[1..3] == Be(|f.payload| * 8, 2);
    FrameLengthField(|f.payload|);
  }

  lemma {:induction false} FrameLengthField(n: nat)
    requires n * 8 <= 0xFFFF
    ensures (FromBe(Be(n * 8, 2)) + 7) / 8 == n
  {
    Pow256Values();
    BeThenFromBe(n * 8, 2);
  }

  lemma NormalFixesWireFrames(f: Frame)
    requires WireFrame(f)
    ensures Normal(f) == f
  {}

  /** Every field comes back, the mode included, exactly for the frames whose fields agree with an explicit mode. */
  lemma {:induction false} EveryFieldReturnsExactly(f: Frame, suffix: Octets)
    requires Encode(f).Ok?
    ensures Decode(Encode(f).value + suffix) == Ok(Decoded(f, |Encode(f).value|)) <==> WireFrame(f)
  {
    DecodeInvertsEncode(f, suffix);
    if WireFrame(f) { NormalFixesWireFrames(f); }
  }

  /** Frames that the program calls equal: its comparison leaves the reliability mode out. */
  predicate SameFrame(a: Frame, b: Frame) {
    a.(mode := None) == b.(mode := None)
  }

  /** The flags and the other fields agree with the mode that the frame is sent with. */
  predicate Survives(f: Frame) {
    WireFrame(f.(mode := Some(f.EffectiveMode())))
  }

  /** A frame comes back equal, in the program's sense, exactly when it agrees with the mode it is sent with. */
  lemma {:induction false} RoundTripsExactly(f: Frame, suffix: Octets)
    requires Encode(f).Ok?
    ensures var back := Decode(Encode(f).value + suffix);
            && back.Ok? && back.value.wireSize == |Encode(f).value|
            && (SameFrame(back.value.frame, f) <==> Survives(f))
  {
    hide Encode, Decode;
    DecodeInvertsEncode(f, suffix);
    var sent := f.(mode := Some(f.EffectiveMode()));
    assert Normal(sent) == Normal(f);
    if Survives(f) { NormalFixesWireFrames(sent); }
  }

  /**
   * A reliable frame without an explicit mode survives when it is ordered on a channel of one byte, or unordered on
   * channel 0 with order index 0.
   */
  lemma {:induction false} ReliableFrameSurvives(payload: Octets, ordered: bool, message: nat, order: nat,
                                                 channel: int, suffix: Octets)
    requires message < M24 && order < M24 && |payload| <= 8191
    ensures var f := Whole(payload, true, ordered, message, order, channel);
            && Encode(f).Ok? && Decode(Encode(f).value + suffix).Ok? && !WireFrame(f)
            && (SameFrame(Decode(Encode(f).value + suffix).value.frame, f)
                <==> if ordered then 0 <= channel < 256 else order == channel == 0)
  {
    hide Decode, SameFrame;
    RoundTripsExactly(Whole(payload, true, ordered, message, order, channel), suffix);
  }

  /** An ordered frame that is not reliable loses its order: it goes out in mode 0, which carries none. */
  lemma {:induction false} OrderIsLost(payload: Octets, order: int, channel: int, suffix: Octets)
    requires |payload| <= 8191
    ensures var f := Whole(payload, false, true, 0, order, channel);
            && Encode(f).Ok? && Decode(Encode(f).value + suffix).Ok?
            && Decode(Encode(f).value + suffix).value.frame == Whole(payload, false, false, 0, 0, 0).(mode := Some(0))
            && !SameFrame(Decode(Encode(f).value + suffix).value.frame, f)
  {
    hide Decode;
    DecodeInvertsEncode(Whole(payload, false, true, 0, order, channel), suffix);
  }

  lemma {:induction false} FromBeBound(s: Octets)
    ensures FromBe(s) < Pow256(|s|)
  {
    FromBeThenBe(s);
  }

  lemma {:induction false} FromLeBound(s: Octets)
    ensures FromLe(s) < Pow256(|s|)
  {
    FromLeThenLe(s);
  }

  lemma ReadIfInRange(present: bool, data: Octets)
    requires ReadIf(present, data).Ok?
    ensures ReadIf(present, data).value.value < (if present then M24 else 1)
  {
    if present {
      Pow256Values();
      FromLeBound(data[..3]);
    }
  }

  lemma ReadIndicesInRange(mode: int, data: Octets)
    requires ReadIndices(mode, data).Ok?
    ensures var i := ReadIndices(mode, data).value.value;
            && i.message < (if Reliable(mode) then M24 else 1)
            && i.sequencing < (if Sequenced(mode) then M24 else 1)
            && i.order < (if Ordered(mode) then M24 else 1)
            && i.channel < (if Ordered(mode) then 256 else 1)
  {
    ReadIfInRange(Reliable(mode), data);
    var message := ReadIf(Reliable(mode), data).value;
    ReadIfInRange(Sequenced(mode), message.rest);
    var sequencing := ReadIf(Sequenced(mode), message.rest).value;
    ReadIfInRange(Ordered(mode), sequencing.rest);
  }

  lemma ReadSplitInRange(present: bool, data: Octets)
    requires ReadSplit(present, data).Ok?
    ensures var s := ReadSplit(present, data).value.value;
            if present then s.index < s.count <= 0xFFFF_FFFF && s.id < 0x1_0000 else s == SplitHeader(0, 0, 0)
  {
    if present {
      Pow256Values();
      FromBeBound(data[..4]);
      FromBeBound(data[4..6]);
    }
  }

  /**
   * Whatever is decoded is mode-consistent and in range. It can be sent again unless its payload has the
   * 8192 bytes that a bit length of 65529 to 65535 announces, one more than the encoder can announce.
   */
  lemma {:induction false} DecodeGivesWireFrames(data: Octets)
    requires Decode(data).Ok?
    ensures var f := Decode(data).value.frame;
            && WireFrame(f)
            && |f.payload| <= 8192
            && (Encode(f).Ok? <==> |f.payload| <= 8191)
  {
    hide FromBe, ReadIndices, ReadSplit, Le, Be;
    Pow256Values();
    FromBeBound(data[1..3]);
    ReadIndicesInRange(data[0] / 32, data[3..]);
    ReadSplitInRange(data[0] / 16 % 2 == 1, ReadIndices(data[0] / 32, data[3..]).value.rest);
  }

  // ---- datagrams --------------------------------------------------------------

  /** The largest bit lengths give 8192 bytes: such a frame is decoded, whatever its payload, but not encoded again. */
  lemma {:induction false} OversizedFrame(payload: Octets)
    requires |payload| == 8192
    ensures var decoded := Decode([0, 0xFF, 0xFF] + payload);
            && decoded.Ok? && decoded.value.wireSize == 8195 && decoded.value.frame.payload == payload
            && Encode(decoded.value.frame) == Err(StructError)
  {
    var data := [0, 0xFF, 0xFF] + payload;
    assert data[1..3] == [0xFF, 0xFF];
    assert [0xFF, 0xFF][..1] == [0xFF] && FromBe([0xFF]) == 0xFF && FromBe([0xFF, 0xFF]) == 0xFFFF;
    assert data[3..] == payload && payload[..8192] == payload;
  }

  function ParseFrames(data: Octets): (r: Result<seq<Frame>>)
    ensures r.Err? ==> r.error == ValueError
    decreases |data|
  {
    if data == [] then Ok([]) else
    var d :- Decode(data);
    var rest :- ParseFrames(data[d.wireSize..]);
    Ok([d.frame] + rest)
  }

  datatype Datagram = Datagram(sequence: nat, frames: seq<Frame>)

  /** What parse_connected_datagram returns. */
  function ParseConnected(data: Octets): (r: Result<Datagram>)
    ensures r.Err? ==> r.error == ValueError
  {
    if |data| < 4 || !(0x80 <= data[0] <= 0x8F) then Err(ValueError) else
    var frames :- ParseFrames(data[4..]);
    Ok(Datagram(FromLe(data[1..4]), frames))
  }

  function Prepend(frames: seq<Frame>, r: Result<seq<Frame>>): Result<seq<Frame>> {
    if r.Err? || frames == [] then r else Ok(frames + r.value)
  }

  lemma PrependTwice(a: seq<Frame>, b: seq<Frame>, r: Result<seq<Frame>>)
    ensures Prepend(a, Prepend(b, r)) == Prepend(a + b, r)
  {
    if r.Ok? {
      assert a + (b + r.value) == (a + b) + r.value;
      assert a == [] ==> a + b == b;
      assert b == [] ==> a + b == a;
    }
  }

  method ParseConnectedDatagram(data: Octets) returns (r: Result<Datagram>)
    ensures r == ParseConnected(data)
  {
    hide FromLe, Decode;
    if |data| < 4 || !(0x80 <= data[0] <= 0x8F) {
      return Err(ValueError);
    }
    var sequence := FromLe(data[1..4]);
    var frames: seq<Frame> := [];
    var offset := 4;
    assert data[4..] == data[offset..];
    while offset < |data|
      invariant 4 <= offset <= |data|
      invariant ParseFrames(data[4..]) == Prepend(frames, ParseFrames(data[offset..]))
      decreases |data| - offset
    {
      var decoded := Decode(data[offset..]);
      if decoded.Err? {
        return Err(ValueError);
      }
      var consumed := decoded.value.wireSize;
      if consumed <= 0 || offset + consumed > |data| {
        return Err(ValueError);
      }
      assert data[offset..][consumed..] == data[offset + consumed..];
      PrependTwice(frames, [decoded.value.frame], ParseFrames(data[offset + consumed..]));
      frames := frames + [decoded.value.frame];
      offset := offset + consumed;
    }
    assert data[offset..] == [] && frames + [] == frames;
    r := Ok(Datagram(sequence, frames));
  }

  function EncodeAll(frames: seq<Frame>): Result<Octets> {
    if frames == [] then Ok([]) else
    var first :- Encode(frames[0]);
    var rest :- EncodeAll(frames[1..]);
    Ok(first + rest)
  }

  function NormalAll(frames: seq<Frame>): (r: seq<Frame>)
    ensures |r| == |frames|
    ensures forall i | 0 <= i < |r| :: r[i] == Normal(frames[i])
  {
    seq(|frames|, i requires 0 <= i < |frames| => Normal(frames[i]))
  }

  lemma {:induction false} ParseInvertsEncodeAll(frames: seq<Frame>)
    requires EncodeAll(frames).Ok?
    ensures ParseFrames(EncodeAll(frames).value) == Ok(NormalAll(frames))
  {
    hide Encode, Decode, Normal, WireFrame;
    if frames != [] {
      var first := Encode(frames[0]).value;
      var rest := EncodeAll(frames[1..]).value;
      DecodeInvertsEncode(frames[0], rest);
      ParseInvertsEncodeAll(frames[1..]);
      assert (first + rest)[|first|..] == rest;
      assert NormalAll(frames) == [Normal(frames[0])] + NormalAll(frames[1..]);
    }
  }

  /** The datagram that carries the given frames: one flag byte, the 24-bit sequence, the frames. */
  function Assemble(flag: Byte, sequence: nat, frames: seq<Frame>): Result<Octets> {
    var body :- EncodeAll(frames);
    Ok([flag] + Le(sequence, 3) + body)
  }

  /** Coalescing loses nothing: any list of frames comes back, in order, with its sequence number. */
  lemma {:induction false} ParseInvertsAssemble(flag: Byte, sequence: nat, frames: seq<Frame>)
    requires 0x80 <= flag <= 0x8F && sequence < M24
    requires Assemble(flag, sequence, frames).Ok?
    ensures ParseConnected(Assemble(flag, sequence, frames).value) == Ok(Datagram(sequence, NormalAll(frames)))
  {
    var body := EncodeAll(frames).value;
    var data := Assemble(flag, sequence, frames).value;
    Pow256Values();
    LeThenFromLe(sequence, 3);
    assert data[1..4] == Le(sequence, 3) && data[4..] == body;
    ParseInvertsEncodeAll(frames);
  }

  // ---- acknowledgements ---------------------------------------------------------

  function BuildAck(sequence: int): Result<Octets> {
    if !(0 <= sequence <= 0xFF_FFFF) then Err(ValueError)
    else Ok([0xC0] + Be(1, 2) + [1] + Le(sequence, 3))
  }

  function Range(first: int, last: int): (r: seq<int>)
    requires first <= last
    ensures |r| == last - first + 1
    ensures forall i | 0 <= i < |r| :: r[i] == first + i
  {
    seq(last - first + 1, i => first + i)
  }

  const EXPANSION_LIMIT := 0x1_0000

  datatype Interval = Interval(first: nat, last: nat)

  /** One ACK record: a nonzero marker and one number, or a zero marker and an inclusive range. */
  function ReadRecord(data: Octets, guard: nat): (r: Result<Cut<Interval>>)
    ensures r.Err? ==> r.error == ValueError
    ensures r.Ok? ==> r.value.value.first <= r.value.value.last
  {
    if data == [] then Err(ValueError) else
    var first :- TakeLe(data[1..], 3);
    var last :- if data[0] != 0 then Ok(Cut(first.value, first.rest)) else TakeLe(first.rest, 3);
    if last.value < first.value || last.value - first.value > guard then Err(ValueError)
    else Ok(Cut(Interval(first.value, last.value), last.rest))
  }

  /** `count` ACK records; `guard` is the widest single range accepted, `sofar` the numbers already listed. */
  function ParseRecords(data: Octets, count: nat, sofar: nat, guard: nat): (r: Result<Cut<seq<int>>>)
    ensures r.Err? ==> r.error == ValueError
  {
    if count == 0 then Ok(Cut([], data)) else
    var record :- ReadRecord(data, guard);
    var range := Range(record.value.first, record.value.last);
    if sofar + |range| > EXPANSION_LIMIT then Err(ValueError) else
    var more :- ParseRecords(record.rest, count - 1, sofar + |range|, guard);
    Ok(Cut(range + more.value, more.rest))
  }

  function ParseAckGuarded(data: Octets, guard: nat): (r: Result<seq<int>>)
    ensures r.Err? ==> r.error == ValueError
  {
    if |data| < 4 || data[0] !in {0xC0, 0xD0, 0xA0, 0xB0} then Err(ValueError) else
    var list :- ParseRecords(data[3..], FromBe(data[1..3]), 0, guard);
    var trailer := if data[0] in {0xD0, 0xB0} && |list.rest| == 6 then 6 else 0;
    if |list.rest| == trailer then Ok(list.value) else Err(ValueError)
  }

  /** What raknet_codec.parse_ack returns. */
  function ParseAck(data: Octets): Result<seq<int>> {
    ParseAckGuarded(data, 0x1_0000)
  }

  /** One record at a moving offset, refused unless its range is ascending and no wider than the guard. */
  method ReadRecordAt(data: Octets, start: nat, guard: nat) returns (r: Result<Cut<Interval>>, offset: nat)
    requires start <= |data|
    ensures r == ReadRecord(data[start..], guard)
    ensures r.Ok? ==> start < offset <= |data| && r.value.rest == data[offset..]
  {
    hide FromLe;
    offset := start;
    if offset >= |data| {
      return Err(ValueError), offset;
    }
    var marker := data[offset];
    offset := offset + 1;
    if offset + 3 > |data| {
      return Err(ValueError), offset;
    }
    assert data[start..][1..] == data[offset..];
    assert data[offset..][..3] == data[offset..offset + 3];
    assert data[offset..][3..] == data[offset + 3..];
    var first := FromLe(data[offset..offset + 3]);
    offset := offset + 3;
    var last := first;
    if marker == 0 {
      if offset + 3 > |data| {
        return Err(ValueError), offset;
      }
      assert data[offset..][..3] == data[offset..offset + 3];
      assert data[offset..][3..] == data[offset + 3..];
      last := FromLe(data[offset..offset + 3]);
      offset := offset + 3;
      if last < first || last - first > guard {
        return Err(ValueError), offset;
      }
    }
    r := Ok(Cut(Interval(first, last), data[offset..]));
  }

  method ReadAckList(data: Octets) returns (r: Result<seq<int>>)
    ensures r == ParseAck(data)
  {
    hide FromLe, FromBe, ReadRecord, Range;
    if |data| < 4 || data[0] !in {0xC0, 0xD0, 0xA0, 0xB0} {
      return Err(ValueError);
    }
    var count := FromBe(data[1..3]);
    var offset := 3;
    var result: seq<int> := [];
    for done := 0 to count
      invariant 3 <= offset <= |data|
      invariant ParseRecords(data[3..], count, 0, 0x1_0000)
             == PrependCut(result, ParseRecords(data[offset..], count - done, |result|, 0x1_0000))
    {
      var record, next := ReadRecordAt(data, offset, 0x1_0000);
      if record.Err? {
        return Err(record.error);
      }
      var (first, last) := (record.value.value.first, record.value.value.last);
      if |result| + last - first + 1 > 0x1_0000 {
        return Err(ValueError);
      }
      offset := next;
      PrependCutTwice(result, Range(first, last),
                       ParseRecords(data[offset..], count - done - 1, |result| + |Range(first, last)|, 0x1_0000));
      result := result + Range(first, last);
    }
    assert result + [] == result;
    if data[0] in {0xD0, 0xB0} && |data| - offset == 6 {
      offset := offset + 6;
    }
    if offset != |data| {
      return Err(ValueError);
    }
    r := Ok(result);
  }

  lemma {:induction false} RecordInRange(data: Octets, guard: nat)
    requires ReadRecord(data, guard).Ok?
    ensures ReadRecord(data, guard).value.value.last < M24
  {
    hide FromLe;
    Pow256Values();
    FromLeBound(data[1..][..3]);
    if data[0] == 0 {
      FromLeBound(data[1..][3..][..3]);
    }
  }

  lemma RangeInside(first: nat, last: nat)
    requires first <= last < M24
    ensures forall q | q in Range(first, last) :: 0 <= q < M24
  {
    hide Range;
    forall q | q in Range(first, last) ensures 0 <= q < M24 {
      var i :| 0 <= i < |Range(first, last)| && Range(first, last)[i] == q;
    }
  }

  lemma {:induction false} RecordsAreBounded(data: Octets, count: nat, sofar: nat, guard: nat)
    requires sofar <= EXPANSION_LIMIT
    ensures var r := ParseRecords(data, count, sofar, guard);
            r.Ok? ==> sofar + |r.value.value| <= EXPANSION_LIMIT && forall q | q in r.value.value :: 0 <= q < M24
    decreases count
  {
    hide ReadRecord, Range;
    if count > 0 && ParseRecords(data, count, sofar, guard).Ok? {
      RecordInRange(data, guard);
      var record := ReadRecord(data, guard).value;
      var range := Range(record.value.first, record.value.last);
      RecordsAreBounded(record.rest, count - 1, sofar + |range|, guard);
      RangeInside(record.value.first, record.value.last);
    }
  }

  /** An accepted list names at most 65536 datagrams, each by a 24-bit number. */
  lemma {:induction false} AckListIsBounded(data: Octets)
    requires ParseAck(data).Ok?
    ensures |ParseAck(data).value| <= 0x1_0000
    ensures forall q | q in ParseAck(data).value :: 0 <= q < M24
  {
    RecordsAreBounded(data[3..], FromBe(data[1..3]), 0, 0x1_0000);
  }

  /** The expansion limit hides any guard of at least 65536. */
  lemma {:induction false} GuardIsRedundant(data: Octets, count: nat, sofar: nat, guard: nat)
    requires guard >= 0x1_0000
    ensures ParseRecords(data, count, sofar, guard) == ParseRecords(data, count, sofar, 0x1_0000)
    decreases count
  {
    hide ReadRecord, Range;
    if count > 0 {
      GuardOfOne(data, guard);
      if ReadRecord(data, 0x1_0000).Ok? {
        var record := ReadRecord(data, 0x1_0000).value;
        GuardIsRedundant(record.rest, count - 1, sofar + |Range(record.value.first, record.value.last)|, guard);
      }
    }
  }

  /** A record that only the wider guard lets through is too long for the expansion limit. */
  lemma GuardOfOne(data: Octets, guard: nat)
    requires guard >= 0x1_0000
    ensures var (wide, narrow) := (ReadRecord(data, guard), ReadRecord(data, 0x1_0000));
            wide == narrow
            || (narrow.Err? && wide.Ok? && wide.value.value.last - wide.value.value.first >= EXPANSION_LIMIT)
  {
    hide FromLe;
  }

  datatype Record = Single(marker: Byte, sequence: nat) | Span(first: nat, last: nat)

  predicate WireRecord(r: Record) {
    match r
    case Single(marker, sequence) => marker != 0 && sequence < M24
    case Span(first, last) => first < M24 && last < M24
  }

  function RecordBytes(r: Record): Octets {
    match r
    case Single(marker, sequence) => [marker] + Le(sequence, 3)
    case Span(first, last) => [0] + Le(first, 3) + Le(last, 3)
  }

  function RecordListBytes(records: seq<Record>): Octets {
    if records == [] then [] else RecordBytes(records[0]) + RecordListBytes(records[1..])
  }

  function Bounds(r: Record): (b: Option<Interval>)
    ensures b.Some? ==> b.value.first <= b.value.last
  {
    match r
    case Single(_, sequence) => Some(Interval(sequence, sequence))
    case Span(first, last) => if last < first then None else Some(Interval(first, last))
  }

  /** The numbers a record list stands for; None when a range runs backwards. */
  function Meaning(records: seq<Record>): Option<seq<int>> {
    if records == [] then Some([]) else
    match (Bounds(records[0]), Meaning(records[1..]))
    case (Some(i), Some(more)) => Some(Range(i.first, i.last) + more)
    case _ => None
  }

  lemma {:induction false} RecordIsRead(r: Record, tail: Octets, guard: nat)
    requires WireRecord(r) && guard >= 0x1_0000
    ensures var read := ReadRecord(RecordBytes(r) + tail, guard);
            match Bounds(r)
            case None => read == Err(ValueError)
            case Some(i) => if i.last - i.first <= guard then read == Ok(Cut(i, tail)) else read == Err(ValueError)
  {
    hide Le, FromLe, Pow256;
    var data := RecordBytes(r) + tail;
    Pow256Values();
    match r {
      case Single(marker, sequence) =>
        assert data[1..] == Le(sequence, 3) + tail;
        TakeLeOfConcat(sequence, 3, tail);
      case Span(first, last) =>
        assert data[1..] == Le(first, 3) + (Le(last, 3) + tail);
        TakeLeOfConcat(first, 3, Le(last, 3) + tail);
        TakeLeOfConcat(last, 3, tail);
    }
  }

  lemma {:induction false} RecordsMean(records: seq<Record>, rest: Octets, sofar: nat)
    requires forall r | r in records :: WireRecord(r)
    requires sofar <= EXPANSION_LIMIT
    ensures var m := Meaning(records);
            ParseRecords(RecordListBytes(records) + rest, |records|, sofar, 0x1_0000)
            == if m.Some? && sofar + |m.value| <= EXPANSION_LIMIT then Ok(Cut(m.value, rest)) else Err(ValueError)
  {
    hide ReadRecord, RecordBytes;
    var data := RecordListBytes(records) + rest;
    if records == [] {
      assert data == rest;
    } else {
      var tail := RecordListBytes(records[1..]) + rest;
      assert data == RecordBytes(records[0]) + tail;
      assert WireRecord(records[0]);
      RecordIsRead(records[0], tail, 0x1_0000);
      var bounds := Bounds(records[0]);
      if bounds.Some? {
        var range := Range(bounds.value.first, bounds.value.last);
        if sofar + |range| <= EXPANSION_LIMIT {
          RecordsMean(records[1..], rest, sofar + |range|);
        }
      }
    }
  }

  /**
   * parse_ack means what the record list says: it is accepted exactly when no range runs backwards and the
   * expansion has at most 65536 numbers, and then it yields that expansion.
   */
  lemma {:induction false} AckMeaning(kind: Byte, records: seq<Record>, metrics: Octets)
    requires AckForm(kind, records, metrics)
    ensures var m := Meaning(records);
            ParseAck(AckBytes(kind, records, metrics))
            == if m.Some? && |m.value| <= 0x1_0000 then Ok(m.value) else Err(ValueError)
  {
    hide Le, Be, FromBe, FromLe, Pow256, RecordListBytes, Meaning, ParseRecords, WireRecord;
    AckIsCut(kind, records, metrics);
    RecordsMean(records, metrics, 0);
  }

  /** A record list and, for two of the kinds, six bytes of metrics; not both absent. */
  ghost predicate AckForm(kind: Byte, records: seq<Record>, metrics: Octets) {
    && kind in {0xC0, 0xD0, 0xA0, 0xB0}
    && |records| <= 0xFFFF && (forall r | r in records :: WireRecord(r))
    && (metrics == [] || (kind in {0xD0, 0xB0} && |metrics| == 6))
    && (records == [] ==> metrics != [])
  }

  function AckBytes(kind: Byte, records: seq<Record>, metrics: Octets): Octets {
    [kind] + Be(|records|, 2) + (RecordListBytes(records) + metrics)
  }

  lemma {:induction false} AckIsCut(kind: Byte, records: seq<Record>, metrics: Octets)
    requires AckForm(kind, records, metrics)
    ensures var data := AckBytes(kind, records, metrics);
            && |data| >= 4 && data[0] == kind && FromBe(data[1..3]) == |records|
            && data[3..] == RecordListBytes(records) + metrics
  {
    hide Le, Be, FromBe, Pow256;
    var data := AckBytes(kind, records, metrics);
    Pow256Values();
    BeThenFromBe(|records|, 2);
    assert data[1..3] == Be(|records|, 2);
    if records != [] {
      assert RecordListBytes(records) == RecordBytes(records[0]) + RecordListBytes(records[1..]);
    }
  }

  lemma {:induction false} LeIsRead(data: Octets)
    requires TakeLe(data, 3).Ok?
    ensures var cut := TakeLe(data, 3).value; cut.value < M24 && data == Le(cut.value, 3) + cut.rest
  {
    hide Le, FromLe, Pow256;
    Pow256Values();
    FromLeThenLe(data[..3]);
    assert data == data[..3] + data[3..];
  }

  lemma {:induction false} RecordBehind(data: Octets, guard: nat) returns (r: Record)
    requires ReadRecord(data, guard).Ok?
    ensures WireRecord(r) && Bounds(r) == Some(ReadRecord(data, guard).value.value)
    ensures data == RecordBytes(r) + ReadRecord(data, guard).value.rest
  {
    hide Le, TakeLe;
    var first := TakeLe(data[1..], 3).value;
    LeIsRead(data[1..]);
    assert data == [data[0]] + data[1..];
    if data[0] != 0 {
      r := Single(data[0], first.value);
    } else {
      LeIsRead(first.rest);
      r := Span(first.value, TakeLe(first.rest, 3).value.value);
    }
  }

  lemma {:induction false} RecordsBehind(data: Octets, count: nat, sofar: nat, guard: nat)
    returns (records: seq<Record>)
    requires ParseRecords(data, count, sofar, guard).Ok?
    ensures |records| == count && forall r | r in records :: WireRecord(r)
    ensures var parsed := ParseRecords(data, count, sofar, guard).value;
            data == RecordListBytes(records) + parsed.rest && Meaning(records) == Some(parsed.value)
    decreases count
  {
    hide ReadRecord, RecordBytes, WireRecord, Bounds, Range;
    if count == 0 {
      records := [];
    } else {
      var record := ReadRecord(data, guard).value;
      var range := Range(record.value.first, record.value.last);
      var first := RecordBehind(data, guard);
      var more := RecordsBehind(record.rest, count - 1, sofar + |range|, guard);
      records := [first] + more;
      RecordsGrow(first, more);
      assert data == RecordBytes(first) + (RecordListBytes(more) + ParseRecords(data, count, sofar, guard).value.rest);
    }
  }

  lemma RecordsGrow(first: Record, more: seq<Record>)
    ensures RecordListBytes([first] + more) == RecordBytes(first) + RecordListBytes(more)
    ensures Bounds(first).Some? && Meaning(more).Some? ==>
              Meaning([first] + more)
              == Some(Range(Bounds(first).value.first, Bounds(first).value.last) + Meaning(more).value)
  {
    hide RecordBytes, Bounds, Range;
    assert ([first] + more)[1..] == more;
  }

  /** Nothing else is accepted: every accepted byte string is a record list of that form and yields its expansion. */
  lemma {:induction false} AcceptedAckIsRecords(data: Octets) returns (records: seq<Record>, metrics: Octets)
    requires ParseAck(data).Ok?
    ensures AckForm(data[0], records, metrics)
    ensures data == AckBytes(data[0], records, metrics) && Meaning(records) == Some(ParseAck(data).value)
  {
    hide Be, FromBe, ParseRecords, RecordListBytes, Meaning, WireRecord, Pow256;
    var count := FromBe(data[1..3]);
    Pow256Values();
    FromBeThenBe(data[1..3]);
    records := RecordsBehind(data[3..], count, 0, 0x1_0000);
    metrics := ParseRecords(data[3..], count, 0, 0x1_0000).value.rest;
    assert data == [data[0]] + data[1..3] + data[3..];
    NoRecords(records);
  }

  lemma NoRecords(records: seq<Record>)
    ensures records == [] ==> RecordListBytes(records) == []
  {}

  /** A list of no records at all is accepted behind metrics, and names nothing. */
  lemma {:induction false} EmptyAckIsAccepted(metrics: Octets)
    requires |metrics| == 6
    ensures ParseAck([0xD0, 0, 0] + metrics) == Ok([])
  {
    hide ParseAckGuarded;
    AckMeaning(0xD0, [], metrics);
    assert Be(0, 2) == [0, 0] by { assert Be(0, 1) == [0]; }
    assert AckBytes(0xD0, [], metrics) == [0xD0, 0, 0] + metrics;
  }

  lemma {:induction false} ParseInvertsBuildAck(sequence: int)
    ensures BuildAck(sequence).Ok? <==> 0 <= sequence < M24
    ensures BuildAck(sequence).Ok? ==> ParseAck(BuildAck(sequence).value) == Ok([sequence])
  {
    hide Le, Be, FromBe, FromLe, ParseAckGuarded;
    if 0 <= sequence < M24 {
      var records := [Single(1, sequence)];
      assert Meaning(records[1..]) == Some([]);
      assert Range(sequence, sequence) + [] == [sequence];
      assert Meaning(records) == Some([sequence]);
      assert RecordListBytes(records) == [1] + Le(sequence, 3) + RecordListBytes(records[1..]);
      AckMeaning(0xC0, records, []);
      assert AckBytes(0xC0, records, []) == BuildAck(sequence).value;
    }
  }
}
