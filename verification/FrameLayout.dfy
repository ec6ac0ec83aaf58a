/** The bytes of an encapsulated frame, mode by mode: where each field stands, and what is read from any bytes. */
module FrameLayout {
  import opened Results
  import opened Bytes
  import opened RaknetCodec

  /** Three bytes from `at` hold the low 24 bits of v, lowest byte first. */
  predicate Holds24(b: Octets, at: nat, v: int) {
    at + 3 <= |b| && b[at] == v % 256 && b[at + 1] == v / 0x100 % 256 && b[at + 2] == v / 0x1_0000 % 256
  }

  function Read24(b: Octets, at: nat): nat
    requires at + 3 <= |b|
  {
    b[at] as int + 0x100 * b[at + 1] as int + 0x1_0000 * b[at + 2] as int
  }

  lemma BytesOfMasked(v: int)
    ensures var w := v % M24;
            && w % 256 == v % 256 && w / 0x100 % 256 == v / 0x100 % 256
            && w / 0x1_0000 % 256 == v / 0x1_0000 % 256
  {
    var w, q := v % M24, v / M24;
    assert v / 0x100 == w / 0x100 + 0x1_0000 * q;
    assert v / 0x1_0000 == w / 0x1_0000 + 0x100 * q;
  }

  lemma Le24(v: int)
    ensures Le(v % M24, 3) == [v % 256, v / 0x100 % 256, v / 0x1_0000 % 256]
  {
    hide Le;
    ThreeBytes(v % M24);
    BytesOfMasked(v);
  }

  lemma FromLe24(b: Octets)
    requires |b| >= 3
    ensures FromLe(b[..3]) == Read24(b, 0)
  {
    hide FromLe;
    var c := b[..3];
    FromLeStep(c);
    FromLeStep(c[1..]);
    FromLeStep(c[1..][1..]);
    FromLeNone();
    assert c[1..][1..][1..] == [] && c[1..][0] == b[1] && c[1..][1..][0] == b[2];
  }

  lemma SizeBytes(n: nat)
    requires n <= 8191
    ensures Be(n * 8, 2) == [n / 32, n % 32 * 8]
  {
    hide Be;
    TwoBytes(n * 8);
  }

  lemma FromSizeBytes(b: Octets)
    requires |b| >= 3
    ensures FromBe(b[1..3]) == b[1] as int * 256 + b[2] as int
  {
    assert b[1..3] == [b[1], b[2]] && [b[1], b[2]][..1] == [b[1]] && [b[1]][..0] == [];
    assert FromBe([b[1]]) == b[1];
  }

  // ---- what is sent -------------------------------------------------------------------------

  /** The parts of an unsplit frame with an explicit mode, in the bytes they are made of. */
  lemma {:induction false} PartsOf(f: Frame)
    requires f.mode.Some? && 0 <= f.mode.value < 8 && f.splitCount <= 0 && |f.payload| <= 8191
    ensures Encode(f) == Ok(Head(f) + MessageField(f) + SequencingField(f) + OrderField(f) + [] + f.payload)
    ensures Head(f) == [f.mode.value * 32, |f.payload| / 32, |f.payload| % 32 * 8]
    ensures Le(f.messageIndex % M24, 3)
         == [f.messageIndex % 256, f.messageIndex / 0x100 % 256, f.messageIndex / 0x1_0000 % 256]
    ensures Le(f.sequencingIndex % M24, 3)
         == [f.sequencingIndex % 256, f.sequencingIndex / 0x100 % 256, f.sequencingIndex / 0x1_0000 % 256]
    ensures Le(f.orderIndex % M24, 3)
         == [f.orderIndex % 256, f.orderIndex / 0x100 % 256, f.orderIndex / 0x1_0000 % 256]
  {
    hide Le, Be;
    SizeBytes(|f.payload|);
    Le24(f.messageIndex);
    Le24(f.sequencingIndex);
    Le24(f.orderIndex);
  }

  /** Mode by mode, the bytes of an unsplit frame: flags, size in bits, index fields, payload. */
  lemma {:induction false} EncodeLayout(f: Frame)
    requires f.mode.Some? && 0 <= f.mode.value < 8 && f.splitCount <= 0 && |f.payload| <= 8191
    ensures Encode(f).Ok? && |Encode(f).value| >= 3
    ensures var (b, n) := (Encode(f).value, |f.payload|);
            b[0] == f.mode.value * 32 && b[1] == n / 32 && b[2] == n % 32 * 8
    ensures var b := Encode(f).value; f.mode == Some(0) ==> b[3..] == f.payload
    ensures var b := Encode(f).value;
            f.mode == Some(1) ==>
              && |b| == 10 + |f.payload| && b[10..] == f.payload
              && Holds24(b, 3, f.sequencingIndex) && Holds24(b, 6, f.orderIndex) && b[9] == f.orderChannel % 256
    ensures var b := Encode(f).value;
            f.mode == Some(2) ==> |b| == 6 + |f.payload| && b[6..] == f.payload && Holds24(b, 3, f.messageIndex)
    ensures var b := Encode(f).value;
            f.mode == Some(3) ==>
              && |b| == 10 + |f.payload| && b[10..] == f.payload
              && Holds24(b, 3, f.messageIndex) && Holds24(b, 6, f.orderIndex) && b[9] == f.orderChannel % 256
    ensures var b := Encode(f).value;
            f.mode == Some(4) ==>
              && |b| == 13 + |f.payload| && b[13..] == f.payload
              && Holds24(b, 3, f.messageIndex) && Holds24(b, 6, f.sequencingIndex)
              && Holds24(b, 9, f.orderIndex) && b[12] == f.orderChannel % 256
    ensures var b := Encode(f).value; f.mode == Some(5) ==> b[3..] == f.payload
    ensures var b := Encode(f).value;
            f.mode == Some(6) ==> |b| == 6 + |f.payload| && b[6..] == f.payload && Holds24(b, 3, f.messageIndex)
    ensures var b := Encode(f).value;
            f.mode == Some(7) ==>
              && |b| == 10 + |f.payload| && b[10..] == f.payload
              && Holds24(b, 3, f.messageIndex) && Holds24(b, 6, f.orderIndex) && b[9] == f.orderChannel % 256
  {
    hide Encode, Head, Le, Be;
    PartsOf(f);
  }

  // ---- what is read ---------------------------------------------------------------------------

  /** The payload size that the bytes behind the flags announce, in bits and rounded up. */
  function SizeOf(data: Octets): nat
    requires |data| >= 3
  {
    (data[1] as int * 256 + data[2] as int + 7) / 8
  }

  /** Decoding of data whose header ends at h and says the given frame, payload apart. */
  function Behind(data: Octets, h: nat, frame: Frame): Result<Decoded>
    requires |data| >= 3
  {
    if |data| < h + SizeOf(data) then Err(ValueError)
    else Ok(Decoded(frame.(payload := data[h..h + SizeOf(data)]), h + SizeOf(data)))
  }

  function Bare(reliable: bool, ordered: bool, mode: int): Frame {
    Frame([], reliable, ordered, 0, 0, 0, 0, 0, 0, 0, Some(mode))
  }

  lemma FieldAt(data: Octets, at: nat)
    requires at <= |data|
    ensures TakeLe(data[at..], 3)
         == if at + 3 <= |data| then Ok(Cut(Read24(data, at), data[at + 3..])) else Err(ValueError)
  {
    if at + 3 <= |data| {
      FromLe24(data[at..]);
      assert data[at..][3..] == data[at + 3..];
    }
  }

  lemma ByteAt(data: Octets, at: nat)
    requires at < |data|
    ensures data[at..] != [] && data[at..][0] == data[at] && data[at..][1..] == data[at + 1..]
  {}

  /** The frame that the index fields make, and where they end. */
  lemma IndicesThen(data: Octets, h: nat, i: Indices)
    requires |data| >= 3 && data[0] / 16 % 2 == 0 && h <= |data|
    requires ReadIndices(data[0] / 32, data[3..]) == Ok(Cut(i, data[h..]))
    ensures Decode(data)
         == Behind(data, h, Received(data[0] / 32, i, SplitHeader(0, 0, 0), []))
  {
    hide FromLe, FromBe, ReadIndices;
    FromSizeBytes(data);
    if |data| >= h + SizeOf(data) { assert data[h..][..SizeOf(data)] == data[h..h + SizeOf(data)]; }
  }

  lemma IndicesFail(data: Octets)
    requires |data| >= 3 && ReadIndices(data[0] / 32, data[3..]) == Err(ValueError)
    ensures Decode(data) == Err(ValueError)
  {
    hide FromLe, FromBe, ReadIndices;
  }

  /** Mode by mode, the fields that bytes without the split flag are read as. */
  lemma {:induction false} DecodeLayout(data: Octets)
    requires |data| >= 3 && data[0] / 16 % 2 == 0
    ensures data[0] / 32 == 0 ==> Decode(data) == Behind(data, 3, Bare(false, false, 0))
    ensures data[0] / 32 == 1 ==>
              Decode(data) == if |data| < 10 then Err(ValueError) else
                Behind(data, 10, Bare(false, true, 1).(sequencingIndex := Read24(data, 3),
                                                       orderIndex := Read24(data, 6), orderChannel := data[9]))
    ensures data[0] / 32 == 2 ==>
              Decode(data) == if |data| < 6 then Err(ValueError) else
                Behind(data, 6, Bare(true, false, 2).(messageIndex := Read24(data, 3)))
    ensures data[0] / 32 == 3 ==>
              Decode(data) == if |data| < 10 then Err(ValueError) else
                Behind(data, 10, Bare(true, true, 3).(messageIndex := Read24(data, 3),
                                                      orderIndex := Read24(data, 6), orderChannel := data[9]))
    ensures data[0] / 32 == 4 ==>
              Decode(data) == if |data| < 13 then Err(ValueError) else
                Behind(data, 13, Bare(true, true, 4).(messageIndex := Read24(data, 3),
                                                      sequencingIndex := Read24(data, 6),
                                                      orderIndex := Read24(data, 9), orderChannel := data[12]))
    ensures data[0] / 32 == 5 ==> Decode(data) == Behind(data, 3, Bare(false, false, 5))
    ensures data[0] / 32 == 6 ==>
              Decode(data) == if |data| < 6 then Err(ValueError) else
                Behind(data, 6, Bare(true, false, 6).(messageIndex := Read24(data, 3)))
    ensures data[0] / 32 == 7 ==>
              Decode(data) == if |data| < 10 then Err(ValueError) else
                Behind(data, 10, Bare(true, true, 7).(messageIndex := Read24(data, 3),
                                                      orderIndex := Read24(data, 6), orderChannel := data[9]))
  {
    hide FromLe, FromBe, Decode, TakeLe, Behind;
    var mode := data[0] / 32;
    var h := if mode == 0 || mode == 5 then 3 else if mode == 2 || mode == 6 then 6 else if mode == 4 then 13 else 10;
    FieldAt(data, 3);
    if |data| >= 6 { FieldAt(data, 6); }
    if |data| >= 9 { FieldAt(data, 9); }
    if |data| >= 10 { ByteAt(data, 9); }
    if |data| >= 13 { ByteAt(data, 12); }
    if |data| < h {
      IndicesFail(data);
    } else {
      IndicesThen(data, h, ReadIndices(mode, data[3..]).value.value);
    }
  }

  /** A frame without an explicit mode goes out in mode 3, 2 or 0. */
  lemma ImpliedMode(f: Frame)
    requires f.mode == None
    ensures Encode(f) == Encode(f.(mode := Some(if f.reliable && f.ordered then 3 else if f.reliable then 2 else 0)))
  {
    hide Le, Be;
  }

  /** Which frames are encoded, and the errors of the others in the order in which they are noticed. */
  lemma EncodableExactly(f: Frame)
    ensures var mode := if f.mode.Some? then f.mode.value
                        else if f.reliable && f.ordered then 3 else if f.reliable then 2 else 0;
            var r := Encode(f);
            if mode < 0 || mode > 7 then r == Err(ValueError)
            else if |f.payload| > 8191 then r == Err(StructError)
            else if f.splitCount > 0 && (f.splitCount > 0xFFFF_FFFF || f.splitIndex < 0 || f.splitIndex >= f.splitCount)
            then r == Err(ValueError) else r.Ok?
  {
    hide Le, Be;
  }

  // ---- fragments --------------------------------------------------------------------------------

  /** Four bytes from `at` hold v, highest byte first. */
  predicate Holds32(b: Octets, at: nat, v: nat) {
    && at + 4 <= |b|
    && b[at] == v / 0x100_0000 % 256 && b[at + 1] == v / 0x1_0000 % 256
    && b[at + 2] == v / 0x100 % 256 && b[at + 3] == v % 256
  }

  function Read16(b: Octets, at: nat): nat
    requires at + 2 <= |b|
  {
    0x100 * b[at] as int + b[at + 1] as int
  }

  function Read32(b: Octets, at: nat): nat
    requires at + 4 <= |b|
  {
    0x1_0000 * Read16(b, at) + Read16(b, at + 2)
  }

  lemma FromBe16(b: Octets)
    requires |b| == 2
    ensures FromBe(b) == Read16(b, 0)
  {
    assert b[..1] == [b[0]] && [b[0]][..0] == [];
    assert FromBe([b[0]]) == b[0];
  }

  lemma FromBe32(b: Octets)
    requires |b| == 4
    ensures FromBe(b) == Read32(b, 0)
  {
    hide FromBe;
    FromBeStep(b);
    FromBeStep(b[..3]);
    FromBe16(b[..2]);
    assert b[..3][..2] == b[..2];
  }

  /** Ten bytes put in behind the fields, and 16 added to the first byte. */
  lemma TenInserted(head: Octets, flagged: Octets, fields: Octets, split: Octets, payload: Octets)
    requires |head| == |flagged| == 3 && flagged[0] == head[0] as int + 16 && flagged[1..] == head[1..] && |split| == 10
    ensures var (b, plain) := (flagged + fields + split + payload, head + fields + [] + payload);
            var h := 3 + |fields|;
            && b[0] == plain[0] as int + 16 && b[1..h] == plain[1..h] && b[h + 10..] == plain[h..] == payload
            && b[h] == split[0] && b[h + 1] == split[1] && b[h + 2] == split[2] && b[h + 3] == split[3]
            && b[h + 4] == split[4] && b[h + 5] == split[5] && b[h + 6] == split[6] && b[h + 7] == split[7]
            && b[h + 8] == split[8] && b[h + 9] == split[9]
  {
    var (b, plain) := (flagged + fields + split + payload, head + fields + [] + payload);
    assert flagged == [flagged[0]] + flagged[1..] && head == [head[0]] + head[1..];
    assert b[1..3 + |fields|] == flagged[1..] + fields && plain[1..3 + |fields|] == head[1..] + fields;
  }

  lemma SplitFieldBytes(f: Frame)
    requires f.splitCount > 0 && f.splitIndex >= 0
    ensures SplitField(f)
         == [f.splitCount / 0x100_0000 % 256, f.splitCount / 0x1_0000 % 256, f.splitCount / 0x100 % 256,
             f.splitCount % 256, f.splitId / 256 % 256, f.splitId % 256,
             f.splitIndex / 0x100_0000 % 256, f.splitIndex / 0x1_0000 % 256, f.splitIndex / 0x100 % 256,
             f.splitIndex % 256]
  {
    hide Be;
    FourBytes(f.splitCount);
    FourBytes(f.splitIndex);
    TwoBytes(f.splitId % 0x1_0000);
    MaskedId(f.splitId);
  }

  lemma SplitParts(f: Frame)
    requires f.splitCount > 0 && Encode(f).Ok?
    ensures var (plain, fields) := (f.(splitCount := 0), MessageField(f) + SequencingField(f) + OrderField(f));
            && Encode(plain) == Ok(Head(plain) + fields + [] + f.payload)
            && Encode(f) == Ok(Head(f) + fields + SplitField(f) + f.payload)
            && Head(f)[0] == Head(plain)[0] as int + 16 && Head(f)[1..] == Head(plain)[1..]
  {
    hide Le, Be;
    var plain := f.(splitCount := 0);
    assert plain.EffectiveMode() == f.EffectiveMode();
    assert MessageField(plain) == MessageField(f) && SequencingField(plain) == SequencingField(f);
    assert OrderField(plain) == OrderField(f) && SplitField(plain) == [];
    var fields := MessageField(f) + SequencingField(f) + OrderField(f);
    assert Head(f) + MessageField(f) + SequencingField(f) + OrderField(f) == Head(f) + fields;
    assert Head(plain) + MessageField(f) + SequencingField(f) + OrderField(f) == Head(plain) + fields;
  }

  /** A fragment is the frame without its split header, with the split flag and ten bytes behind the index fields. */
  lemma {:induction false} SplitEncodeLayout(f: Frame)
    requires f.splitCount > 0 && Encode(f).Ok?
    ensures Encode(f.(splitCount := 0)).Ok?
    ensures var (b, plain) := (Encode(f).value, Encode(f.(splitCount := 0)).value);
            var h := |plain| - |f.payload|;
            && h >= 3 && |b| == |plain| + 10
            && b[0] == plain[0] as int + 16 && b[1..h] == plain[1..h] && b[h + 10..] == plain[h..] == f.payload
            && Holds32(b, h, f.splitCount) && Holds32(b, h + 6, f.splitIndex)
            && b[h + 4] == f.splitId / 256 % 256 && b[h + 5] == f.splitId % 256
  {
    hide Encode, Head, MessageField, SequencingField, OrderField, SplitField;
    var fields := MessageField(f) + SequencingField(f) + OrderField(f);
    EncodableFragment(f);
    SplitFieldBytes(f);
    SplitParts(f);
    TenInserted(Head(f.(splitCount := 0)), Head(f), fields, SplitField(f), f.payload);
  }

  lemma EncodableFragment(f: Frame)
    requires f.splitCount > 0 && Encode(f).Ok?
    ensures 0 <= f.EffectiveMode() < 8 && 0 <= f.splitIndex
  {}

  lemma MaskedId(v: int)
    ensures v % 0x1_0000 / 256 % 256 == v / 256 % 256 && v % 0x1_0000 % 256 == v % 256
  {
    var w, q := v % 0x1_0000, v / 0x1_0000;
    assert v / 256 == w / 256 + 256 * q;
  }

  /** Where the index fields of each mode end. */
  function HeaderEnd(mode: int): (end: nat)
    ensures 3 <= end <= 13
  {
    match mode
    case 0 => 3
    case 1 => 10
    case 2 => 6
    case 3 => 10
    case 4 => 13
    case 5 => 3
    case 6 => 6
    case _ => 10
  }

  lemma IndicesEnd(mode: int, data: Octets)
    requires 0 <= mode < 8
    ensures var r := ReadIndices(mode, data);
            if |data| < HeaderEnd(mode) - 3 then r == Err(ValueError)
            else r.Ok? && r.value.rest == data[HeaderEnd(mode) - 3..]
  {
    hide FromLe;
  }

  lemma SplitHeaderRead(data: Octets, h: nat)
    requires h <= |data|
    ensures ReadSplit(true, data[h..])
         == if |data| < h + 10 || Read32(data, h) <= Read32(data, h + 6) then Err(ValueError)
            else Ok(Cut(SplitHeader(Read32(data, h), Read16(data, h + 4), Read32(data, h + 6)), data[h + 10..]))
  {
    hide FromBe;
    var rest := data[h..];
    if |data| >= h + 10 {
      FromBe32(rest[..4]);
      FromBe16(rest[4..6]);
      FromBe32(rest[6..10]);
      assert rest[10..] == data[h + 10..];
    }
  }

  /** The frame that the index fields and the split header make. */
  lemma SplitThen(data: Octets, h: nat, i: Indices, s: SplitHeader)
    requires |data| >= 3 && data[0] / 16 % 2 == 1 && h + 10 <= |data|
    requires ReadIndices(data[0] / 32, data[3..]) == Ok(Cut(i, data[h..]))
    requires ReadSplit(true, data[h..]) == Ok(Cut(s, data[h + 10..]))
    ensures Decode(data) == Behind(data, h + 10, Received(data[0] / 32, i, s, []))
  {
    hide FromLe, FromBe, ReadIndices, ReadSplit;
    FromSizeBytes(data);
    if |data| >= h + 10 + SizeOf(data) {
      assert data[h + 10..][..SizeOf(data)] == data[h + 10..h + 10 + SizeOf(data)];
    }
  }

  lemma SplitFails(data: Octets, h: nat)
    requires |data| >= 3 && data[0] / 16 % 2 == 1 && h == HeaderEnd(data[0] / 32)
    requires |data| < h || ReadSplit(true, data[h..]) == Err(ValueError)
    ensures Decode(data) == Err(ValueError)
  {
    hide FromLe, FromBe, ReadIndices, ReadSplit;
    IndicesEnd(data[0] / 32, data[3..]);
    if |data| >= h { assert data[3..][h - 3..] == data[h..]; }
  }

  /** Bytes with the split flag are read as the same bytes without it, and the split header behind the index fields. */
  lemma {:induction false} SplitDecodeLayout(data: Octets)
    requires |data| >= 3 && data[0] / 16 % 2 == 1
    ensures var h := HeaderEnd(data[0] / 32);
            if |data| < h + 10 || Read32(data, h) <= Read32(data, h + 6) || |data| < h + 10 + SizeOf(data)
            then Decode(data) == Err(ValueError)
            else
              var (plain, end) := (Decode(data[0 := data[0] - 16]), h + 10 + SizeOf(data));
              && plain.Ok?
              && Decode(data) == Ok(Decoded(plain.value.frame.(payload := data[h + 10..end],
                                                               splitCount := Read32(data, h),
                                                               splitId := Read16(data, h + 4),
                                                               splitIndex := Read32(data, h + 6)), end))
  {
    hide Decode, ReadIndices, ReadSplit, Read16, Read32, SizeOf, HeaderEnd;
    var (h, plain) := (HeaderEnd(data[0] / 32), data[0 := data[0] - 16]);
    if |data| >= h { SplitHeaderRead(data, h); }
    if |data| < h + 10 || Read32(data, h) <= Read32(data, h + 6) {
      SplitFails(data, h);
    } else {
      var i := IndicesOfBoth(data);
      SplitThen(data, h, i, SplitHeader(Read32(data, h), Read16(data, h + 4), Read32(data, h + 6)));
      IndicesThen(plain, h, i);
      SameSize(data, data[0] - 16);
    }
  }

  lemma SameSize(data: Octets, b: Byte)
    requires |data| >= 3
    ensures SizeOf(data[0 := b]) == SizeOf(data)
  {}

  lemma SameFlags(b: Byte)
    requires b / 16 % 2 == 1
    ensures b >= 16 && (b - 16) / 16 % 2 == 0 && (b - 16) / 32 == b / 32
  {}

  /** The split flag does not change where the index fields are, nor what they say. */
  lemma IndicesOfBoth(data: Octets) returns (i: Indices)
    requires |data| >= 3 && data[0] / 16 % 2 == 1 && |data| >= HeaderEnd(data[0] / 32)
    ensures var (h, plain) := (HeaderEnd(data[0] / 32), data[0 := data[0] - 16]);
            && plain[0] / 16 % 2 == 0 && plain[0] / 32 == data[0] / 32
            && ReadIndices(data[0] / 32, data[3..]) == Ok(Cut(i, data[h..]))
            && ReadIndices(data[0] / 32, plain[3..]) == Ok(Cut(i, plain[h..]))
  {
    hide ReadIndices, HeaderEnd;
    var (h, plain) := (HeaderEnd(data[0] / 32), data[0 := data[0] - 16]);
    assert plain[3..] == data[3..] && data[3..][h - 3..] == data[h..] && plain[h..] == data[h..];
    IndicesEnd(data[0] / 32, data[3..]);
    SameFlags(data[0]);
    i := ReadIndices(data[0] / 32, data[3..]).value.value;
  }

  // ---- datagrams --------------------------------------------------------------------------------

  /** A connected datagram: its flag, its sequence number lowest byte first, and the frames one after the other. */
  lemma {:induction false} DatagramLayout(flag: Byte, sequence: nat, frames: seq<Frame>)
    requires Assemble(flag, sequence, frames).Ok?
    ensures var b := Assemble(flag, sequence, frames).value;
            |b| >= 4 && b[0] == flag && Holds24(b, 1, sequence) && EncodeAll(frames) == Ok(b[4..])
  {
    hide EncodeAll, Le;
    ThreeBytes(sequence);
  }
}
