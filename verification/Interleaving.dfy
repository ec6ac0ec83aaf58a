/**
 * Two split messages at once: whatever way their fragments are mixed, each comes out whole at its own completing push,
 * because they differ in the split id, the channel, the order index or the mode.
 */
module Interleaving {
  import opened Results
  import opened Bytes
  import opened OrderedDict
  import opened RaknetCodec
  import opened Reliability
  import opened SplitReassembly
  import opened Delivery

  /** The fragments of a message, from the first to the last, with the given identifying fields and payloads. */
  ghost predicate Fragmented(fs: seq<Frame>, id: int, channel: int, order: int, mode: int) {
    && fs != []
    && forall i | 0 <= i < |fs| ::
         && fs[i].splitCount == |fs| && fs[i].splitIndex == i
         && fs[i].splitId == id && fs[i].orderChannel == channel && fs[i].orderIndex == order
         && fs[i].mode == Some(mode)
  }

  lemma FragmentedIsMessage(fs: seq<Frame>, id: int, channel: int, order: int, mode: int)
    requires Fragmented(fs, id, channel, order, mode)
    ensures IsMessage(fs, Key(id, channel, order, mode))
  {}

  /** Only the fragments of the two messages, and all of them. */
  ghost predicate Mixes(stream: seq<Frame>, fs: seq<Frame>, gs: seq<Frame>) {
    && (forall f | f in stream :: f in fs || f in gs)
    && (forall f | f in fs :: f in stream)
    && (forall f | f in gs :: f in stream)
  }

  lemma MemberIsOf(fs: seq<Frame>, key: Key, f: Frame)
    requires IsMessage(fs, key) && f in fs
    ensures Of(f, key) && WellFormed(f) && Agrees(f, fs, key) && FieldsOf(f) == key
    ensures forall other | other != key :: !Of(f, other)
  {
    var i :| 0 <= i < |fs| && fs[i] == f;
  }

  /** While the one waits, no group but that of the other is opened. */
  lemma {:induction false} OnlyOneBeside(s: Groups, stream: seq<Frame>, a: Key, b: Key)
    requires forall f | f in stream :: FieldsOf(f) == a || FieldsOf(f) == b
    ensures OpenedBeside(s, stream, a) <= {b}
    decreases |stream|
  {
    hide FieldsOf, PushAll;
    if stream != [] {
      var n := |stream| - 1;
      assert stream[n] in stream;
      OnlyOneBeside(s, stream[..n], a, b);
    }
  }

  lemma {:induction false} MixIsDeliverable(s: Groups, stream: seq<Frame>, fs: seq<Frame>, gs: seq<Frame>, a: Key,
                                            b: Key)
    requires Inv(s) && a !in s.groups.at && s.maxGroups >= 2
    requires IsMessage(fs, a) && IsMessage(gs, b) && a != b && Mixes(stream, fs, gs)
    requires |fs| <= s.maxParts && |JoinPayloads(fs)| <= s.maxBytes
    ensures Deliverable(s, stream, fs, a) && Complete(stream, fs, a)
  {
    hide Inv, IsMessage, Of, WellFormed, FieldsOf, JoinPayloads, OpenedBeside, Agrees;
    forall f | f in stream
      ensures WellFormed(f) && Agrees(f, fs, a) && (FieldsOf(f) == a || FieldsOf(f) == b)
    {
      if f in fs { MemberIsOf(fs, a, f); } else { MemberIsOf(gs, b, f); ForeignAgrees(f, fs, a); }
    }
    OnlyOneBeside(s, stream, a, b);
    FewerMembers(OpenedBeside(s, stream, a), {b});
    AllOfMessage(s, stream, fs, a);
  }

  lemma ForeignAgrees(f: Frame, fs: seq<Frame>, key: Key)
    requires !Of(f, key)
    ensures Agrees(f, fs, key)
  {}

  lemma AllOfMessage(s: Groups, stream: seq<Frame>, fs: seq<Frame>, key: Key)
    requires IsMessage(fs, key) && (forall f | f in stream :: Agrees(f, fs, key)) && forall f | f in fs :: f in stream
    ensures Complete(stream, fs, key)
  {
    HaveBounded(stream, fs, key);
    forall i | 0 <= i < |fs| ensures i in Have(stream, key) {
      assert fs[i] in fs && fs[i] in stream && Of(fs[i], key);
    }
  }

  /** The i-th push delivers the message: its last missing fragment came, and none of its pushes before returned one. */
  ghost predicate DeliveredAt(s: Groups, stream: seq<Frame>, fs: seq<Frame>, i: nat) {
    var results := PushAll(s, stream).results;
    && i < |stream| && stream[i] in fs && stream[i] !in stream[..i]
    && (forall f | f in fs :: f in stream[..i + 1])
    && results[i].Ok? && results[i].value.Some? && results[i].value.value.payload == JoinPayloads(fs)
    && forall k | 0 <= k < i && stream[k] in fs :: results[k] == Ok(None)
  }

  lemma {:induction false} EachIsDelivered(s: Groups, stream: seq<Frame>, fs: seq<Frame>, gs: seq<Frame>, a: Key,
                                           b: Key)
    returns (i: nat)
    requires Inv(s) && a !in s.groups.at && s.maxGroups >= 2
    requires IsMessage(fs, a) && IsMessage(gs, b) && a != b && Mixes(stream, fs, gs)
    requires |fs| <= s.maxParts && |JoinPayloads(fs)| <= s.maxBytes
    ensures DeliveredAt(s, stream, fs, i)
  {
    hide Inv, IsMessage, Of, JoinPayloads, PushAll, Deliverable, Complete, FirstOf;
    MixIsDeliverable(s, stream, fs, gs, a, b);
    i := DeliveringPush(s, stream, fs, a);
    forall k | 0 <= k < i && stream[k] in fs ensures PushAll(s, stream).results[k] == Ok(None) {
      MemberIsOf(fs, a, stream[k]);
    }
    CompletingFrame(stream, fs, gs, a, b, i);
  }

  /** The frame that completes the set is the last fragment to come. */
  lemma {:induction false} CompletingFrame(stream: seq<Frame>, fs: seq<Frame>, gs: seq<Frame>, a: Key, b: Key, i: nat)
    requires IsMessage(fs, a) && IsMessage(gs, b) && a != b && Mixes(stream, fs, gs) && i < |stream|
    requires !Complete(stream[..i], fs, a) && Complete(stream[..i + 1], fs, a)
    ensures stream[i] in fs && stream[i] !in stream[..i] && forall f | f in fs :: f in stream[..i + 1]
  {
    hide IsMessage;
    var (front, all) := (stream[..i], stream[..i + 1]);
    assert all[..i] == front && all[i] == stream[i] && stream[i] in stream;
    HaveGrows(all, a);
    if stream[i] !in fs { MemberIsOf(gs, b, stream[i]); }
    MemberIsOf(fs, a, stream[i]);
    assert stream[i] in front ==> Have(front, a) == Have(all, a);
    forall f | f in fs ensures f in all { HaveMember(stream, fs, gs, a, b, i + 1, f); }
  }

  lemma HaveMember(stream: seq<Frame>, fs: seq<Frame>, gs: seq<Frame>, a: Key, b: Key, n: nat, f: Frame)
    requires IsMessage(fs, a) && IsMessage(gs, b) && a != b && Mixes(stream, fs, gs) && n <= |stream|
    requires Complete(stream[..n], fs, a) && f in fs
    ensures f in stream[..n]
  {
    MemberIsOf(fs, a, f);
    assert f.splitIndex in Have(stream[..n], a);
    var g :| g in stream[..n] && Of(g, a) && g.splitIndex == f.splitIndex;
    assert g in stream;
    if g in gs { MemberIsOf(gs, b, g); }
    MemberIsOf(fs, a, g);
  }

  /**
   * Two messages that differ in at least one of the four fields, their fragments mixed in any way and repeated at will:
   * within the limits both payloads come out, each at the push that brings its last missing fragment.
   */
  lemma {:induction false} BothAreDelivered(s: Groups, stream: seq<Frame>, fs: seq<Frame>, gs: seq<Frame>,
                                            id: int, channel: int, order: int, mode: int,
                                            id': int, channel': int, order': int, mode': int) returns (i: nat, j: nat)
    requires Fragmented(fs, id, channel, order, mode) && Fragmented(gs, id', channel', order', mode')
    requires id != id' || channel != channel' || order != order' || mode != mode'
    requires Inv(s) && Key(id, channel, order, mode) !in s.groups.at
    requires Key(id', channel', order', mode') !in s.groups.at
    requires s.maxGroups >= 2 && |fs| <= s.maxParts && |gs| <= s.maxParts
    requires |JoinPayloads(fs)| <= s.maxBytes && |JoinPayloads(gs)| <= s.maxBytes && Mixes(stream, fs, gs)
    ensures DeliveredAt(s, stream, fs, i) && DeliveredAt(s, stream, gs, j)
  {
    hide Inv, JoinPayloads, IsMessage, DeliveredAt;
    FragmentedIsMessage(fs, id, channel, order, mode);
    FragmentedIsMessage(gs, id', channel', order', mode');
    i := EachIsDelivered(s, stream, fs, gs, Key(id, channel, order, mode), Key(id', channel', order', mode'));
    j := EachIsDelivered(s, stream, gs, fs, Key(id', channel', order', mode'), Key(id, channel, order, mode));
  }

  /** What track_split is given: the window before, the message and how it is to be sent. */
  datatype Sending = Sending(window: Window, payload: Octets, maxPayload: int, ordered: bool, channel: int,
                             splitId: int, now: real)
  {
    function Tracked(): Result<Reliability.Tracked> {
      TrackSplit(window, payload, maxPayload, ordered, channel, splitId, now)
    }

    /** It is split, and the frames fit in the window. */
    ghost predicate Splits() {
      |payload| > maxPayload >= 1 && Tracked().Ok?
    }

    /** Its fragments as they arrive. */
    function Arriving(): seq<Frame>
      requires Tracked().Ok?
    {
      NormalAll(Tracked().value.frames)
    }

    function Order(): int {
      (if ordered then Get(window.nextOrderIndex, channel % 256, 0) else 0) % M24
    }
  }

  lemma {:induction false} ArrivesFragmented(x: Sending)
    requires x.Splits()
    ensures Fragmented(x.Arriving(), x.splitId % 0x1_0000, if x.ordered then x.channel % 256 else 0, x.Order(),
                       if x.ordered then 3 else 2)
    ensures JoinPayloads(x.Arriving()) == x.payload
    ensures |x.Arriving()| == (|x.payload| + x.maxPayload - 1) / x.maxPayload
  {
    hide AdmitAll, Slice, Track;
    CeilingDivision(|x.payload|, x.maxPayload);
    TrackedIsMessage(x.window, x.payload, x.maxPayload, x.ordered, x.channel, x.splitId, x.now);
    ArrivingModes(x);
  }

  lemma ArrivingModes(x: Sending)
    requires x.Splits() && FragmentCount(|x.payload|, x.maxPayload) > 1
    ensures |x.Arriving()| == FragmentCount(|x.payload|, x.maxPayload)
    ensures forall i | 0 <= i < |x.Arriving()| :: x.Arriving()[i].mode == Some(if x.ordered then 3 else 2)
  {
    hide AdmitAll, Slice, FragmentCount, Track;
  }

  /**
   * Two messages as they are sent: if their split ids differ modulo 2^16, or one is ordered and the other is not, or
   * they go over different channels or have different order indices, both payloads come out of any mix of their
   * fragments.
   */
  lemma {:induction false} TwoMessages(x: Sending, y: Sending, s: Groups, stream: seq<Frame>) returns (i: nat, j: nat)
    requires x.Splits() && y.Splits() && Mixes(stream, x.Arriving(), y.Arriving())
    requires || x.splitId % 0x1_0000 != y.splitId % 0x1_0000 || x.ordered != y.ordered
             || (x.ordered && (x.channel % 256 != y.channel % 256 || x.Order() != y.Order()))
    requires Inv(s) && s.maxGroups >= 2
    requires WireKey(x.window, x.ordered, x.channel, x.splitId) !in s.groups.at
    requires WireKey(y.window, y.ordered, y.channel, y.splitId) !in s.groups.at
    requires |x.Arriving()| <= s.maxParts && |y.Arriving()| <= s.maxParts
    requires |x.payload| <= s.maxBytes && |y.payload| <= s.maxBytes
    ensures DeliveredAt(s, stream, x.Arriving(), i) && PushAll(s, stream).results[i].value.value.payload == x.payload
    ensures DeliveredAt(s, stream, y.Arriving(), j) && PushAll(s, stream).results[j].value.value.payload == y.payload
  {
    hide Inv, JoinPayloads, Fragmented, Mixes, PushAll;
    ArrivesFragmented(x);
    ArrivesFragmented(y);
    i, j := BothAreDelivered(
      s, stream, x.Arriving(), y.Arriving(),
      x.splitId % 0x1_0000, if x.ordered then x.channel % 256 else 0, x.Order(), if x.ordered then 3 else 2,
      y.splitId % 0x1_0000, if y.ordered then y.channel % 256 else 0, y.Order(), if y.ordered then 3 else 2);
  }
}
