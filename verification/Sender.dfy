/**
 * The sending side of RakNetClient as a state machine: every operation on the reliability window, the datagram
 * cache and the sequence-to-message map, with a history of what was tracked and what was handed to the socket.
 */
module Sender {
  import opened Results
  import opened Bytes
  import opened OrderedDict
  import opened RaknetCodec
  import opened Reliability

  const CACHE_LIMIT := 4096

  datatype Client = Client(
    window: Window,
    sequence: nat,
    splitId: int,
    datagrams: Dict<int, Octets>,
    messages: Dict<int, int>)

  /**
   * One consumed datagram sequence: its first frame, the serial of that frame if it is tracked, and the frames
   * coalesced behind it. The connection request caches its encrypted packet, `wire`, instead of the datagram.
   */
  datatype Sent = Sent(serial: Option<nat>, flag: Byte, frame: Frame, tail: seq<Frame>, wire: Option<Octets>) {
    function Datagram(sequence: nat): Result<Octets> {
      Assemble(flag, sequence, [frame] + tail)
    }
  }

  /**
   * Unbounded bookkeeping. `tracked[n]` is the n-th tracked frame, `sent[d]` the d-th datagram and `sequences[d]` the
   * number it went out under; `cachedAs` says which datagram each cached sequence stands for. `overwritten` counts
   * frames filed over one still pending, and `reused` records whether an index was ever handed out while a live entry
   * still carried it. `link` is the environment: the exception, if any, that encrypting and sending the d-th datagram
   * raises.
   */
  datatype History = History(
    tracked: seq<Frame>,
    sent: seq<Sent>,
    sequences: seq<int>,
    cachedAs: map<int, nat>,
    retired: set<nat>,
    overwritten: nat,
    reused: bool,
    link: nat -> Option<Fault>)

  datatype State = State(client: Client, history: History)

  /** The state after an operation, and the exception it raised, if any. */
  datatype Outcome = Outcome(state: State, raised: Option<Fault>)

  function Start(window: Window, splitId: int, link: nat -> Option<Fault>): State {
    State(Client(window, 0, splitId, Empty(), Empty()), History([], [], [], map[], {}, 0, false, link))
  }

  /** The latest serial below `total` whose 24-bit index is k. */
  function LastSerial(total: nat, k: int): int {
    total - 1 - (total - 1 - k) % M24
  }

  // ---- the small steps ----------------------------------------------------------

  predicate Carries(messages: map<int, int>, k: int) {
    exists q | q in messages :: messages[q] == k
  }

  function FileFrame(s: State, frame: Frame, now: real): State {
    var (c, h, k) := (s.client, s.history, frame.messageIndex);
    State(
      c.(window := Admit(c.window, frame, now)),
      h.(tracked := h.tracked + [frame],
         overwritten := h.overwritten + if k in c.window.pending.at then 1 else 0,
         reused := h.reused || k in c.window.pending.at || Carries(c.messages.at, k)))
  }

  function FileAll(s: State, frames: seq<Frame>, now: real): State
    decreases |frames|
  {
    if frames == [] then s else FileAll(FileFrame(s, frames[0], now), frames[1..], now)
  }

  /** One datagram is on its way under the next sequence number. */
  function Consume(s: State, sent: Sent): State {
    var (c, h, q) := (s.client, s.history, s.client.sequence);
    State(c.(sequence := (q + 1) % M24),
          h.(sent := h.sent + [sent], sequences := h.sequences + [q], reused := h.reused || q in c.messages.at))
  }

  /** The bytes and the message index of the d-th datagram, under its sequence. */
  function CacheAs(s: State, q: int, d: nat, bytes: Octets, index: int): State {
    var (c, h) := (s.client, s.history);
    State(c.(datagrams := Set(c.datagrams, q, bytes), messages := Set(c.messages, q, index)),
          h.(cachedAs := h.cachedAs[q := d]))
  }

  /** Consumes one sequence number, encodes and sends; a tracked datagram that went out is cached under its sequence. */
  function Emit(s: State, sent: Sent): Outcome {
    var (consumed, q, d) := (Consume(s, sent), s.client.sequence, |s.history.sent|);
    var datagram := sent.Datagram(q);
    if datagram.Err? then Outcome(consumed, Some(datagram.error))
    else if s.history.link(d).Some? then Outcome(consumed, s.history.link(d))
    else if sent.serial.None? then Outcome(consumed, None)
    else
      var bytes := if sent.wire.Some? then sent.wire.value else datagram.value;
      Outcome(CacheAs(consumed, q, d, bytes, sent.frame.messageIndex), None)
  }

  /** Drops a sequence from the cache and from the sequence-to-message map. */
  function Forget(s: State, q: int): State {
    var (c, h) := (s.client, s.history);
    State(c.(datagrams := Pop(c.datagrams, q), messages := Pop(c.messages, q)), h.(cachedAs := h.cachedAs - {q}))
  }

  function Evict(s: State): State
    decreases |s.client.datagrams.keys|
  {
    if |s.client.datagrams.keys| <= CACHE_LIMIT then s else Evict(Forget(s, s.client.datagrams.keys[0]))
  }

  /** Takes the frame with message index k out of the window. */
  function Retire(s: State, k: int): State {
    var (c, h) := (s.client, s.history);
    var serial := LastSerial(|h.tracked|, k);
    State(c.(window := Acknowledge(c.window, k)),
          h.(retired := if k in c.window.pending.at && serial >= 0 then h.retired + {serial} else h.retired))
  }

  function AckOne(s: State, q: int): State {
    if q in s.client.messages.at then Retire(Forget(s, q), s.client.messages.at[q] % M24) else Forget(s, q)
  }

  function AckAll(s: State, sequences: seq<int>): State
    decreases |sequences|
  {
    if sequences == [] then s else AckAll(AckOne(s, sequences[0]), sequences[1..])
  }

  // ---- the operations -----------------------------------------------------------

  /** Sends tracked frames one datagram each; `serial` is the serial of the first. */
  function EmitAll(s: State, serial: nat, frames: seq<Frame>): Outcome
    decreases |frames|
  {
    if frames == [] then Outcome(s, None) else
    var first := Emit(s, Sent(Some(serial), 0x80, frames[0], [], None));
    if first.raised.Some? then first else EmitAll(first.state, serial + 1, frames[1..])
  }

  /** Files what the window tracked: its frames one by one, then the order counter that goes with them. */
  function FileTracked(s: State, t: Tracked, now: real): State {
    var filed := FileAll(s, t.frames, now);
    filed.(client := filed.client.(window := t.window))
  }

  function EvictAfter(o: Outcome): Outcome {
    if o.raised.Some? then o else Outcome(Evict(o.state), None)
  }

  function SendReliable(s: State, payload: Octets, channel: int, ordered: bool, track: bool, maxPayload: int, now: real)
    : Outcome
  {
    var c := s.client;
    if !track then
      var ping := Whole(payload, true, ordered, c.sequence % M24, c.sequence % M24, channel);
      EvictAfter(Emit(s, Sent(None, 0x80, ping, [], None)))
    else
      var split := |payload| > maxPayload;
      var t := if split then TrackSplit(c.window, payload, maxPayload, ordered, channel, c.splitId, now)
               else Track(c.window, payload, ordered, channel, now);
      if t.Err? then Outcome(s, Some(t.error)) else
      var filed := FileTracked(s, t.value, now);
      var numbered := if split then filed.(client := filed.client.(splitId := (c.splitId + 1) % 0x1_0000)) else filed;
      EvictAfter(EmitAll(numbered, |s.history.tracked|, t.value.frames))
  }

  function SendUnreliable(s: State, payload: Octets, flag: Byte): Outcome {
    Emit(s, Sent(None, flag / 128 * 128 + flag % 16, Whole(payload, false, false, 0, 0, 0), [], None))
  }

  /** One tracked frame with untracked ones behind it: connection request, new incoming connection, ping pair. */
  function SendCoalesced(s: State, payload: Octets, ordered: bool, flag: Byte, tail: seq<Frame>, wire: Option<Octets>,
                         now: real): Outcome
  {
    var t := Track(s.client.window, payload, ordered, 0, now);
    if t.Err? then Outcome(s, Some(t.error)) else
    Emit(FileTracked(s, t.value, now), Sent(Some(|s.history.tracked|), flag, t.value.frames[0], tail, wire))
  }

  function Untracked(payload: Octets): Frame {
    Whole(payload, false, false, 0, 0, 0)
  }

  function ApplyAck(s: State, plaintext: Octets): State {
    var list := ParseAck(plaintext);
    if list.Err? then s else AckAll(s, list.value)
  }

  const MAX_ATTEMPTS := 3

  /** The serial a pending frame was tracked under. */
  function SerialOf(s: State, frame: Frame): nat {
    var serial := LastSerial(|s.history.tracked|, frame.messageIndex);
    if serial >= 0 then serial else 0
  }

  function ResendAll(s: State, ready: seq<Pending>): Outcome
    decreases |ready|
  {
    if ready == [] then Outcome(s, None)
    else if ready[0].attempts > MAX_ATTEMPTS then ResendAll(s, ready[1..])
    else
      var first := Emit(s, Sent(Some(SerialOf(s, ready[0].frame)), 0x80, ready[0].frame, [], None));
      if first.raised.Some? then first else ResendAll(first.state, ready[1..])
  }

  function ResendDue(s: State, now: real): Outcome {
    var due := Due(s.client.window, now);
    ResendAll(s.(client := s.client.(window := due.window)), due.ready)
  }

  datatype Event =
    | SendReliableEvent(payload: Octets, channel: int, ordered: bool, track: bool, maxPayload: int, now: real)
    | SendUnreliableEvent(payload: Octets, flag: Byte)
    | SendCoalescedEvent(payload: Octets, ordered: bool, flag: Byte, tail: seq<Frame>, wire: Option<Octets>, now: real)
    | AckEvent(plaintext: Octets)
    | ResendEvent(now: real)

  function Perform(s: State, e: Event): Outcome {
    match e
    case SendReliableEvent(payload, channel, ordered, track, maxPayload, now) =>
      SendReliable(s, payload, channel, ordered, track, maxPayload, now)
    case SendUnreliableEvent(payload, flag) => SendUnreliable(s, payload, flag)
    case SendCoalescedEvent(payload, ordered, flag, tail, wire, now) =>
      SendCoalesced(s, payload, ordered, flag, tail, wire, now)
    case AckEvent(plaintext) => Outcome(ApplyAck(s, plaintext), None)
    case ResendEvent(now) => ResendDue(s, now)
  }

  function Step(s: State, e: Event): State {
    Perform(s, e).state
  }

  /** What the operation raises, when an allowance, an encoding or a transmission fails. */
  function Raised(s: State, e: Event): Option<Fault> {
    Perform(s, e).raised
  }

  function Run(s: State, events: seq<Event>): State {
    if events == [] then s else Step(Run(s, events[..|events| - 1]), events[|events| - 1])
  }

  // ---- the class ----------------------------------------------------------------------

  class RakNetClient {
    const window: ReliabilityWindow
    var datagramSequence: nat
    var nextSplitId: int
    var outboundDatagrams: Dict<int, Octets>
    var outboundMessages: Dict<int, int>
    /** The environment: what encrypting and sending the d-th datagram raises, and how many there were so far. */
    const link: nat -> Option<Fault>
    var transmissions: nat
    var newIncomingSent: bool
    ghost var history: History

    ghost function Current(): State
      reads this, window
    {
      State(Client(window.Model(), datagramSequence, nextSplitId, outboundDatagrams, outboundMessages), history)
    }

    ghost predicate Valid()
      reads this, window
    {
      window.Model().Valid() && history.link == link && transmissions == |history.sent|
    }

    constructor (splitId: int, link: nat -> Option<Fault>)
      ensures Current() == Start(NewWindow(0.75, 4096), splitId, link)
      ensures Valid() && fresh(window) && !newIncomingSent
    {
      window := new ReliabilityWindow();
      datagramSequence, nextSplitId := 0, splitId;
      outboundDatagrams, outboundMessages := Empty(), Empty();
      this.link, transmissions, newIncomingSent := link, 0, false;
      history := History([], [], [], map[], {}, 0, false, link);
    }

    /** One datagram to the socket; a tracked frame goes into both dictionaries. The serial is for the record only. */
    method EmitDatagram(ghost serial: Option<nat>, tracked: bool, flag: Byte, frame: Frame, tail: seq<Frame>,
                        wire: Option<Octets>) returns (raised: Option<Fault>)
      requires Valid() && (tracked <==> serial.Some?)
      modifies this
      ensures Valid() && window.Model() == old(window.Model()) && newIncomingSent == old(newIncomingSent)
      ensures Outcome(Current(), raised) == Emit(old(Current()), Sent(serial, flag, frame, tail, wire))
    {
      hide Assemble, CacheAs, Consume;
      ghost var sent := Sent(serial, flag, frame, tail, wire);
      var sequence, sends := datagramSequence, transmissions;
      CountDatagram(sent);
      var datagram := Assemble(flag, sequence, [frame] + tail);
      if datagram.Err? {
        return Some(datagram.error);
      }
      raised := link(sends);
      if raised.Some? {
        return;
      }
      if tracked {
        CacheDatagram(sequence, sends, if wire.Some? then wire.value else datagram.value, frame.messageIndex);
      }
    }

    /** The sequence number advances as soon as it is read. */
    method CountDatagram(ghost sent: Sent)
      requires Valid()
      modifies this`history, this`datagramSequence, this`transmissions
      ensures Current() == Consume(old(Current()), sent)
      ensures Valid() && transmissions == old(transmissions) + 1
    {
      history := Consume(Current(), sent).history;
      datagramSequence := (datagramSequence + 1) % M24;
      transmissions := transmissions + 1;
    }

    method CacheDatagram(sequence: int, ghost d: nat, bytes: Octets, index: int)
      requires Valid()
      modifies this`history, this`outboundDatagrams, this`outboundMessages
      ensures Current() == CacheAs(old(Current()), sequence, d, bytes, index)
      ensures Valid()
    {
      hide Set;
      outboundDatagrams := Set(outboundDatagrams, sequence, bytes);
      outboundMessages := Set(outboundMessages, sequence, index);
      history := history.(cachedAs := history.cachedAs[sequence := d]);
    }

    method SendReliablePayload(payload: Octets, channel: int, ordered: bool, track: bool, maxPayload: int, now: real)
      returns (raised: Option<Fault>)
      requires Valid()
      modifies this, window
      ensures Valid()
      ensures Outcome(Current(), raised) == SendReliable(old(Current()), payload, channel, ordered, track, maxPayload,
                                                         now)
    {
      hide Emit, EmitAll, Evict, FileAll, Track, TrackSplit;
      if !track {
        var ping := Whole(payload, true, ordered, datagramSequence % M24, datagramSequence % M24, channel);
        raised := EmitDatagram(None, false, 0x80, ping, [], None);
      } else {
        var frames: seq<Frame>;
        ghost var before := Current();
        if |payload| > maxPayload {
          var tracked := window.TrackSplitFrames(payload, maxPayload, ordered, channel, nextSplitId, now);
          if tracked.Err? {
            return Some(tracked.error);
          }
          nextSplitId := (nextSplitId + 1) % 0x1_0000;
          frames := tracked.value;
        } else {
          var tracked := window.TrackFrame(payload, ordered, channel, now);
          if tracked.Err? {
            return Some(tracked.error);
          }
          frames := [tracked.value];
          TrackGivesOne(before.client.window, payload, ordered, channel, now);
        }
        history := FileAll(before, frames, now).history;
        FilingTouchesTheWindowOnly(before, frames, now);
        raised := EmitFrames(|before.history.tracked|, frames);
      }
      if raised.None? {
        EvictOld();
      }
    }

    method EmitFrames(ghost serial: nat, frames: seq<Frame>) returns (raised: Option<Fault>)
      requires Valid()
      modifies this
      ensures Valid() && window.Model() == old(window.Model())
      ensures Outcome(Current(), raised) == EmitAll(old(Current()), serial, frames)
    {
      hide Emit;
      raised := None;
      for i := 0 to |frames|
        invariant Valid() && window.Model() == old(window.Model())
        invariant raised.None?
        invariant EmitAll(Current(), serial + i, frames[i..]) == EmitAll(old(Current()), serial, frames)
      {
        assert frames[i..][0] == frames[i] && frames[i..][1..] == frames[i + 1..];
        raised := EmitDatagram(Some(serial + i), true, 0x80, frames[i], [], None);
        if raised.Some? {
          return;
        }
      }
    }

    method EvictOld()
      requires Valid()
      modifies this
      ensures Valid() && window.Model() == old(window.Model())
      ensures Current() == Evict(old(Current()))
    {
      hide Forget;
      while |outboundDatagrams.keys| > CACHE_LIMIT
        invariant Valid() && window.Model() == old(window.Model())
        invariant Evict(Current()) == Evict(old(Current()))
        decreases |outboundDatagrams.keys|
      {
        var eldest := outboundDatagrams.keys[0];
        ForgetShrinks(Current());
        ForgetSequence(eldest);
      }
    }

    /** The two pops of a sequence. */
    method ForgetSequence(q: int)
      requires Valid()
      modifies this`history, this`outboundDatagrams, this`outboundMessages
      ensures Current() == Forget(old(Current()), q)
      ensures Valid() && window.Model() == old(window.Model())
    {
      hide Pop;
      outboundDatagrams := Pop(outboundDatagrams, q);
      outboundMessages := Pop(outboundMessages, q);
      history := history.(cachedAs := history.cachedAs - {q});
    }

    method SendUnreliablePayload(payload: Octets, flag: Byte) returns (raised: Option<Fault>)
      requires Valid()
      modifies this
      ensures Valid()
      ensures Outcome(Current(), raised) == SendUnreliable(old(Current()), payload, flag)
    {
      raised := EmitDatagram(None, false, flag / 128 * 128 + flag % 16, Whole(payload, false, false, 0, 0, 0), [],
                             None);
    }

    /** The shape shared by the connection request, the new incoming connection and the replication ping pair. */
    method SendCoalescedPayload(payload: Octets, ordered: bool, flag: Byte, tail: seq<Frame>, wire: Option<Octets>,
                                now: real)
      returns (raised: Option<Fault>)
      requires Valid()
      modifies this, window
      ensures Valid() && newIncomingSent == old(newIncomingSent)
      ensures Outcome(Current(), raised) == SendCoalesced(old(Current()), payload, ordered, flag, tail, wire, now)
    {
      hide Emit, Track;
      ghost var before := Current();
      var tracked := window.TrackFrame(payload, ordered, 0, now);
      if tracked.Err? {
        return Some(tracked.error);
      }
      TrackGivesOne(before.client.window, payload, ordered, 0, now);
      history := FileAll(before, [tracked.value], now).history;
      FilingTouchesTheWindowOnly(before, [tracked.value], now);
      raised := EmitDatagram(Some(|before.history.tracked|), true, flag, tracked.value, tail, wire);
    }

    /** Once only, and only remembered as sent if nothing raised. */
    method SendNewIncomingConnection(payload: Octets, ping: Octets, now: real) returns (raised: Option<Fault>)
      requires Valid()
      modifies this, window
      ensures Valid()
      ensures old(newIncomingSent) ==> raised.None? && newIncomingSent && Current() == old(Current())
      ensures !old(newIncomingSent) ==>
                && Outcome(Current(), raised)
                   == SendCoalesced(old(Current()), payload, true, 0x81, [Untracked(ping)], None, now)
                && newIncomingSent == raised.None?
    {
      hide SendCoalesced;
      if newIncomingSent {
        return None;
      }
      raised := SendCoalescedPayload(payload, true, 0x81, [Untracked(ping)], None, now);
      if raised.None? {
        newIncomingSent := true;
      }
    }

    /** Caches its encrypted packet; the exceptions it expects are recorded and not passed on. */
    method SendConnectionRequest(payload: Octets, wire: Octets, now: real) returns (raised: Option<Fault>)
      requires Valid()
      modifies this, window
      ensures Valid()
      ensures var o := SendCoalesced(old(Current()), payload, false, 0x81, [], Some(wire), now);
              && Current() == o.state
              && raised == if o.raised == Some(OSError) || o.raised == Some(ValueError) then None else o.raised
    {
      hide SendCoalesced;
      raised := SendCoalescedPayload(payload, false, 0x81, [], Some(wire), now);
      if raised == Some(OSError) || raised == Some(ValueError) {
        raised := None;
      }
    }

    method SendPingPair(reliable: Octets, report: Octets, now: real) returns (raised: Option<Fault>)
      requires Valid()
      modifies this, window
      ensures Valid()
      ensures Outcome(Current(), raised)
           == SendCoalesced(old(Current()), reliable, true, 0x80, [Untracked(report)], None, now)
    {
      hide SendCoalesced;
      raised := SendCoalescedPayload(reliable, true, 0x80, [Untracked(report)], None, now);
    }

    method ApplyAckDatagram(plaintext: Octets)
      requires Valid()
      modifies this, window
      ensures Valid()
      ensures Current() == ApplyAck(old(Current()), plaintext)
    {
      hide ParseAck, AckOne;
      var sequences := ReadAckList(plaintext);
      if sequences.Err? {
        return;
      }
      var list := sequences.value;
      for i := 0 to |list|
        invariant Valid()
        invariant AckAll(Current(), list[i..]) == AckAll(old(Current()), list)
      {
        assert list[i..][0] == list[i] && list[i..][1..] == list[i + 1..];
        AckSequence(list[i]);
      }
    }

    method AckSequence(sequence: int)
      requires Valid()
      modifies this, window
      ensures Valid()
      ensures Current() == AckOne(old(Current()), sequence)
    {
      hide LastSerial, Pop;
      ghost var before := Current();
      outboundDatagrams := Pop(outboundDatagrams, sequence);
      if sequence in outboundMessages.at {
        var index := outboundMessages.at[sequence];
        outboundMessages := Pop(outboundMessages, sequence);
        var _ := window.AcknowledgeFrame(index);
        assert (index % M24) % M24 == index % M24;
      } else {
        outboundMessages := Pop(outboundMessages, sequence);
      }
      history := AckOne(before, sequence).history;
    }

    method ResendDueFrames(now: real) returns (raised: Option<Fault>)
      requires Valid()
      modifies this, window
      ensures Valid()
      ensures Outcome(Current(), raised) == ResendDue(old(Current()), now)
    {
      hide Emit, DueFrom, RefreshAll, LastSerial;
      var ready := window.DueFrames(now);
      ghost var start := Current();
      raised := None;
      for i := 0 to |ready|
        invariant Valid() && window.Model() == start.client.window
        invariant raised.None?
        invariant ResendAll(Current(), ready[i..]) == ResendAll(start, ready)
      {
        assert ready[i..][0] == ready[i] && ready[i..][1..] == ready[i + 1..];
        if ready[i].attempts > MAX_ATTEMPTS {
          continue;
        }
        raised := EmitDatagram(Some(SerialOf(Current(), ready[i].frame)), true, 0x80, ready[i].frame, [], None);
        if raised.Some? {
          return;
        }
      }
    }
  }

  lemma ForgetShrinks(s: State)
    requires |s.client.datagrams.keys| > 0
    ensures |Forget(s, s.client.datagrams.keys[0]).client.datagrams.keys| < |s.client.datagrams.keys|
    ensures Forget(s, s.client.datagrams.keys[0]).client.window == s.client.window
    ensures var h := Forget(s, s.client.datagrams.keys[0]).history; h.link == s.history.link && h.sent == s.history.sent
  {
    assert s.client.datagrams.keys[0] in s.client.datagrams.keys;
  }

  lemma TrackGivesOne(w: Window, payload: Octets, ordered: bool, channel: int, now: real)
    ensures var t := Track(w, payload, ordered, channel, now); t.Ok? ==> t.value.frames == [t.value.frames[0]]
  {}

  lemma {:induction false} FilingTouchesTheWindowOnly(s: State, frames: seq<Frame>, now: real)
    ensures var c' := FileAll(s, frames, now).client; c' == s.client.(window := c'.window)
    ensures var h' := FileAll(s, frames, now).history; h'.sent == s.history.sent && h'.link == s.history.link
    decreases |frames|
  {
    if frames != [] { FilingTouchesTheWindowOnly(FileFrame(s, frames[0], now), frames[1..], now); }
  }
}
