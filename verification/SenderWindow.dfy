/**
 * The window hypothesis of the sender, in terms of ages. A run is safe exactly as long as no event lets a live entry
 * grow older than 2^24: conservation, agreement of the dictionaries and soundness of ACKs follow for whole runs.
 */
module SenderWindow {
  import opened Results
  import opened Bytes
  import opened OrderedDict
  import opened RaknetCodec
  import opened Reliability
  import opened Sender
  import opened SenderSafety

  // ---- ages ---------------------------------------------------------------------------

  /** After `more` further numbers are handed out, none of the live ones has come round again. */
  ghost predicate Young(total: nat, live: set<int>, more: int) {
    more <= M24 && forall k | k in live :: total - LastSerial(total, k) + more <= M24
  }

  ghost predicate IndexRange(live: set<int>) {
    forall k | k in live :: 0 <= k < M24
  }

  lemma YoungNow(total: nat, live: set<int>)
    requires IndexRange(live)
    ensures Young(total, live, 0)
  {
    hide LastSerial;
    forall k | k in live ensures total - LastSerial(total, k) <= M24 {
      LastSerialIs(total, k);
    }
  }

  /** Handing out one number: it must not be live, and joins the live ones with age one. */
  lemma {:induction false} YoungStep(total: nat, live: set<int>, more: nat)
    requires IndexRange(live) && more >= 1
    ensures var k := total % M24;
            Young(total, live, more) <==> k !in live && Young(total + 1, live + {k}, more - 1)
    ensures IndexRange(live + {total % M24})
  {
    hide LastSerial;
    var next := total % M24;
    forall k | k in live + {next}
      ensures total + 1 - LastSerial(total + 1, k) == if k == next then 1 else total - LastSerial(total, k) + 1
    {
      LastSerialAfter(total, k);
    }
    LastSerialIs(total, next);
    FullSpan(total, next);
  }

  /** The last number of all: an event that raised handed it out without making it live. */
  lemma YoungOnce(total: nat, live: set<int>)
    requires IndexRange(live)
    ensures Young(total, live, 1) <==> total % M24 !in live
  {
    hide Young;
    YoungStep(total, live, 1);
    YoungNow(total + 1, live + {total % M24});
  }

  // ---- filing ---------------------------------------------------------------------------

  function PendingIndices(s: State): set<int> {
    s.client.window.pending.at.Keys
  }

  /** Every message index that a pending frame or a cached datagram still carries. */
  function LiveIndices(s: State): set<int> {
    PendingIndices(s) + set q | q in s.client.messages.at :: s.client.messages.at[q]
  }

  function LiveSequences(s: State): set<int> {
    s.client.messages.at.Keys
  }

  lemma FileFrameFacts(s: State, frame: Frame, now: real)
    ensures var (s', k) := (FileFrame(s, frame, now), frame.messageIndex);
            && PendingIndices(s') == PendingIndices(s) + {k}
            && LiveIndices(s') == LiveIndices(s) + {k}
            && |s'.history.tracked| == |s.history.tracked| + 1
            && (s'.history.reused <==> s.history.reused || k in LiveIndices(s))
            && s'.history.overwritten == s.history.overwritten + if k in PendingIndices(s) then 1 else 0
  {
    hide Set;
  }

  /** Filing frames reuses a live index, or overwrites a pending frame, exactly when one of them grows too old. */
  lemma {:induction false} FilingReuses(s: State, frames: seq<Frame>, now: real)
    requires IndexRange(LiveIndices(s))
    requires forall j | 0 <= j < |frames| :: frames[j].messageIndex == (|s.history.tracked| + j) % M24
    ensures var (s', total) := (FileAll(s, frames, now), |s.history.tracked|);
            && (s'.history.reused <==> s.history.reused || !Young(total, LiveIndices(s), |frames|))
            && s'.history.overwritten >= s.history.overwritten
            && (s'.history.overwritten == s.history.overwritten <==> Young(total, PendingIndices(s), |frames|))
    decreases |frames|
  {
    hide FileFrame, Young, LiveIndices, PendingIndices;
    var total := |s.history.tracked|;
    PendingIsLive(s);
    if frames == [] {
      YoungNow(total, LiveIndices(s));
      YoungNow(total, PendingIndices(s));
    } else {
      var s1 := FileFrame(s, frames[0], now);
      assert frames[0].messageIndex == (total + 0) % M24;
      FileFrameFacts(s, frames[0], now);
      YoungStep(total, LiveIndices(s), |frames|);
      YoungStep(total, PendingIndices(s), |frames|);
      forall j | 0 <= j < |frames[1..]| ensures frames[1..][j].messageIndex == (|s1.history.tracked| + j) % M24 {
        assert frames[1..][j] == frames[j + 1];
      }
      FilingReuses(s1, frames[1..], now);
    }
  }

  lemma PendingIsLive(s: State)
    requires IndexRange(LiveIndices(s))
    ensures IndexRange(PendingIndices(s))
  {}

  lemma {:induction false} FilingGrows(s: State, frames: seq<Frame>, now: real)
    ensures var s' := FileAll(s, frames, now);
            && s'.history.tracked == s.history.tracked + frames
            && s'.history.sent == s.history.sent && s'.client.sequence == s.client.sequence
            && s'.client.messages == s.client.messages
    decreases |frames|
  {
    if frames != [] {
      FileFrameChanges(s, frames[0], now);
      FilingGrows(FileFrame(s, frames[0], now), frames[1..], now);
      assert frames == [frames[0]] + frames[1..];
    }
  }

  // ---- sending --------------------------------------------------------------------------

  ghost predicate Numbered(s: State) {
    s.client.sequence == |s.history.sent| % M24 && IndexRange(LiveSequences(s))
  }

  lemma EmitFacts(s: State, sent: Sent)
    requires Numbered(s)
    ensures var (o, k) := (Emit(s, sent), |s.history.sent| % M24);
            var s' := o.state;
            && Numbered(s') && |s'.history.sent| == |s.history.sent| + 1
            && s'.history.tracked == s.history.tracked && s'.history.overwritten == s.history.overwritten
            && s'.client.window == s.client.window
            && (s'.history.reused <==> s.history.reused || k in LiveSequences(s))
            && LiveSequences(s') == if o.raised.None? && sent.serial.Some? then LiveSequences(s) + {k}
                                    else LiveSequences(s)
  {
    hide Assemble, Set;
    WrapStep(|s.history.sent|, 0);
  }

  /** What a loop of transmissions does to the record. */
  ghost predicate Transmitted(s: State, s': State) {
    && |s'.history.sent| >= |s.history.sent|
    && s'.history.tracked == s.history.tracked && s'.history.overwritten == s.history.overwritten
    && (s'.history.reused
        <==> s.history.reused || !Young(|s.history.sent|, LiveSequences(s), |s'.history.sent| - |s.history.sent|))
  }

  lemma NothingTransmitted(s: State)
    requires Numbered(s)
    ensures Transmitted(s, s)
  {
    hide Young;
    YoungNow(|s.history.sent|, LiveSequences(s));
  }

  lemma OneTransmitted(s: State, sent: Sent)
    requires Numbered(s)
    ensures Transmitted(s, Emit(s, sent).state)
  {
    hide Young, Emit;
    EmitFacts(s, sent);
    YoungOnce(|s.history.sent|, LiveSequences(s));
  }

  lemma MoreTransmitted(s: State, sent: Sent, s': State)
    requires Numbered(s) && sent.serial.Some? && Emit(s, sent).raised.None?
    requires Transmitted(Emit(s, sent).state, s')
    ensures Transmitted(s, s')
  {
    hide Young, Emit;
    EmitFacts(s, sent);
    YoungStep(|s.history.sent|, LiveSequences(s), |s'.history.sent| - |s.history.sent|);
  }

  lemma {:induction false} EmitAllTransmits(s: State, serial: nat, frames: seq<Frame>)
    requires Numbered(s)
    ensures Transmitted(s, EmitAll(s, serial, frames).state)
    decreases |frames|
  {
    hide Emit, Transmitted, Numbered;
    if frames == [] {
      NothingTransmitted(s);
    } else {
      var sent := Sent(Some(serial), 0x80, frames[0], [], None);
      var first := Emit(s, sent);
      OneTransmitted(s, sent);
      EmitFacts(s, sent);
      if first.raised.None? {
        EmitAllTransmits(first.state, serial + 1, frames[1..]);
        MoreTransmitted(s, sent, EmitAll(first.state, serial + 1, frames[1..]).state);
      }
    }
  }

  lemma {:induction false} ResendAllTransmits(s: State, ready: seq<Pending>)
    requires Numbered(s)
    ensures Transmitted(s, ResendAll(s, ready).state)
    decreases |ready|
  {
    hide Emit, Transmitted, Numbered, SerialOf;
    if ready == [] {
      NothingTransmitted(s);
    } else if ready[0].attempts > MAX_ATTEMPTS {
      ResendAllTransmits(s, ready[1..]);
    } else {
      var sent := Sent(Some(SerialOf(s, ready[0].frame)), 0x80, ready[0].frame, [], None);
      var first := Emit(s, sent);
      OneTransmitted(s, sent);
      EmitFacts(s, sent);
      if first.raised.None? {
        ResendAllTransmits(first.state, ready[1..]);
        MoreTransmitted(s, sent, ResendAll(first.state, ready[1..]).state);
      }
    }
  }

  // ---- forgetting -------------------------------------------------------------------------

  /** Evicting and acknowledging hand out nothing. */
  ghost predicate SameRecord(s: State, s': State) {
    && s'.history.tracked == s.history.tracked && s'.history.sent == s.history.sent
    && s'.history.reused == s.history.reused && s'.history.overwritten == s.history.overwritten
  }

  lemma {:induction false} EvictKeepsRecord(s: State)
    ensures SameRecord(s, Evict(s))
    decreases |s.client.datagrams.keys|
  {
    if |s.client.datagrams.keys| > CACHE_LIMIT { EvictKeepsRecord(Forget(s, s.client.datagrams.keys[0])); }
  }

  lemma AckOneKeepsRecord(s: State, q: int)
    ensures SameRecord(s, AckOne(s, q))
  {
    hide LastSerial;
  }

  lemma {:induction false} AckAllKeepsRecord(s: State, sequences: seq<int>)
    ensures SameRecord(s, AckAll(s, sequences))
    decreases |sequences|
  {
    hide AckOne;
    if sequences != [] {
      AckOneKeepsRecord(s, sequences[0]);
      AckAllKeepsRecord(AckOne(s, sequences[0]), sequences[1..]);
    }
  }

  // ---- one event ----------------------------------------------------------------------------

  /** Between two states: which live entries have to be how young for nothing to be reused, or overwritten. */
  ghost predicate Moved(s: State, s': State) {
    var filed := |s'.history.tracked| - |s.history.tracked|;
    var emitted := |s'.history.sent| - |s.history.sent|;
    && filed >= 0 && emitted >= 0
    && (s'.history.reused
        <==> || s.history.reused
             || !Young(|s.history.tracked|, LiveIndices(s), filed)
             || !Young(|s.history.sent|, LiveSequences(s), emitted))
    && s'.history.overwritten >= s.history.overwritten
    && (s'.history.overwritten == s.history.overwritten <==> Young(|s.history.tracked|, PendingIndices(s), filed))
  }

  lemma TransmittingMoves(s: State, s': State)
    requires IndexRange(LiveIndices(s)) && Transmitted(s, s')
    ensures Moved(s, s')
  {
    hide Young, LiveIndices, PendingIndices, LiveSequences;
    PendingIsLive(s);
    YoungNow(|s.history.tracked|, LiveIndices(s));
    YoungNow(|s.history.tracked|, PendingIndices(s));
  }

  lemma RestingMoves(s: State, s': State)
    requires IndexRange(LiveIndices(s)) && Numbered(s) && SameRecord(s, s')
    ensures Moved(s, s')
  {
    hide Young, LiveIndices, Numbered;
    NothingTransmitted(s);
    TransmittingMoves(s, s);
  }

  lemma FilingMoves(s: State, frames: seq<Frame>, now: real, filed: State, s': State)
    requires IndexRange(LiveIndices(s)) && NextFrames(s, frames)
    requires filed.history == FileAll(s, frames, now).history && filed.client.messages == s.client.messages
    requires Transmitted(filed, s')
    ensures Moved(s, s')
  {
    hide Young, LiveIndices, PendingIndices, FileAll, IndexRange, LiveSequences, NextFrames;
    NumberedNext(s, frames);
    FilingReuses(s, frames, now);
    FilingGrows(s, frames, now);
    assert LiveSequences(filed) == LiveSequences(s) by { SameSequences(s, filed); }
  }

  lemma NumberedNext(s: State, frames: seq<Frame>)
    requires NextFrames(s, frames)
    ensures forall j | 0 <= j < |frames| :: frames[j].messageIndex == (|s.history.tracked| + j) % M24
  {}

  lemma SameSequences(s: State, s': State)
    requires s'.client.messages == s.client.messages
    ensures LiveSequences(s') == LiveSequences(s)
  {}

  lemma SettlingMoves(s: State, s': State, settled: State)
    requires Moved(s, s') && SameRecord(s', settled)
    ensures Moved(s, settled)
  {
    hide Young, LiveIndices, PendingIndices, LiveSequences;
  }

  lemma InvNumbers(s: State)
    requires Inv(s)
    ensures Numbered(s) && IndexRange(LiveIndices(s)) && 0 <= s.client.window.nextMessageIndex < M24
  {
    hide SendCount, LastSerial, FreshInv, LogInv, ConservationInv;
    forall k | k in PendingIndices(s) ensures 0 <= k < M24 {
      assert PendingEntryInv(s.history, k, s.client.window.pending.at[k], false);
    }
    forall q | q in s.client.messages.at ensures 0 <= q < M24 && 0 <= s.client.messages.at[q] < M24 {
      assert CacheEntryInv(s, q);
    }
  }

  lemma {:induction false} SendReliableMoves(s: State, payload: Octets, channel: int, ordered: bool, track: bool,
                                             maxPayload: int, now: real)
    requires Inv(s)
    ensures Moved(s, SendReliable(s, payload, channel, ordered, track, maxPayload, now).state)
  {
    hide Inv, Moved, Transmitted, Emit, EmitAll, Evict, FileAll, Track, TrackSplit, LiveIndices, SameRecord, Shape;
    InvNumbers(s);
    var c := s.client;
    if !track {
      var sent := Sent(None, 0x80, Whole(payload, true, ordered, c.sequence % M24, c.sequence % M24, channel), [],
                       None);
      var o := Emit(s, sent);
      OneTransmitted(s, sent);
      TransmittingMoves(s, o.state);
      EvictKeepsRecord(o.state);
      if o.raised.None? { SettlingMoves(s, o.state, Evict(o.state)); }
    } else {
      var split := |payload| > maxPayload;
      var t := if split then TrackSplit(c.window, payload, maxPayload, ordered, channel, c.splitId, now)
               else Track(c.window, payload, ordered, channel, now);
      if split {
        TrackSplitShape(c.window, payload, maxPayload, ordered, channel, c.splitId, now);
      } else {
        TrackShape(c.window, payload, ordered, channel, now);
      }
      if t.Err? {
        SameRecordAsItself(s);
        RestingMoves(s, s);
      } else {
        var filed := FileTracked(s, t.value, now);
        var numbered := if split then filed.(client := filed.client.(splitId := (c.splitId + 1) % 0x1_0000)) else filed;
        FilingGrows(s, t.value.frames, now);
        SendTrackedMoves(s, t.value, ordered, channel, now, numbered);
      }
    }
  }

  lemma SameRecordAsItself(s: State)
    ensures SameRecord(s, s)
  {}

  /** Filed, then sent one by one, then settled. */
  lemma SendTrackedMoves(s: State, t: Tracked, ordered: bool, channel: int, now: real, filed: State)
    requires Inv(s) && Shape(s.client.window, Ok(t), ordered, channel, now)
    requires filed.history == FileAll(s, t.frames, now).history
    requires filed.client.messages == s.client.messages && filed.client.sequence == s.client.sequence
    ensures Moved(s, EvictAfter(EmitAll(filed, |s.history.tracked|, t.frames)).state)
  {
    hide Moved, Transmitted, Emit, EmitAll, Evict, FileAll, Shape, SameRecord, LiveIndices;
    InvNumbers(s);
    InvParts(s);
    FilingGrows(s, t.frames, now);
    ShapeGivesNextFrames(s, t, ordered, channel, now);
    EmitAllTransmits(filed, |s.history.tracked|, t.frames);
    var o := EmitAll(filed, |s.history.tracked|, t.frames);
    FilingMoves(s, t.frames, now, filed, o.state);
    EvictKeepsRecord(o.state);
    if o.raised.None? { SettlingMoves(s, o.state, Evict(o.state)); }
  }

  lemma {:induction false} SendCoalescedMoves(s: State, payload: Octets, ordered: bool, flag: Byte, tail: seq<Frame>,
                                              wire: Option<Octets>, now: real)
    requires Inv(s)
    ensures Moved(s, SendCoalesced(s, payload, ordered, flag, tail, wire, now).state)
  {
    hide Inv, Moved, Transmitted, Emit, FileAll, Track, LiveIndices, SameRecord, Shape;
    InvNumbers(s);
    InvParts(s);
    TrackShape(s.client.window, payload, ordered, 0, now);
    var t := Track(s.client.window, payload, ordered, 0, now);
    if t.Err? {
      SameRecordAsItself(s);
      RestingMoves(s, s);
    } else {
      assert |t.value.frames| > 0 by { TrackGivesOne(s.client.window, payload, ordered, 0, now); }
      var filed := FileTracked(s, t.value, now);
      var sent := Sent(Some(|s.history.tracked|), flag, t.value.frames[0], tail, wire);
      FilingGrows(s, t.value.frames, now);
      ShapeGivesNextFrames(s, t.value, ordered, 0, now);
      OneTransmitted(filed, sent);
      FilingMoves(s, t.value.frames, now, filed, Emit(filed, sent).state);
    }
  }

  lemma {:induction false} StepMoves(s: State, e: Event)
    requires Inv(s)
    ensures Moved(s, Step(s, e))
  {
    hide Inv, Moved, Transmitted, SendReliable, SendCoalesced, Emit, AckAll, ResendAll, LiveIndices, SameRecord,
         ParseAck, Due;
    InvNumbers(s);
    match e {
      case SendReliableEvent(payload, channel, ordered, track, maxPayload, now) =>
        SendReliableMoves(s, payload, channel, ordered, track, maxPayload, now);
      case SendUnreliableEvent(payload, flag) =>
        var sent := Sent(None, flag / 128 * 128 + flag % 16, Whole(payload, false, false, 0, 0, 0), [], None);
        OneTransmitted(s, sent);
        TransmittingMoves(s, Emit(s, sent).state);
      case SendCoalescedEvent(payload, ordered, flag, tail, wire, now) =>
        SendCoalescedMoves(s, payload, ordered, flag, tail, wire, now);
      case AckEvent(plaintext) =>
        SameRecordAsItself(s);
        if ParseAck(plaintext).Ok? { AckAllKeepsRecord(s, ParseAck(plaintext).value); }
        RestingMoves(s, ApplyAck(s, plaintext));
      case ResendEvent(now) =>
        var due := Due(s.client.window, now);
        var refreshed := s.(client := s.client.(window := due.window));
        RefreshingKeepsLive(s, now);
        ResendAllTransmits(refreshed, due.ready);
        TransmittingMoves(refreshed, ResendAll(refreshed, due.ready).state);
        MovedFromSameLive(s, refreshed, ResendAll(refreshed, due.ready).state);
    }
  }

  lemma RefreshingKeepsLive(s: State, now: real)
    requires Numbered(s)
    ensures var s' := s.(client := s.client.(window := Due(s.client.window, now).window));
            Numbered(s') && LiveIndices(s') == LiveIndices(s)
            && PendingIndices(s') == PendingIndices(s) && LiveSequences(s') == LiveSequences(s)
  {
    hide DueFrom;
  }

  lemma MovedFromSameLive(s: State, s1: State, s2: State)
    requires Moved(s1, s2) && s1.history == s.history
    requires LiveIndices(s1) == LiveIndices(s) && PendingIndices(s1) == PendingIndices(s)
    requires LiveSequences(s1) == LiveSequences(s)
    ensures Moved(s, s2)
  {
    hide Young, LiveIndices, PendingIndices, LiveSequences;
  }

  // ---- the condition of one event -----------------------------------------------------------

  /** The frames that an event files, read off the state before it. */
  function Filed(s: State, e: Event): seq<Frame> {
    var w := s.client.window;
    match e
    case SendReliableEvent(payload, channel, ordered, track, maxPayload, now) =>
      if !track then []
      else if |payload| > maxPayload then FramesOf(TrackSplit(w, payload, maxPayload, ordered, channel,
                                                              s.client.splitId, now))
      else FramesOf(Track(w, payload, ordered, channel, now))
    case SendCoalescedEvent(payload, ordered, _, _, _, now) => FramesOf(Track(w, payload, ordered, 0, now))
    case _ => []
  }

  function FramesOf(t: Result<Tracked>): seq<Frame> {
    if t.Err? then [] else t.value.frames
  }

  function Filing(s: State, e: Event): nat {
    |Filed(s, e)|
  }

  /** The due entries that are sent once more: the others have used up their attempts. */
  function Unexhausted(ready: seq<Pending>): nat {
    if ready == [] then 0 else (if ready[0].attempts > MAX_ATTEMPTS then 0 else 1) + Unexhausted(ready[1..])
  }

  /** How many datagrams an event sends unless it raises, read off the state before it. */
  function Planned(s: State, e: Event): nat {
    match e
    case SendReliableEvent(_, _, _, track, _, _) => if track then Filing(s, e) else 1
    case SendUnreliableEvent(_, _) => 1
    case SendCoalescedEvent(_, _, _, _, _, _) => Filing(s, e)
    case AckEvent(_) => 0
    case ResendEvent(now) => Unexhausted(Due(s.client.window, now).ready)
  }

  /** How many it does send: a transmission that raises is the last one. */
  function Emitted(s: State, e: Event): int {
    |Step(s, e).history.sent| - |s.history.sent|
  }

  /** No pending frame grows older than 2^24 when so many more are filed. */
  ghost predicate PendingStayYoung(s: State, filed: int) {
    && filed <= M24
    && forall k | k in s.client.window.pending.at ::
         |s.history.tracked| - LastSerial(|s.history.tracked|, k) + filed <= M24
  }

  /** Nor does a frame that a cached datagram carried, nor that datagram when so many more are sent. */
  ghost predicate CachedStayYoung(s: State, filed: int, emitted: int) {
    && emitted <= M24
    && forall q | q in s.client.messages.at && CacheEntryInv(s, q) ::
         && |s.history.tracked| - CarriedBy(s, q) + filed <= M24
         && |s.history.sent| - s.history.cachedAs[q] + emitted <= M24
  }

  ghost predicate Safe(s: State, filed: int, emitted: int) {
    PendingStayYoung(s, filed) && CachedStayYoung(s, filed, emitted)
  }

  /** The ages of live indices are the ages of the frames and datagrams they stand for. */
  lemma {:induction false} SafeIsYoung(s: State, filed: int, emitted: int)
    requires Inv(s) && !s.history.reused
    ensures Safe(s, filed, emitted)
       <==> && Young(|s.history.tracked|, LiveIndices(s), filed)
            && Young(|s.history.sent|, LiveSequences(s), emitted)
  {
    hide SendCount, LastSerial, LogInv, ConservationInv, PendingInv, CacheEntryInv, CarriedBy;
    var (c, h) := (s.client, s.history);
    forall q | q in c.messages.at
      ensures CacheEntryInv(s, q)
      ensures LastSerial(|h.tracked|, c.messages.at[q]) == CarriedBy(s, q) && LastSerial(|h.sent|, q) == h.cachedAs[q]
    {
      CachedAge(s, q);
    }
  }

  lemma CachedAge(s: State, q: int)
    requires Inv(s) && !s.history.reused && q in s.client.messages.at
    ensures CacheEntryInv(s, q)
    ensures LastSerial(|s.history.sent|, q) == s.history.cachedAs[q]
  {
    hide SendCount, LastSerial, LogInv, ConservationInv, PendingInv;
    assert CacheEntryInv(s, q);
    LastSerialUnique(|s.history.sent|, s.history.cachedAs[q]);
  }

  lemma {:induction false} SendReliableFiles(s: State, payload: Octets, channel: int, ordered: bool, track: bool,
                                             maxPayload: int, now: real)
    requires Numbered(s)
    ensures var e := SendReliableEvent(payload, channel, ordered, track, maxPayload, now);
            && Step(s, e).history.tracked == s.history.tracked + Filed(s, e)
            && 0 <= Emitted(s, e) <= Planned(s, e)
            && (Raised(s, e).None? ==> Emitted(s, e) == Planned(s, e))
  {
    hide EmitAll, FileAll, Evict, Track, TrackSplit, Emit, LiveIndices;
    var c := s.client;
    if !track {
      var sent := Sent(None, 0x80, Whole(payload, true, ordered, c.sequence % M24, c.sequence % M24, channel), [],
                       None);
      EmitFacts(s, sent);
      EvictCounts(Emit(s, sent).state);
    } else {
      var split := |payload| > maxPayload;
      var t := if split then TrackSplit(c.window, payload, maxPayload, ordered, channel, c.splitId, now)
               else Track(c.window, payload, ordered, channel, now);
      if t.Ok? {
        var filed := FileTracked(s, t.value, now);
        var numbered := if split then filed.(client := filed.client.(splitId := (c.splitId + 1) % 0x1_0000)) else filed;
        FilingGrows(s, t.value.frames, now);
        EmitAllCounts(numbered, |s.history.tracked|, t.value.frames);
        EvictCounts(EmitAll(numbered, |s.history.tracked|, t.value.frames).state);
      }
    }
  }

  lemma {:induction false} SendCoalescedFiles(s: State, payload: Octets, ordered: bool, flag: Byte, tail: seq<Frame>,
                                              wire: Option<Octets>, now: real)
    requires Numbered(s)
    ensures var e := SendCoalescedEvent(payload, ordered, flag, tail, wire, now);
            && Step(s, e).history.tracked == s.history.tracked + Filed(s, e)
            && 0 <= Emitted(s, e) <= Planned(s, e)
            && (Raised(s, e).None? ==> Emitted(s, e) == Planned(s, e))
  {
    hide FileAll, Track, Emit, LiveIndices;
    var t := Track(s.client.window, payload, ordered, 0, now);
    if t.Ok? {
      TrackGivesOne(s.client.window, payload, ordered, 0, now);
      FilingGrows(s, t.value.frames, now);
      EmitFacts(FileTracked(s, t.value, now), Sent(Some(|s.history.tracked|), flag, t.value.frames[0], tail, wire));
    }
  }

  lemma {:induction false} StepFiles(s: State, e: Event)
    requires Inv(s)
    ensures Step(s, e).history.tracked == s.history.tracked + Filed(s, e)
    ensures 0 <= Emitted(s, e) <= Planned(s, e)
    ensures Raised(s, e).None? ==> Emitted(s, e) == Planned(s, e)
  {
    hide Inv, SendReliable, ResendAll, FileAll, AckAll, Track, TrackSplit, Emit, ParseAck, Due, LiveIndices,
         SendCoalesced;
    InvNumbers(s);
    var c := s.client;
    match e {
      case SendReliableEvent(payload, channel, ordered, track, maxPayload, now) =>
        SendReliableFiles(s, payload, channel, ordered, track, maxPayload, now);
      case SendUnreliableEvent(payload, flag) =>
        EmitFacts(s, Sent(None, flag / 128 * 128 + flag % 16, Whole(payload, false, false, 0, 0, 0), [], None));
      case SendCoalescedEvent(payload, ordered, flag, tail, wire, now) =>
        SendCoalescedFiles(s, payload, ordered, flag, tail, wire, now);
      case AckEvent(plaintext) =>
        if ParseAck(plaintext).Ok? { AckCounts(s, ParseAck(plaintext).value); }
      case ResendEvent(now) =>
        var due := Due(c.window, now);
        ResendAllCounts(s.(client := c.(window := due.window)), due.ready);
    }
  }

  lemma EvictCounts(s: State)
    ensures Evict(s).history.tracked == s.history.tracked && Evict(s).history.sent == s.history.sent
  {
    hide Evict;
    EvictKeepsRecord(s);
  }

  lemma AckCounts(s: State, sequences: seq<int>)
    ensures AckAll(s, sequences).history.tracked == s.history.tracked
    ensures AckAll(s, sequences).history.sent == s.history.sent
  {
    hide AckAll;
    AckAllKeepsRecord(s, sequences);
  }

  lemma {:induction false} EmitAllCounts(s: State, serial: nat, frames: seq<Frame>)
    requires Numbered(s)
    ensures var (o, planned) := (EmitAll(s, serial, frames), |s.history.sent| + |frames|);
            && o.state.history.tracked == s.history.tracked
            && |s.history.sent| <= |o.state.history.sent| <= planned
            && (o.raised.None? ==> |o.state.history.sent| == planned)
    decreases |frames|
  {
    hide Emit, Numbered;
    if frames != [] {
      EmitFacts(s, Sent(Some(serial), 0x80, frames[0], [], None));
      var first := Emit(s, Sent(Some(serial), 0x80, frames[0], [], None));
      if first.raised.None? { EmitAllCounts(first.state, serial + 1, frames[1..]); }
    }
  }

  lemma {:induction false} ResendAllCounts(s: State, ready: seq<Pending>)
    requires Numbered(s)
    ensures var (o, planned) := (ResendAll(s, ready), |s.history.sent| + Unexhausted(ready));
            && o.state.history.tracked == s.history.tracked
            && |s.history.sent| <= |o.state.history.sent| <= planned
            && (o.raised.None? ==> |o.state.history.sent| == planned)
    decreases |ready|
  {
    hide Emit, Numbered, SerialOf;
    if ready != [] {
      if ready[0].attempts > MAX_ATTEMPTS {
        ResendAllCounts(s, ready[1..]);
      } else {
        var sent := Sent(Some(SerialOf(s, ready[0].frame)), 0x80, ready[0].frame, [], None);
        EmitFacts(s, sent);
        if Emit(s, sent).raised.None? { ResendAllCounts(Emit(s, sent).state, ready[1..]); }
      }
    }
  }

  /** An event hands out no live index or sequence if and only if no live entry grows older than 2^24. */
  lemma {:induction false} StepIsSafe(s: State, e: Event)
    requires Inv(s)
    ensures Step(s, e).history.reused <==> s.history.reused || !Safe(s, Filing(s, e), Emitted(s, e))
    ensures Step(s, e).history.overwritten >= s.history.overwritten
    ensures Step(s, e).history.overwritten == s.history.overwritten <==> PendingStayYoung(s, Filing(s, e))
  {
    hide Inv, Step, Filed, LastSerial, LiveIndices, LiveSequences, CachedStayYoung, CarriedBy, CacheEntryInv, Planned;
    StepMoves(s, e);
    StepFiles(s, e);
    if !s.history.reused { SafeIsYoung(s, Filing(s, e), Emitted(s, e)); }
  }

  /**
   * The same before the call, with the number of datagrams that the call needs: enough in any case, and exact unless
   * the call raises.
   */
  lemma {:induction false} PlannedIsSafe(s: State, e: Event)
    requires Inv(s)
    ensures !s.history.reused && Safe(s, Filing(s, e), Planned(s, e)) ==> !Step(s, e).history.reused
    ensures Raised(s, e).None? ==>
              (Step(s, e).history.reused <==> s.history.reused || !Safe(s, Filing(s, e), Planned(s, e)))
  {
    hide Inv, Perform, Step, Raised, Filed, LastSerial, CarriedBy, CacheEntryInv, Planned;
    StepFiles(s, e);
    StepIsSafe(s, e);
  }

  // ---- whole runs ----------------------------------------------------------------------------

  ghost predicate SafeAt(start: State, events: seq<Event>, i: nat)
    requires i < |events|
  {
    var s := Run(start, events[..i]);
    Safe(s, Filing(s, events[i]), Emitted(s, events[i]))
  }

  ghost predicate SparingAt(start: State, events: seq<Event>, i: nat)
    requires i < |events|
  {
    var s := Run(start, events[..i]);
    PendingStayYoung(s, Filing(s, events[i]))
  }

  /** In every event, every live entry stays young. */
  ghost predicate SafeRun(start: State, events: seq<Event>) {
    forall i | 0 <= i < |events| :: SafeAt(start, events, i)
  }

  /** No event files so many frames that one still pending would be filed over. */
  ghost predicate SparingRun(start: State, events: seq<Event>) {
    forall i | 0 <= i < |events| :: SparingAt(start, events, i)
  }

  lemma PrefixAt(start: State, events: seq<Event>, n: nat, i: nat)
    requires i < n <= |events|
    ensures SafeAt(start, events[..n], i) <==> SafeAt(start, events, i)
    ensures SparingAt(start, events[..n], i) <==> SparingAt(start, events, i)
  {
    hide Run, Filing, Emitted, Safe, PendingStayYoung;
    assert events[..n][..i] == events[..i] && events[..n][i] == events[i];
  }

  lemma RunOneMore(start: State, events: seq<Event>, e: Event)
    ensures Run(start, events + [e]) == Step(Run(start, events), e)
  {
    hide Step;
    assert (events + [e])[..|events|] == events;
  }

  lemma RunSteps(start: State, events: seq<Event>)
    requires events != []
    ensures var n := |events| - 1;
            && Run(start, events) == Step(Run(start, events[..n]), events[n])
            && (SafeRun(start, events) <==> SafeRun(start, events[..n]) && SafeAt(start, events, n))
            && (SparingRun(start, events) <==> SparingRun(start, events[..n]) && SparingAt(start, events, n))
  {
    hide Step, SafeAt, SparingAt;
    var n := |events| - 1;
    forall i | 0 <= i < n
      ensures SafeAt(start, events[..n], i) <==> SafeAt(start, events, i)
      ensures SparingAt(start, events[..n], i) <==> SparingAt(start, events, i)
    {
      PrefixAt(start, events, n, i);
    }
  }

  /** The state of a new client. */
  ghost predicate Initial(s: State) {
    var w := s.client.window;
    s == Start(NewWindow(w.resendAfter, w.maxPending), s.client.splitId, s.history.link)
  }

  lemma ReachedInv(start: State, events: seq<Event>)
    requires Initial(start)
    ensures Inv(Run(start, events))
  {
    hide Run, Inv;
    var w := start.client.window;
    EveryRunKeepsInv(w.resendAfter, w.maxPending, start.client.splitId, start.history.link, events);
  }

  /** Over a whole run no live index is reused, or no pending frame overwritten, exactly when each event keeps it so. */
  lemma {:induction false} RunIsSafe(start: State, events: seq<Event>)
    requires Initial(start)
    ensures var h := Run(start, events).history;
            && (!h.reused <==> SafeRun(start, events))
            && (h.overwritten == 0 <==> SparingRun(start, events))
  {
    if events != [] {
      hide Run, Inv, Step, Safe, PendingStayYoung, SafeRun, SparingRun, Filing, Emitted;
      var n := |events| - 1;
      RunIsSafe(start, events[..n]);
      RunSteps(start, events);
      ReachedInv(start, events[..n]);
      StepIsSafe(Run(start, events[..n]), events[n]);
    }
  }

  /**
   * Conservation over every run: the tracked frames are the pending and the retired ones, if and only if no event
   * filed more frames than the pending ones left room for.
   */
  lemma {:induction false} ConservationOverRuns(start: State, events: seq<Event>)
    requires Initial(start)
    ensures var s := Run(start, events);
            |s.history.tracked| == |s.client.window.pending.keys| + |s.history.retired| <==> SparingRun(start, events)
  {
    hide Run, Inv, SparingRun, SafeRun;
    ReachedInv(start, events);
    RunIsSafe(start, events);
    Conservation(Run(start, events));
  }

  /** A safe run is in particular a sparing one, so it conserves its frames. */
  lemma SafeRunsAreSparing(start: State, events: seq<Event>)
    requires SafeRun(start, events)
    ensures SparingRun(start, events)
  {
    hide Run, Filing, Emitted, PendingStayYoung, CachedStayYoung;
    forall i | 0 <= i < |events| ensures SparingAt(start, events, i) {
      assert SafeAt(start, events, i);
    }
  }

  /**
   * If the message of a cached sequence is pending, the sequence was consumed by a datagram that carried that very
   * pending frame first, and the cached bytes are that datagram.
   */
  ghost predicate StandsForItsFrame(s: State, q: int) {
    var (c, h, d) := (s.client, s.history, Get(s.history.cachedAs, q, 0));
    q in c.messages.at && c.messages.at[q] in c.window.pending.at ==>
      && d < |h.sent| && d < |h.sequences| && h.sequences[d] == q
      && h.sent[d].frame == c.window.pending.at[c.messages.at[q]].frame
      && (h.sent[d].wire.None? ==> 0 <= q && q in c.datagrams.at && h.sent[d].Datagram(q) == Ok(c.datagrams.at[q]))
  }

  lemma {:induction false} DictionariesAgreeOverRuns(start: State, events: seq<Event>, q: int)
    requires Initial(start) && SafeRun(start, events)
    ensures StandsForItsFrame(Run(start, events), q)
  {
    hide Run, SafeRun, SparingRun, PendingInv, CacheInv, FreshInv, ConservationInv, LogInv, Initial, Assemble;
    ReachedInv(start, events);
    RunIsSafe(start, events);
    DictionariesAgree(Run(start, events));
  }

  /** The datagram that a cached sequence stands for is the last that consumed its number. */
  ghost predicate NewestUse(s: State, q: int) {
    var (h, d) := (s.history, Get(s.history.cachedAs, q, 0));
    q in s.client.messages.at ==>
      && |h.sequences| == |h.sent| && d < |h.sent| && h.sequences[d] == q
      && forall later | d < later < |h.sent| :: h.sequences[later] != q
  }

  /** In a safe run no number is consumed while a live entry stands for it. */
  lemma {:induction false} NumbersAreFreshOverRuns(start: State, events: seq<Event>, q: int)
    requires Initial(start) && SafeRun(start, events)
    ensures NewestUse(Run(start, events), q)
  {
    hide Run, SafeRun, SparingRun, PendingInv, ConservationInv, LogInv, LastSerial, Initial;
    ReachedInv(start, events);
    RunIsSafe(start, events);
    var s := Run(start, events);
    if q in s.client.messages.at {
      assert CacheEntryInv(s, q);
      var d := s.history.cachedAs[q];
      forall later | d < later < |s.history.sent| ensures s.history.sequences[later] != q {
        SpanIsShort(d, later);
      }
    }
  }

  lemma SpanIsShort(d1: nat, d2: nat)
    ensures d1 < d2 && d2 - d1 < M24 ==> d1 % M24 != d2 % M24
  {}

  /** A sequence of the list is cached and stands for a datagram that was sent for the frame with serial n. */
  ghost predicate NamesCarrier(s: State, list: seq<int>, n: int) {
    exists q :: q in list && q in s.client.messages.at && Carrier(s, q, n)
  }

  ghost predicate Carrier(s: State, q: int, n: int) {
    var d := Get(s.history.cachedAs, q, 0);
    d < |s.history.sent| && s.history.sent[d].serial.Some? && s.history.sent[d].serial.value == n
  }

  /**
   * In a safe run an ACK list retires a pending frame if and only if it names the sequence of a cached datagram that
   * was sent for that frame, the original or a retransmission.
   */
  lemma {:induction false} AckSoundnessOverRuns(start: State, events: seq<Event>, list: seq<int>, k: int)
    requires Initial(start) && SafeRun(start, events) && k in Run(start, events).client.window.pending.at
    ensures var s := Run(start, events);
            var (n, after) := (LastSerial(|s.history.tracked|, k), AckAll(s, list));
            && 0 <= n < |s.history.tracked| && s.history.tracked[n] == s.client.window.pending.at[k].frame
            && (k !in after.client.window.pending.at <==> NamesCarrier(s, list, n))
            && (k !in after.client.window.pending.at ==> n in after.history.retired)
  {
    hide Run, SafeRun, SparingRun, ConservationInv, LogInv, LastSerial, SendCount, AckAll, Initial, FreshInv;
    ReachedInv(start, events);
    RunIsSafe(start, events);
    var s := Run(start, events);
    assert PendingEntryInv(s.history, k, s.client.window.pending.at[k], false);
    AckSoundness(s, list, k);
    forall q | q in s.client.messages.at
      ensures CacheEntryInv(s, q)
      ensures forall n :: Carrier(s, q, n) <==> CarriedBy(s, q) == n
    {
      assert CacheEntryInv(s, q);
    }
  }
}
