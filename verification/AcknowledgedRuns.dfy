/**
 * Runs that are acknowledged often enough are safe, however long they are: between two acknowledgements that name every
 * cached sequence lie at most as many datagrams as the cache holds, whatever is sent, resent and acknowledged in
 * between.
 */
module AcknowledgedRuns {
  import opened Results
  import opened Bytes
  import opened OrderedDict
  import opened RaknetCodec
  import opened Reliability
  import opened Sender
  import opened SenderSafety
  import opened SenderWindow

  // ---- what is held since the last full acknowledgement -----------------------------------

  /** The latest number with index k is not below `from`. */
  ghost predicate Recent(total: nat, from: nat, k: int) {
    0 <= k < M24 && from <= LastSerial(total, k)
  }

  /** Pending frames are recent, and apart from those still to be sent a cached datagram carries each of them. */
  ghost predicate PendingHeld(s: State, filed: nat, unsent: set<int>) {
    && filed <= |s.history.tracked|
    && forall k | k in s.client.window.pending.at ::
         Recent(|s.history.tracked|, filed, k) && (k in unsent || Carries(s.client.messages.at, k))
  }

  ghost predicate CacheHeld(s: State, filed: nat, from: nat) {
    && from + |s.client.datagrams.keys| <= |s.history.sent|
    && forall q | q in s.client.messages.at ::
         Recent(|s.history.sent|, from, q) && Recent(|s.history.tracked|, filed, s.client.messages.at[q])
  }

  /** Nothing live is older than the frame with serial `filed` or the datagram with number `from`. */
  ghost predicate Held(s: State, filed: nat, from: nat, unsent: set<int>) {
    PendingHeld(s, filed, unsent) && CacheHeld(s, filed, from)
  }

  lemma RecentGrows(total: nat, from: nat, k: int)
    requires Recent(total, from, k)
    ensures Recent(total + 1, from, k)
  {
    hide LastSerial;
    LastSerialIs(total, k);
    LastSerialAfter(total, k);
  }

  lemma RecentNew(total: nat, from: nat)
    requires from <= total
    ensures Recent(total + 1, from, total % M24)
  {
    hide LastSerial;
    LastSerialAfter(total, total % M24);
  }

  /** A number that comes round again is a full span old. */
  lemma RecentIsNotNext(total: nat, from: nat, k: int)
    requires Recent(total, from, k) && total - from < M24
    ensures k != total % M24
  {
    hide LastSerial;
    LastSerialIs(total, k);
    FullSpan(total, k);
  }

  /** What is recent is young. */
  lemma {:induction false} HeldIsSafe(s: State, filed: nat, from: nat, more: nat, sends: nat)
    requires Inv(s) && !s.history.reused && Held(s, filed, from, {})
    requires |s.history.tracked| + more - filed <= M24 && |s.history.sent| + sends - from <= M24
    ensures Safe(s, more, sends)
  {
    hide Inv, LastSerial, Safe;
    SafeIsYoung(s, more, sends);
    forall k | k in LiveIndices(s) ensures |s.history.tracked| - LastSerial(|s.history.tracked|, k) + more <= M24 {
      assert Recent(|s.history.tracked|, filed, k);
    }
    forall q | q in LiveSequences(s) ensures |s.history.sent| - LastSerial(|s.history.sent|, q) + sends <= M24 {
      assert Recent(|s.history.sent|, from, q);
    }
  }

  // ---- filing ---------------------------------------------------------------------------------

  function IndicesOf(frames: seq<Frame>): set<int> {
    set f | f in frames :: f.messageIndex
  }

  lemma FilingHolds(s: State, frame: Frame, now: real, filed: nat, from: nat, unsent: set<int>)
    requires Held(s, filed, from, unsent) && frame.messageIndex == |s.history.tracked| % M24
    ensures var s' := FileFrame(s, frame, now);
            && Held(s', filed, from, unsent + {frame.messageIndex})
            && PendingIndices(s') == PendingIndices(s) + {frame.messageIndex}
  {
    hide Recent, FileFrame, Admit, Carries;
    FileFrameRecords(s, frame, now);
    FileFrameChanges(s, frame, now);
    var (s', total) := (FileFrame(s, frame, now), |s.history.tracked|);
    RecentNew(total, filed);
    forall k | k in s'.client.window.pending.at ensures Recent(total + 1, filed, k) {
      if k in s.client.window.pending.at { RecentGrows(total, filed, k); }
    }
    forall q | q in s.client.messages.at ensures Recent(total + 1, filed, s.client.messages.at[q]) {
      RecentGrows(total, filed, s.client.messages.at[q]);
    }
  }

  lemma {:induction false} FilingAllHolds(s: State, frames: seq<Frame>, now: real, filed: nat, from: nat,
                                          unsent: set<int>)
    requires Held(s, filed, from, unsent)
    requires forall j | 0 <= j < |frames| :: frames[j].messageIndex == (|s.history.tracked| + j) % M24
    ensures var s' := FileAll(s, frames, now);
            && Held(s', filed, from, unsent + IndicesOf(frames))
            && PendingIndices(s') == PendingIndices(s) + IndicesOf(frames)
    decreases |frames|
  {
    hide FileFrame, Held, PendingIndices;
    if frames == [] {
      assert IndicesOf(frames) == {} && unsent + {} == unsent;
    } else {
      var s1 := FileFrame(s, frames[0], now);
      assert frames[0].messageIndex == (|s.history.tracked| + 0) % M24;
      FilingHolds(s, frames[0], now, filed, from, unsent);
      FileFrameChanges(s, frames[0], now);
      forall j | 0 <= j < |frames[1..]| ensures frames[1..][j].messageIndex == (|s1.history.tracked| + j) % M24 {
        assert frames[1..][j] == frames[j + 1];
      }
      FilingAllHolds(s1, frames[1..], now, filed, from, unsent + {frames[0].messageIndex});
      IndicesStep(frames);
      assert unsent + {frames[0].messageIndex} + IndicesOf(frames[1..]) == unsent + IndicesOf(frames);
    }
  }

  lemma IndicesStep(frames: seq<Frame>)
    requires frames != []
    ensures IndicesOf(frames) == {frames[0].messageIndex} + IndicesOf(frames[1..])
  {
    assert frames == [frames[0]] + frames[1..];
  }

  // ---- sending ----------------------------------------------------------------------------------

  /** What a transmission that raises nothing does to the cache. */
  lemma EmitCaches(s: State, sent: Sent)
    requires Emit(s, sent).raised.None?
    ensures var (s', q) := (Emit(s, sent).state, s.client.sequence);
            && s'.client.messages.at
               == (if sent.serial.Some? then s.client.messages.at[q := sent.frame.messageIndex]
                   else s.client.messages.at)
            && |s'.client.datagrams.keys| <= |s.client.datagrams.keys| + 1
  {
    hide Assemble;
  }

  lemma {:induction false} EmitHolds(s: State, sent: Sent, filed: nat, from: nat, unsent: set<int>)
    requires Numbered(s) && Held(s, filed, from, unsent) && |s.history.sent| - from < M24
    requires sent.serial.Some? ==> Recent(|s.history.tracked|, filed, sent.frame.messageIndex)
    requires Emit(s, sent).raised.None?
    ensures var s' := Emit(s, sent).state;
            && Held(s', filed, from, if sent.serial.Some? then unsent - {sent.frame.messageIndex} else unsent)
            && Numbered(s') && s'.client.window == s.client.window && s'.history.tracked == s.history.tracked
            && |s'.history.sent| == |s.history.sent| + 1
  {
    hide Emit, Recent;
    EmitFacts(s, sent);
    EmitCaches(s, sent);
    var (s', total, q) := (Emit(s, sent).state, |s.history.sent|, s.client.sequence);
    RecentNew(total, from);
    forall r | r in s.client.messages.at ensures Recent(total + 1, from, r) && r != q {
      RecentGrows(total, from, r);
      RecentIsNotNext(total, from, r);
    }
    forall k | Carries(s.client.messages.at, k) ensures Carries(s'.client.messages.at, k) {
      var r :| r in s.client.messages.at && s.client.messages.at[r] == k;
      assert s'.client.messages.at[r] == k;
    }
    if sent.serial.Some? {
      assert s'.client.messages.at[q] == sent.frame.messageIndex;
    }
  }

  lemma {:induction false} EmitAllHolds(s: State, serial: nat, frames: seq<Frame>, filed: nat, from: nat,
                                        unsent: set<int>)
    requires Numbered(s) && Held(s, filed, from, unsent) && |s.history.sent| + |frames| - from <= M24
    requires unsent <= IndicesOf(frames) <= PendingIndices(s)
    requires EmitAll(s, serial, frames).raised.None?
    ensures Held(EmitAll(s, serial, frames).state, filed, from, {})
    decreases |frames|
  {
    hide Emit, Numbered, CacheHeld, Recent;
    if frames == [] {
      assert unsent == {};
    } else {
      var sent := Sent(Some(serial), 0x80, frames[0], [], None);
      IndicesStep(frames);
      assert frames[0].messageIndex in PendingIndices(s);
      EmitHolds(s, sent, filed, from, unsent);
      EmitAllHolds(Emit(s, sent).state, serial + 1, frames[1..], filed, from, unsent - {frames[0].messageIndex});
    }
  }

  lemma {:induction false} ResendAllHolds(s: State, ready: seq<Pending>, filed: nat, from: nat)
    requires Numbered(s) && Held(s, filed, from, {}) && |s.history.sent| + Unexhausted(ready) - from <= M24
    requires forall p | p in ready :: p.frame.messageIndex in PendingIndices(s)
    requires ResendAll(s, ready).raised.None?
    ensures Held(ResendAll(s, ready).state, filed, from, {})
    decreases |ready|
  {
    hide Emit, Numbered, CacheHeld, Recent, SerialOf;
    if ready != [] {
      var p := ready[0];
      assert p in ready && forall x | x in ready[1..] :: x in ready;
      if p.attempts > MAX_ATTEMPTS {
        ResendAllHolds(s, ready[1..], filed, from);
      } else {
        var sent := Sent(Some(SerialOf(s, p.frame)), 0x80, p.frame, [], None);
        EmitHolds(s, sent, filed, from, {});
        assert {} - {p.frame.messageIndex} == {};
        ResendAllHolds(Emit(s, sent).state, ready[1..], filed, from);
      }
    }
  }

  // ---- acknowledging ----------------------------------------------------------------------------

  lemma FewerKeys<V>(d: Dict<int, V>, d': Dict<int, V>)
    requires d'.at.Keys <= d.at.Keys
    ensures |d'.keys| <= |d.keys|
  {
    KeysOfDict(d);
    KeysOfDict(d');
    assert d.at.Keys == d'.at.Keys + (d.at.Keys - d'.at.Keys);
  }

  /** A frame that stays pending keeps its carrier: no carrier of it was named. */
  lemma {:induction false} AckHolds(s: State, list: seq<int>, filed: nat, from: nat)
    requires Held(s, filed, from, {})
    ensures Held(AckAll(s, list), filed, from, {})
  {
    hide AckAll, LastSerial;
    AckEffect(s, list);
    var s' := AckAll(s, list);
    FewerKeys(s.client.datagrams, s'.client.datagrams);
    forall k | k in s'.client.window.pending.at ensures Carries(s'.client.messages.at, k) {
      var q :| q in s.client.messages.at && s.client.messages.at[q] == k;
      assert q !in list;
      assert q in s'.client.messages.at;
    }
  }

  lemma EmptyHolds(s: State)
    requires s.client.window.pending.at.Keys == s.client.messages.at.Keys == s.client.datagrams.at.Keys == {}
    ensures Held(s, |s.history.tracked|, |s.history.sent|, {})
  {
    KeysOfDict(s.client.datagrams);
  }

  lemma SameKeys(s: State)
    requires CacheInv(s)
    ensures s.client.datagrams.at.Keys == s.client.messages.at.Keys
  {
    hide CacheEntryInv;
    KeysOfDict(s.client.datagrams);
    KeysOfDict(s.client.messages);
  }

  lemma CarrierIsNamed(s: State, list: seq<int>, k: int)
    requires Carries(s.client.messages.at, k) && 0 <= k < M24 && forall q | q in s.client.messages.at :: q in list
    ensures Names(s, list, k)
  {
    var q :| q in s.client.messages.at && s.client.messages.at[q] == k;
    assert q in list;
  }

  /** An acknowledgement that names every cached sequence leaves nothing behind. */
  lemma {:induction false} FullAckEmpties(s: State, list: seq<int>, filed: nat, from: nat)
    requires CacheInv(s) && Held(s, filed, from, {}) && forall q | q in s.client.messages.at :: q in list
    ensures var s' := AckAll(s, list); Held(s', |s'.history.tracked|, |s'.history.sent|, {})
  {
    hide AckAll, LastSerial, CacheInv, CacheHeld, Names, Carries;
    AckEffect(s, list);
    var s' := AckAll(s, list);
    forall k ensures k !in s'.client.window.pending.at {
      if k in s.client.window.pending.at { CarrierIsNamed(s, list, k); }
    }
    SameKeys(s);
    forall q | q in s.client.messages.at.Keys ensures q in Listed(list) {
      assert q in list;
    }
    assert s'.client.messages.at.Keys == s.client.messages.at.Keys - Listed(list) == {};
    assert s'.client.datagrams.at.Keys == s.client.datagrams.at.Keys - Listed(list) == {};
    assert s'.client.window.pending.at.Keys == {};
    EmptyHolds(s');
  }

  // ---- one event --------------------------------------------------------------------------------

  /** The event raises nothing, or leaves everything as it was. */
  ghost predicate Completes(s: State, e: Event) {
    Raised(s, e).None? || Step(s, e) == s
  }

  lemma FiledHeld(s: State, t: Tracked, ordered: bool, channel: int, now: real, filed: nat, from: nat, s': State)
    requires Inv(s) && Held(s, filed, from, {}) && Shape(s.client.window, Ok(t), ordered, channel, now)
    requires var f := FileTracked(s, t, now); s' == f.(client := f.client.(splitId := s'.client.splitId))
    ensures Held(s', filed, from, IndicesOf(t.frames)) && IndicesOf(t.frames) <= PendingIndices(s')
    ensures Numbered(s') && s'.history.sent == s.history.sent
  {
    hide Held, FileAll, Inv, Numbered, AdmitAll;
    InvNumbers(s);
    InvParts(s);
    ShapeGivesNextFrames(s, t, ordered, channel, now);
    NumberedNext(s, t.frames);
    FileAllKeepsInv(s, t.frames, now);
    FilingAllHolds(s, t.frames, now, filed, from, {});
    FilingGrows(s, t.frames, now);
    assert {} + IndicesOf(t.frames) == IndicesOf(t.frames);
    OrderIsNotHeld(FileAll(s, t.frames, now), s', filed, from, IndicesOf(t.frames));
    StillNumbered(s, s');
  }

  lemma StillNumbered(s: State, s': State)
    requires Numbered(s) && s'.history.sent == s.history.sent
    requires s'.client.sequence == s.client.sequence && s'.client.messages == s.client.messages
    ensures Numbered(s')
  {}

  lemma OrderIsNotHeld(s: State, s': State, filed: nat, from: nat, unsent: set<int>)
    requires Held(s, filed, from, unsent) && s'.history == s.history
    requires s'.client.messages == s.client.messages && s'.client.datagrams == s.client.datagrams
    requires s'.client.window.pending.at.Keys == s.client.window.pending.at.Keys
    ensures Held(s', filed, from, unsent)
  {
    hide Recent, Carries;
  }

  lemma EvictIsIdle(s: State, filed: nat, from: nat)
    requires Held(s, filed, from, {}) && |s.history.sent| - from <= CACHE_LIMIT
    ensures Evict(s) == s
  {
    hide Recent, Carries;
  }

  lemma {:induction false} SendTrackedHolds(s: State, t: Tracked, ordered: bool, channel: int, now: real, filed: nat,
                                            from: nat, numbered: State)
    requires Inv(s) && Held(s, filed, from, {}) && Shape(s.client.window, Ok(t), ordered, channel, now)
    requires var f := FileTracked(s, t, now); numbered == f.(client := f.client.(splitId := numbered.client.splitId))
    requires |s.history.sent| + |t.frames| - from <= CACHE_LIMIT
    requires EmitAll(numbered, |s.history.tracked|, t.frames).raised.None?
    ensures Held(EvictAfter(EmitAll(numbered, |s.history.tracked|, t.frames)).state, filed, from, {})
  {
    hide Held, EmitAll, Evict, Inv, Shape, FileTracked, Numbered, PendingIndices, IndicesOf;
    FiledHeld(s, t, ordered, channel, now, filed, from, numbered);
    EmitAllHolds(numbered, |s.history.tracked|, t.frames, filed, from, IndicesOf(t.frames));
    EmitAllCounts(numbered, |s.history.tracked|, t.frames);
    EvictIsIdle(EmitAll(numbered, |s.history.tracked|, t.frames).state, filed, from);
  }

  lemma {:induction false} SendReliableHolds(s: State, e: Event, filed: nat, from: nat)
    requires Inv(s) && Held(s, filed, from, {}) && e.SendReliableEvent? && Raised(s, e).None?
    requires |s.history.sent| + Planned(s, e) - from <= CACHE_LIMIT
    ensures Held(Step(s, e), filed, from, {})
  {
    hide Held, Emit, EmitAll, Evict, Inv, Shape, FileTracked, Track, TrackSplit, Numbered;
    var c := s.client;
    InvNumbers(s);
    if !e.track {
      var ping := Whole(e.payload, true, e.ordered, c.sequence % M24, c.sequence % M24, e.channel);
      var sent := Sent(None, 0x80, ping, [], None);
      EmitHolds(s, sent, filed, from, {});
      EvictIsIdle(Emit(s, sent).state, filed, from);
    } else {
      var split := |e.payload| > e.maxPayload;
      var t := if split then TrackSplit(c.window, e.payload, e.maxPayload, e.ordered, e.channel, c.splitId, e.now)
               else Track(c.window, e.payload, e.ordered, e.channel, e.now);
      TrackShape(c.window, e.payload, e.ordered, e.channel, e.now);
      TrackSplitShape(c.window, e.payload, e.maxPayload, e.ordered, e.channel, c.splitId, e.now);
      var filedState := FileTracked(s, t.value, e.now);
      var numbered := if split then filedState.(client := filedState.client.(splitId := (c.splitId + 1) % 0x1_0000))
                      else filedState;
      SendTrackedHolds(s, t.value, e.ordered, e.channel, e.now, filed, from, numbered);
    }
  }

  lemma {:induction false} SendCoalescedHolds(s: State, e: Event, filed: nat, from: nat)
    requires Inv(s) && Held(s, filed, from, {}) && e.SendCoalescedEvent? && Raised(s, e).None?
    requires |s.history.sent| + Planned(s, e) - from <= CACHE_LIMIT
    ensures Held(Step(s, e), filed, from, {})
  {
    hide Held, Emit, Inv, Shape, FileTracked, Track, Numbered, Recent;
    InvNumbers(s);
    var c := s.client;
    var t := Track(c.window, e.payload, e.ordered, 0, e.now).value;
    TrackShape(c.window, e.payload, e.ordered, 0, e.now);
    TrackGivesOne(c.window, e.payload, e.ordered, 0, e.now);
    var s' := FileTracked(s, t, e.now);
    FiledHeld(s, t, e.ordered, 0, e.now, filed, from, s');
    var sent := Sent(Some(|s.history.tracked|), e.flag, t.frames[0], e.tail, e.wire);
    assert t.frames[1..] == [];
    IndicesStep(t.frames);
    assert IndicesOf([]) == {};
    HeldIsRecent(s', filed, from, IndicesOf(t.frames), t.frames[0].messageIndex);
    EmitHolds(s', sent, filed, from, IndicesOf(t.frames));
    assert IndicesOf(t.frames) - {t.frames[0].messageIndex} == {};
  }

  lemma HeldIsRecent(s: State, filed: nat, from: nat, unsent: set<int>, k: int)
    requires Held(s, filed, from, unsent) && k in PendingIndices(s)
    ensures Recent(|s.history.tracked|, filed, k)
  {
    hide Recent;
  }

  lemma {:induction false} ResendHolds(s: State, now: real, filed: nat, from: nat)
    requires Inv(s) && Held(s, filed, from, {}) && Raised(s, ResendEvent(now)).None?
    requires |s.history.sent| + Planned(s, ResendEvent(now)) - from <= CACHE_LIMIT
    ensures Held(Step(s, ResendEvent(now)), filed, from, {})
  {
    hide Held, ResendAll, Inv, InvOwing, Due, Unexhausted, Numbered;
    InvNumbers(s);
    var due := Due(s.client.window, now);
    var refreshed := s.(client := s.client.(window := due.window));
    DueOwes(s, now);
    RefreshingKeepsLive(s, now);
    OrderIsNotHeld(s, refreshed, filed, from, {});
    ResendAllHolds(refreshed, due.ready, filed, from);
  }

  /** An event that completes keeps what is held, as long as the cache has room for its datagrams. */
  lemma {:induction false} StepHolds(s: State, e: Event, filed: nat, from: nat)
    requires Inv(s) && Held(s, filed, from, {}) && Completes(s, e)
    requires |s.history.sent| + Planned(s, e) - from <= CACHE_LIMIT
    ensures Held(Step(s, e), filed, from, {})
  {
    hide Held, Inv, SendReliable, SendCoalesced, ResendDue, Emit, AckAll, ParseAck, Numbered, Filing;
    if Raised(s, e).None? {
      match e {
        case SendReliableEvent(_, _, _, _, _, _) => SendReliableHolds(s, e, filed, from);
        case SendUnreliableEvent(payload, flag) =>
          InvNumbers(s);
          EmitHolds(s, Sent(None, flag / 128 * 128 + flag % 16, Whole(payload, false, false, 0, 0, 0), [], None), filed,
                    from, {});
        case SendCoalescedEvent(_, _, _, _, _, _) => SendCoalescedHolds(s, e, filed, from);
        case AckEvent(plaintext) =>
          if ParseAck(plaintext).Ok? { AckHolds(s, ParseAck(plaintext).value, filed, from); }
        case ResendEvent(now) => ResendHolds(s, now, filed, from);
      }
    }
  }

  // ---- whole runs -------------------------------------------------------------------------------

  /** An acknowledgement that names every cached sequence. */
  ghost predicate Settles(s: State, e: Event) {
    && e.AckEvent? && ParseAck(e.plaintext).Ok?
    && forall q | q in s.client.messages.at :: q in ParseAck(e.plaintext).value
  }

  /** The datagrams sent since the last full acknowledgement. */
  ghost function Unsettled(start: State, events: seq<Event>): nat
    decreases |events|
  {
    if events == [] then 0 else
    var n := |events| - 1;
    var s := Run(start, events[..n]);
    if Settles(s, events[n]) then 0 else Unsettled(start, events[..n]) + Planned(s, events[n])
  }

  /** Every event completes, and never are there more such datagrams than the cache holds. */
  ghost predicate Attended(start: State, events: seq<Event>)
    decreases |events|
  {
    events != [] ==>
      var n := |events| - 1;
      && Attended(start, events[..n])
      && Completes(Run(start, events[..n]), events[n])
      && Unsettled(start, events) <= CACHE_LIMIT
  }

  lemma FilingIsPlanned(s: State, e: Event)
    ensures Filing(s, e) <= Planned(s, e)
  {
    hide Track, TrackSplit, Due, Unexhausted;
  }

  lemma {:induction false} SettlingHolds(s: State, e: Event, filed: nat, from: nat)
    requires Inv(s) && Held(s, filed, from, {}) && Settles(s, e)
    ensures var s' := Step(s, e); Held(s', |s'.history.tracked|, |s'.history.sent|, {})
  {
    hide Held, Inv, ParseAck, AckAll;
    InvParts(s);
    FullAckEmpties(s, ParseAck(e.plaintext).value, filed, from);
  }

  /** One more event: nothing is reused, and what is held is as recent as before or as this event. */
  lemma {:induction false} OneMoreHolds(s: State, e: Event, filed: nat, from: nat, unsettled: nat)
    returns (filed': nat, from': nat)
    requires Inv(s) && !s.history.reused && Held(s, filed, from, {}) && Completes(s, e)
    requires |s.history.tracked| - filed <= unsettled <= CACHE_LIMIT && |s.history.sent| - from <= unsettled
    requires !Settles(s, e) ==> unsettled + Planned(s, e) <= CACHE_LIMIT
    ensures var (s', after) := (Step(s, e), if Settles(s, e) then 0 else unsettled + Planned(s, e));
            && !s'.history.reused && Held(s', filed', from', {})
            && |s'.history.tracked| - filed' <= after && |s'.history.sent| - from' <= after
  {
    hide Inv, Held, Step, Raised, Completes, Filed, Planned, Settles, Safe;
    FilingIsPlanned(s, e);
    StepFiles(s, e);
    SettlesPlansNothing(s, e);
    HeldIsSafe(s, filed, from, Filing(s, e), Emitted(s, e));
    StepIsSafe(s, e);
    if Settles(s, e) {
      SettlingHolds(s, e, filed, from);
      filed', from' := |Step(s, e).history.tracked|, |Step(s, e).history.sent|;
    } else {
      StepHolds(s, e, filed, from);
      filed', from' := filed, from;
    }
  }

  lemma SettlesPlansNothing(s: State, e: Event)
    ensures Settles(s, e) ==> Planned(s, e) == 0
  {
    hide ParseAck;
  }

  lemma {:induction false} AttendedHolds(start: State, events: seq<Event>) returns (filed: nat, from: nat)
    requires Initial(start) && Attended(start, events)
    ensures var (s, unsettled) := (Run(start, events), Unsettled(start, events));
            && !s.history.reused && Held(s, filed, from, {}) && unsettled <= CACHE_LIMIT
            && |s.history.tracked| - filed <= unsettled && |s.history.sent| - from <= unsettled
    decreases |events|
  {
    hide Step, Inv, Completes, Settles, Planned;
    if events == [] {
      filed, from := 0, 0;
    } else {
      hide Held, Initial;
      var n := |events| - 1;
      var s := Run(start, events[..n]);
      filed, from := AttendedHolds(start, events[..n]);
      ReachedInv(start, events[..n]);
      filed, from := OneMoreHolds(s, events[n], filed, from, Unsettled(start, events[..n]));
    }
  }

  /** A run that is acknowledged often enough stays safe for ever, however often its counters wrap. */
  lemma {:induction false} AcknowledgedRunIsSafe(start: State, events: seq<Event>)
    requires Initial(start) && Attended(start, events)
    ensures SafeRun(start, events)
  {
    hide Run, SafeRun, SparingRun, Initial, Held, Attended;
    var filed, from := AttendedHolds(start, events);
    RunIsSafe(start, events);
  }

  // ---- one acknowledgement after each event ---------------------------------------------------------

  /** Events at even places that complete, each followed by an acknowledgement of every cached sequence. */
  ghost predicate Answered(start: State, events: seq<Event>) {
    forall i | 0 <= i < |events| :: AnsweredAt(start, events, i)
  }

  ghost predicate AnsweredAt(start: State, events: seq<Event>, i: nat)
    requires i < |events|
  {
    var s := Run(start, events[..i]);
    if i % 2 == 0 then Completes(s, events[i]) else Settles(s, events[i])
  }

  lemma AnsweredEarlier(start: State, events: seq<Event>, n: nat, i: nat)
    requires i < n <= |events|
    ensures AnsweredAt(start, events[..n], i) <==> AnsweredAt(start, events, i)
  {
    hide Run, Completes, Settles;
    assert events[..n][..i] == events[..i] && events[..n][i] == events[i];
  }

  lemma {:induction false} DueIsPending(d: Dict<int, Pending>, i: nat, now: real, resendAfter: real)
    requires i <= |d.keys|
    ensures Unexhausted(DueFrom(d, i, now, resendAfter)) <= |d.keys| - i
    decreases |d.keys| - i
  {
    hide IsDue, Refresh;
    if i < |d.keys| { DueIsPending(d, i + 1, now, resendAfter); }
  }

  /** A window of 4096 frames never asks for more datagrams than the cache holds. */
  lemma {:induction false} PlannedFits(s: State, e: Event)
    requires Inv(s) && s.client.window.maxPending <= CACHE_LIMIT
    ensures Planned(s, e) <= CACHE_LIMIT
  {
    hide Inv, AdmitAll, Track, TrackSplit, Unexhausted, DueFrom, RefreshAll, PendingEntryInv;
    InvParts(s);
    InvNumbers(s);
    var w := s.client.window;
    match e {
      case SendReliableEvent(payload, channel, ordered, track, maxPayload, now) =>
        TrackShape(w, payload, ordered, channel, now);
        TrackSplitShape(w, payload, maxPayload, ordered, channel, s.client.splitId, now);
      case SendCoalescedEvent(payload, ordered, _, _, _, now) => TrackShape(w, payload, ordered, 0, now);
      case ResendEvent(now) => DueIsPending(w.pending, 0, now, w.resendAfter);
      case _ =>
    }
  }

  lemma {:induction false} AdmitAllKeepsLimit(w: Window, frames: seq<Frame>, now: real)
    ensures AdmitAll(w, frames, now).maxPending == w.maxPending
    decreases |frames|
  {
    hide Set;
    if frames != [] { AdmitAllKeepsLimit(Admit(w, frames[0], now), frames[1..], now); }
  }

  lemma EmitKeepsWindow(s: State, sent: Sent)
    ensures Emit(s, sent).state.client.window == s.client.window
  {
    hide Assemble;
  }

  lemma {:induction false} EmitAllKeepsWindow(s: State, serial: nat, frames: seq<Frame>)
    ensures EmitAll(s, serial, frames).state.client.window == s.client.window
    decreases |frames|
  {
    hide Emit;
    if frames != [] {
      var sent := Sent(Some(serial), 0x80, frames[0], [], None);
      EmitKeepsWindow(s, sent);
      EmitAllKeepsWindow(Emit(s, sent).state, serial + 1, frames[1..]);
    }
  }

  lemma {:induction false} ResendAllKeepsWindow(s: State, ready: seq<Pending>)
    ensures ResendAll(s, ready).state.client.window == s.client.window
    decreases |ready|
  {
    hide Emit, SerialOf;
    if ready != [] {
      var sent := Sent(Some(SerialOf(s, ready[0].frame)), 0x80, ready[0].frame, [], None);
      EmitKeepsWindow(s, sent);
      ResendAllKeepsWindow(Emit(s, sent).state, ready[1..]);
      ResendAllKeepsWindow(s, ready[1..]);
    }
  }

  lemma {:induction false} EvictKeepsWindow(s: State)
    ensures Evict(s).client.window == s.client.window
    decreases |s.client.datagrams.keys|
  {
    if |s.client.datagrams.keys| > CACHE_LIMIT { EvictKeepsWindow(Forget(s, s.client.datagrams.keys[0])); }
  }

  lemma {:induction false} AckAllKeepsLimit(s: State, list: seq<int>)
    ensures AckAll(s, list).client.window.maxPending == s.client.window.maxPending
    decreases |list|
  {
    hide LastSerial, Pop;
    if list != [] { AckAllKeepsLimit(AckOne(s, list[0]), list[1..]); }
  }

  /** No event changes how many frames may be pending. */
  lemma {:induction false} StepKeepsLimit(s: State, e: Event)
    requires Inv(s)
    ensures Step(s, e).client.window.maxPending == s.client.window.maxPending
  {
    hide Inv, AdmitAll, Track, TrackSplit, Emit, EmitAll, ResendAll, Evict, AckAll, ParseAck, FileAll;
    InvNumbers(s);
    var c := s.client;
    match e {
      case SendReliableEvent(payload, channel, ordered, track, maxPayload, now) =>
        var split := |payload| > maxPayload;
        var t := if split then TrackSplit(c.window, payload, maxPayload, ordered, channel, c.splitId, now)
                 else Track(c.window, payload, ordered, channel, now);
        TrackShape(c.window, payload, ordered, channel, now);
        TrackSplitShape(c.window, payload, maxPayload, ordered, channel, c.splitId, now);
        if track && t.Ok? { TrackedKeepsLimit(s, t.value, ordered, channel, now, split); }
        var ping := Whole(payload, true, ordered, c.sequence % M24, c.sequence % M24, channel);
        EmitKeepsWindow(s, Sent(None, 0x80, ping, [], None));
        EvictKeepsWindow(Emit(s, Sent(None, 0x80, ping, [], None)).state);
      case SendUnreliableEvent(payload, flag) =>
        EmitKeepsWindow(s, Sent(None, flag / 128 * 128 + flag % 16, Whole(payload, false, false, 0, 0, 0), [], None));
      case SendCoalescedEvent(payload, ordered, flag, tail, wire, now) =>
        var t := Track(c.window, payload, ordered, 0, now);
        TrackShape(c.window, payload, ordered, 0, now);
        if t.Ok? {
          AdmitAllKeepsLimit(c.window, t.value.frames, now);
          EmitKeepsWindow(FileTracked(s, t.value, now), Sent(Some(|s.history.tracked|), flag, t.value.frames[0], tail,
                                                             wire));
        }
      case AckEvent(plaintext) => if ParseAck(plaintext).Ok? { AckAllKeepsLimit(s, ParseAck(plaintext).value); }
      case ResendEvent(now) =>
        var due := Due(c.window, now);
        ResendAllKeepsWindow(s.(client := c.(window := due.window)), due.ready);
    }
  }

  lemma TrackedKeepsLimit(s: State, t: Tracked, ordered: bool, channel: int, now: real, split: bool)
    requires Shape(s.client.window, Ok(t), ordered, channel, now)
    ensures var filed := FileTracked(s, t, now);
            var numbered := if split then filed.(client := filed.client.(splitId := (s.client.splitId + 1) % 0x1_0000))
                            else filed;
            EvictAfter(EmitAll(numbered, |s.history.tracked|, t.frames)).state.client.window.maxPending
            == s.client.window.maxPending
  {
    hide AdmitAll, EmitAll, Evict, FileAll;
    AdmitAllKeepsLimit(s.client.window, t.frames, now);
    var filed := FileTracked(s, t, now);
    var numbered := if split then filed.(client := filed.client.(splitId := (s.client.splitId + 1) % 0x1_0000))
                    else filed;
    EmitAllKeepsWindow(numbered, |s.history.tracked|, t.frames);
    EvictKeepsWindow(EmitAll(numbered, |s.history.tracked|, t.frames).state);
  }

  lemma {:induction false} RunKeepsLimit(start: State, events: seq<Event>)
    requires Initial(start)
    ensures Run(start, events).client.window.maxPending == start.client.window.maxPending
    decreases |events|
  {
    hide Step, Inv, Initial;
    if events != [] {
      var n := |events| - 1;
      RunKeepsLimit(start, events[..n]);
      ReachedInv(start, events[..n]);
      StepKeepsLimit(Run(start, events[..n]), events[n]);
    }
  }

  /** Nothing of an empty history, or of a state behind a full acknowledgement, is unsettled. */
  lemma {:induction false} AnsweredIsAttended(start: State, events: seq<Event>)
    requires Initial(start) && start.client.window.maxPending <= CACHE_LIMIT && Answered(start, events)
    ensures Attended(start, events) && (|events| % 2 == 0 ==> Unsettled(start, events) == 0)
    decreases |events|
  {
    hide Run, Initial, Completes, Settles, Planned, Inv;
    if events != [] {
      var n := |events| - 1;
      var s := Run(start, events[..n]);
      AnsweredPrefix(start, events);
      AnsweredIsAttended(start, events[..n]);
      ReachedInv(start, events[..n]);
      RunKeepsLimit(start, events[..n]);
      PlannedFits(s, events[n]);
      assert AnsweredAt(start, events, n);
      SettlingCompletes(s, events[n]);
    }
  }

  lemma SettlingCompletes(s: State, e: Event)
    ensures Settles(s, e) ==> Completes(s, e)
  {
    hide ParseAck, Step;
  }

  lemma AnsweredPrefix(start: State, events: seq<Event>)
    requires events != [] && Answered(start, events)
    ensures Answered(start, events[..|events| - 1])
  {
    hide AnsweredAt;
    var n := |events| - 1;
    forall i | 0 <= i < n ensures AnsweredAt(start, events[..n], i) {
      assert AnsweredAt(start, events, i);
      AnsweredEarlier(start, events, n, i);
    }
  }

  /** In particular: whatever is sent, one full acknowledgement after each operation is enough. */
  lemma {:induction false} AnsweredRunIsSafe(start: State, events: seq<Event>)
    requires Initial(start) && start.client.window.maxPending <= CACHE_LIMIT && Answered(start, events)
    ensures SafeRun(start, events)
  {
    hide Run, SafeRun, Initial, Answered, Attended;
    AnsweredIsAttended(start, events);
    AcknowledgedRunIsSafe(start, events);
  }
}
