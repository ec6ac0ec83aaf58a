/**
 * What each kind of send puts on the wire, and what the datagram cache holds: datagrams that went out, in the order in
 * which they did, at most 4096 after a reliable send.
 */
module Outgoing {
  import opened Results
  import opened Bytes
  import opened OrderedDict
  import opened RaknetCodec
  import opened Reliability
  import opened Sender
  import opened SenderSafety
  import opened SenderWindow
  import opened Retransmission

  // ---- one datagram -----------------------------------------------------------------------------

  /** One more datagram than before, with these frames, under the next sequence number. */
  ghost predicate Posted(s: State, s': State, x: Sent) {
    && s'.history.sent == s.history.sent + [x]
    && s'.history.sequences == s.history.sequences + [s.client.sequence]
    && s'.client.sequence == (s.client.sequence + 1) % 0x100_0000
  }

  /** What went out for the record is what was cached, if it is tracked; otherwise the cache is as it was. */
  ghost predicate Kept(s: State, s': State, x: Sent) {
    var (c, c', q) := (s.client, s'.client, s.client.sequence);
    if x.serial.None? then c'.datagrams == c.datagrams && c'.messages == c.messages else
    && (x.wire.None? ==> x.Datagram(q).Ok?)
    && c'.datagrams.at == c.datagrams.at[q := if x.wire.Some? then x.wire.value else x.Datagram(q).value]
    && c'.messages.at == c.messages.at[q := x.frame.messageIndex]
  }

  lemma {:induction false} EmitPosts(s: State, x: Sent)
    requires Emit(s, x).raised.None?
    ensures Posted(s, Emit(s, x).state, x) && Kept(s, Emit(s, x).state, x)
    ensures x.Datagram(s.client.sequence).Ok? && s.history.link(|s.history.sent|) == None
  {
    hide Assemble;
  }

  lemma {:induction false} FilingPostsNothing(s: State, t: Tracked, now: real)
    ensures var f := FileTracked(s, t, now);
            && f.history.sent == s.history.sent && f.history.sequences == s.history.sequences
            && f.client == s.client.(window := t.window)
            && f.history.link == s.history.link
  {
    hide FileAll;
    FilingPosts(s, t.frames, now);
  }

  lemma {:induction false} FilingPosts(s: State, frames: seq<Frame>, now: real)
    ensures var f := FileAll(s, frames, now);
            && f.history.sent == s.history.sent && f.history.sequences == s.history.sequences
            && f.client == s.client.(window := f.client.window) && f.history.link == s.history.link
    decreases |frames|
  {
    hide FileAll, FileFrame;
    FileAllStep(s, frames, now);
    if frames != [] {
      FileFramePosts(s, frames[0], now);
      FilingPosts(FileFrame(s, frames[0], now), frames[1..], now);
    }
  }

  lemma FileAllStep(s: State, frames: seq<Frame>, now: real)
    ensures FileAll(s, frames, now) == if frames == [] then s else FileAll(FileFrame(s, frames[0], now), frames[1..],
                                                                           now)
  {
    hide FileFrame;
  }

  lemma FileFramePosts(s: State, frame: Frame, now: real)
    ensures var f := FileFrame(s, frame, now);
            && f.history.sent == s.history.sent && f.history.sequences == s.history.sequences
            && f.client == s.client.(window := f.client.window) && f.history.link == s.history.link
  {
    hide Admit;
  }

  /** An unreliable payload goes out alone in a frame of mode 0, the flag cut to its top bit and its low four. */
  lemma {:induction false} UnreliableGoesOut(s: State, payload: Octets, flag: Byte)
    requires Raised(s, SendUnreliableEvent(payload, flag)).None?
    ensures var (s', frame) := (Step(s, SendUnreliableEvent(payload, flag)),
                                Frame(payload, false, false, 0, 0, 0, 0, 0, 0, 0, None));
            && Posted(s, s', Sent(None, (if flag >= 0x80 then 0x80 else 0) + flag % 16, frame, [], None))
            && s'.client == s.client.(sequence := s'.client.sequence)
  {
    hide Emit, Kept;
    var sent := Sent(None, flag / 128 * 128 + flag % 16, Whole(payload, false, false, 0, 0, 0), [], None);
    EmitPosts(s, sent);
    UntrackedLeaves(s, sent);
    assert flag / 128 * 128 == if flag >= 0x80 then 0x80 else 0;
  }

  lemma UntrackedLeaves(s: State, x: Sent)
    requires x.serial.None?
    ensures Emit(s, x).state.client == s.client.(sequence := Emit(s, x).state.client.sequence)
  {
    hide Assemble;
  }

  lemma {:induction false} EvictionPosts(s: State)
    ensures var e := Evict(s);
            && e.history.sent == s.history.sent && e.history.sequences == s.history.sequences
            && e.client.sequence == s.client.sequence && e.client.window == s.client.window
            && |e.client.datagrams.keys| <= 4096
    decreases |s.client.datagrams.keys|
  {
    hide Forget, Evict;
    EvictStep(s);
    if |s.client.datagrams.keys| > 4096 {
      ForgetShrinks(s);
      ForgetPosts(s, s.client.datagrams.keys[0]);
      EvictionPosts(Forget(s, s.client.datagrams.keys[0]));
    }
  }

  lemma EvictStep(s: State)
    ensures Evict(s)
         == if |s.client.datagrams.keys| <= 4096 then s else Evict(Forget(s, s.client.datagrams.keys[0]))
  {
    hide Forget;
    if |s.client.datagrams.keys| > 4096 { ForgetShrinks(s); }
  }

  lemma ForgetPosts(s: State, q: int)
    ensures var f := Forget(s, q);
            && f.history.sent == s.history.sent && f.history.sequences == s.history.sequences
            && f.client.sequence == s.client.sequence && f.client.window == s.client.window
            && f.history.link == s.history.link && f.history.reused == s.history.reused
  {
    hide Pop;
  }

  /** Without tracking, a reliable payload takes both its indices from the datagram sequence. */
  lemma {:induction false} UntrackedGoesOut(s: State, payload: Octets, channel: int, ordered: bool, maxPayload: int,
                                            now: real)
    requires Raised(s, SendReliableEvent(payload, channel, ordered, false, maxPayload, now)).None?
    ensures var (s', q) := (Step(s, SendReliableEvent(payload, channel, ordered, false, maxPayload, now)),
                            s.client.sequence % 0x100_0000);
            && Posted(s, s', Sent(None, 0x80, Frame(payload, true, ordered, q, q, channel, 0, 0, 0, 0, None), [], None))
            && s'.client.window == s.client.window && |s'.client.datagrams.keys| <= 4096
  {
    hide Emit, Kept, Evict;
    var sent := Sent(None, 0x80, Whole(payload, true, ordered, s.client.sequence % M24, s.client.sequence % M24,
                                       channel),
                     [], None);
    EmitPosts(s, sent);
    UntrackedLeaves(s, sent);
    EvictionPosts(Emit(s, sent).state);
  }

  // ---- tracked frames ---------------------------------------------------------------------------

  /** One datagram for each of the frames, on its own, under serials that count on. */
  function OneEach(serial: nat, frames: seq<Frame>): seq<Sent> {
    seq(|frames|, i requires 0 <= i < |frames| => Sent(Some(serial + i), 0x80, frames[i], [], None))
  }

  lemma {:induction false} EmitAllPosts(s: State, serial: nat, frames: seq<Frame>)
    requires EmitAll(s, serial, frames).raised.None?
    ensures EmitAll(s, serial, frames).state.history.sent == s.history.sent + OneEach(serial, frames)
    ensures EmitAll(s, serial, frames).state.client.window == s.client.window
    decreases |frames|
  {
    hide Emit, Kept;
    if frames != [] {
      var sent := Sent(Some(serial), 0x80, frames[0], [], None);
      EmitPosts(s, sent);
      EmitAppends(s, sent);
      EmitAllPosts(Emit(s, sent).state, serial + 1, frames[1..]);
      assert [sent] + OneEach(serial + 1, frames[1..]) == OneEach(serial, frames);
    }
  }

  /**
   * A tracked payload goes out as the frames that were tracked for it, one datagram each, and 4096 stay cached at
   * most.
   */
  lemma {:induction false} TrackedGoesOut(s: State, payload: Octets, channel: int, ordered: bool, maxPayload: int,
                                          now: real)
    requires Raised(s, SendReliableEvent(payload, channel, ordered, true, maxPayload, now)).None?
    ensures var (s', split) := (Step(s, SendReliableEvent(payload, channel, ordered, true, maxPayload, now)),
                                |payload| > maxPayload);
            var t := if split then TrackSplit(s.client.window, payload, maxPayload, ordered, channel, s.client.splitId,
                                              now)
                     else Track(s.client.window, payload, ordered, channel, now);
            && t.Ok? && s'.client.window == t.value.window
            && s'.history.sent == s.history.sent + OneEach(|s.history.tracked|, t.value.frames)
            && |s'.client.datagrams.keys| <= 4096
  {
    hide EmitAll, Evict, FileTracked, Track, TrackSplit;
    var split := |payload| > maxPayload;
    var t := if split then TrackSplit(s.client.window, payload, maxPayload, ordered, channel, s.client.splitId, now)
             else Track(s.client.window, payload, ordered, channel, now);
    var filed := FileTracked(s, t.value, now);
    var (c, next) := (filed.client, (s.client.splitId + 1) % 0x1_0000);
    var numbered := if split then filed.(client := c.(splitId := next)) else filed;
    FilingPostsNothing(s, t.value, now);
    EmitAllPosts(numbered, |s.history.tracked|, t.value.frames);
    EvictionPosts(EmitAll(numbered, |s.history.tracked|, t.value.frames).state);
  }

  /** Frames that carry the numbers from n on, modulo 2^24, none of them twice. */
  ghost predicate CountOn(n: int, frames: seq<Frame>) {
    |frames| <= 0x100_0000 && forall i | 0 <= i < |frames| :: frames[i].messageIndex == (n + i) % 0x100_0000
  }

  /** Each of the frames waits under its own number, sent now for the first time. */
  ghost predicate AllWait(pending: map<int, Pending>, frames: seq<Frame>, now: real) {
    forall i | 0 <= i < |frames| ::
      frames[i].messageIndex in pending && pending[frames[i].messageIndex] == Pending(frames[i], now, 1)
  }

  predicate NumbersOf(frames: seq<Frame>, k: int) {
    exists i :: 0 <= i < |frames| && frames[i].messageIndex == k
  }

  /** What waits under any other number is as it was. */
  ghost predicate OthersWait(before: map<int, Pending>, after: map<int, Pending>, frames: seq<Frame>) {
    forall k | !NumbersOf(frames, k) :: (k in after <==> k in before) && (k in after ==> after[k] == before[k])
  }

  lemma {:induction false} FramesWait(w: Window, frames: seq<Frame>, now: real)
    requires CountOn(w.nextMessageIndex, frames)
    ensures var after := AdmitAll(w, frames, now).pending.at;
            AllWait(after, frames, now) && OthersWait(w.pending.at, after, frames)
    decreases |frames|
  {
    hide Set, NumbersOf;
    if frames != [] {
      var (first, rest, w1) := (frames[0], frames[1..], Admit(w, frames[0], now));
      CountOnRest(w.nextMessageIndex, frames);
      FramesWait(w1, rest, now);
      assert w1.pending.at == w.pending.at[first.messageIndex := Pending(first, now, 1)];
      forall k ensures NumbersOf(frames, k) <==> k == first.messageIndex || NumbersOf(rest, k) {
        NumbersStep(frames, k);
      }
      var after := AdmitAll(w, frames, now).pending.at;
      forall i | 0 <= i < |frames|
        ensures frames[i].messageIndex in after && after[frames[i].messageIndex] == Pending(frames[i], now, 1)
      {
        if i > 0 { assert frames[i] == rest[i - 1]; }
      }
    }
  }

  lemma NumbersStep(frames: seq<Frame>, k: int)
    requires frames != []
    ensures NumbersOf(frames, k) <==> k == frames[0].messageIndex || NumbersOf(frames[1..], k)
  {
    if i :| 0 <= i < |frames[1..]| && frames[1..][i].messageIndex == k { assert frames[i + 1].messageIndex == k; }
    if i :| 0 <= i < |frames| && frames[i].messageIndex == k && i > 0 { assert frames[1..][i - 1].messageIndex == k; }
  }

  lemma CountOnRest(n: int, frames: seq<Frame>)
    requires CountOn(n, frames) && frames != []
    ensures CountOn((n + 1) % 0x100_0000, frames[1..]) && !NumbersOf(frames[1..], frames[0].messageIndex)
  {
    forall i | 0 <= i < |frames[1..]|
      ensures frames[1..][i].messageIndex == ((n + 1) % 0x100_0000 + i) % 0x100_0000
      ensures frames[1..][i].messageIndex != frames[0].messageIndex
    {
      NumberApart(n, i);
    }
  }

  lemma NumberApart(n: int, i: nat)
    requires i + 1 < 0x100_0000
    ensures ((n + 1) % 0x100_0000 + i) % 0x100_0000 == (n + (i + 1)) % 0x100_0000 != n % 0x100_0000
  {}

  /** What tracking leaves in the window: the new frame under the next number, sent now for the first time. */
  lemma {:induction false} TrackedWaits(w: Window, payload: Octets, ordered: bool, channel: int, now: real)
    requires 0 <= w.nextMessageIndex < 0x100_0000 && Track(w, payload, ordered, channel, now).Ok?
    ensures var (t, k) := (Track(w, payload, ordered, channel, now).value, w.nextMessageIndex);
            && t.frames != [] && t.window.pending.at == w.pending.at[k := Pending(t.frames[0], now, 1)]
            && t.window.nextMessageIndex == (k + 1) % 0x100_0000
            && t.window.nextOrderIndex == NextOrder(w, ordered, channel)
            && t.window.resendAfter == w.resendAfter && t.window.maxPending == w.maxPending
  {
    hide Set;
    var frame := Track(w, payload, ordered, channel, now).value.frames[0];
    assert [frame][1..] == [] && AdmitAll(Admit(w, frame, now), [], now) == Admit(w, frame, now);
    assert AdmitAll(w, [frame], now) == Admit(w, frame, now);
  }

  /** The order counters after one message: that of its channel, modulo 256, has moved on if it is ordered. */
  function NextOrder(w: Window, ordered: bool, channel: int): map<int, int> {
    var c := channel % 0x100;
    if !ordered then w.nextOrderIndex
    else w.nextOrderIndex[c := ((if c in w.nextOrderIndex then w.nextOrderIndex[c] else 0) + 1) % 0x100_0000]
  }

  /** And what cutting leaves there: each fragment under a number of its own, one order counter moved on by one. */
  lemma {:induction false} FragmentsWait(w: Window, body: Octets, m: int, ordered: bool, channel: int, splitId: int,
                                         now: real)
    requires 0 < m < |body| && FragmentCount(|body|, m) <= 0x100_0000
    requires 0 <= w.nextMessageIndex < 0x100_0000 && TrackSplit(w, body, m, ordered, channel, splitId, now).Ok?
    ensures var t := TrackSplit(w, body, m, ordered, channel, splitId, now).value;
            && AllWait(t.window.pending.at, t.frames, now) && OthersWait(w.pending.at, t.window.pending.at, t.frames)
            && CountOn(w.nextMessageIndex, t.frames)
            && t.window.nextMessageIndex == (w.nextMessageIndex + |t.frames|) % 0x100_0000
            && t.window.nextOrderIndex == NextOrder(w, ordered, channel)
            && t.window.resendAfter == w.resendAfter && t.window.maxPending == w.maxPending
  {
    hide AdmitAll, FragmentCount, Slice, AllWait, OthersWait;
    CountIs(|body|, m);
    var t := TrackSplit(w, body, m, ordered, channel, splitId, now).value;
    FramesWait(w, t.frames, now);
    AdmitAllCounts(w, t.frames, now);
    AdmitAllKeeps(w, t.frames, now);
  }

  /** A frame is tracked exactly while fewer than max_pending wait; a refusal is a buffer error. */
  lemma TrackedExactly(w: Window, payload: Octets, ordered: bool, channel: int, now: real)
    ensures Track(w, payload, ordered, channel, now).Ok? <==> |w.pending.keys| < w.maxPending
    ensures Track(w, payload, ordered, channel, now).Err? ==>
              Track(w, payload, ordered, channel, now) == Err(BufferError)
  {
    hide AdmitAll;
  }

  /** A message is cut exactly if max_payload is positive and its fragments fit beside what waits. */
  lemma SplitExactly(w: Window, body: Octets, m: int, ordered: bool, channel: int, splitId: int, now: real)
    ensures m <= 0 ==> TrackSplit(w, body, m, ordered, channel, splitId, now) == Err(ValueError)
    ensures 0 < m && |body| <= m ==>
              TrackSplit(w, body, m, ordered, channel, splitId, now) == Track(w, body, ordered, channel, now)
    ensures 0 < m < |body| ==>
              var (t, n) := (TrackSplit(w, body, m, ordered, channel, splitId, now), FragmentCount(|body|, m));
              && (n - 1) * m < |body| <= n * m
              && if |w.pending.keys| + n > w.maxPending then t == Err(BufferError)
                 else t.Ok? && |t.value.frames| == n
  {
    hide AdmitAll, Slice, FragmentCount;
    if 0 < m { CountIs(|body|, m); }
  }

  lemma CountIs(size: nat, m: nat)
    requires m > 0
    ensures FragmentCount(size, m) == 1 <==> size <= m
    ensures size > m ==> (FragmentCount(size, m) - 1) * m < size <= FragmentCount(size, m) * m
  {
    hide FragmentCount;
    var n := FragmentCount(size, m);
    CeilingDivision(size, m);
    if n > 1 { assert m <= (n - 1) * m; }
  }

  /**
   * The frame of a payload that is not split: the next message index, its channel's next order index, no explicit
   * mode.
   */
  lemma TrackedFrame(w: Window, payload: Octets, ordered: bool, channel: int, now: real)
    requires Track(w, payload, ordered, channel, now).Ok?
    ensures Track(w, payload, ordered, channel, now).value.frames
         == [Frame(payload, true, ordered, w.nextMessageIndex,
                   if ordered && channel % 256 in w.nextOrderIndex then w.nextOrderIndex[channel % 256] else 0,
                   channel, 0, 0, 0, 0, None)]
  {
    hide Admit;
  }

  /** An acknowledgement takes away what waits under the index modulo 2^24, and nothing else. */
  lemma AcknowledgedIs(w: Window, index: int)
    ensures Acknowledge(w, index).pending.at == w.pending.at - {index % 0x100_0000}
    ensures Acknowledge(w, index) == w.(pending := Acknowledge(w, index).pending)
  {}

  /** A coalesced send: the tracked frame first, the others behind it as given, the given bytes in the cache if any. */
  lemma {:induction false} CoalescedGoesOut(s: State, payload: Octets, ordered: bool, flag: Byte, tail: seq<Frame>,
                                            wire: Option<Octets>, now: real)
    requires Raised(s, SendCoalescedEvent(payload, ordered, flag, tail, wire, now)).None?
    ensures var (s', t) := (Step(s, SendCoalescedEvent(payload, ordered, flag, tail, wire, now)),
                            Track(s.client.window, payload, ordered, 0, now));
            && t.Ok? && t.value.frames != []
            && var x := Sent(Some(|s.history.tracked|), flag, t.value.frames[0], tail, wire);
               Posted(s, s', x) && Kept(s, s', x)
  {
    hide Emit, Kept, FileTracked, Track;
    var t := Track(s.client.window, payload, ordered, 0, now);
    TrackGivesOne(s.client.window, payload, ordered, 0, now);
    var filed := FileTracked(s, t.value, now);
    var x := Sent(Some(|s.history.tracked|), flag, t.value.frames[0], tail, wire);
    FilingPostsNothing(s, t.value, now);
    EmitPosts(filed, x);
    KeptAlike(s, filed, Emit(filed, x).state, x);
  }

  lemma KeptAlike(s: State, filed: State, s': State, x: Sent)
    requires Kept(filed, s', x) && filed.client == s.client.(window := filed.client.window)
    ensures Kept(s, s', x)
  {
    hide Assemble;
  }

  // ---- the cache over runs ------------------------------------------------------------------------

  /** Every cached sequence stands for a datagram that went out. */
  ghost predicate WentOut(h: History) {
    forall q | q in h.cachedAs :: h.link(h.cachedAs[q]) == None
  }

  /** The first of the keys is numbered below all the others, and so on. */
  ghost predicate Ascending(keys: seq<int>, at: map<int, nat>) {
    keys != [] ==> First(keys[0], keys[1..], at) && Ascending(keys[1..], at)
  }

  ghost predicate First(k: int, keys: seq<int>, at: map<int, nat>) {
    k in at && forall q | q in keys :: q in at && at[k] < at[q]
  }

  ghost predicate Below(keys: seq<int>, at: map<int, nat>, d: nat) {
    forall q | q in keys :: q in at && at[q] < d
  }

  /** The cached sequences are listed in the order in which their datagrams went out. */
  ghost predicate InOrder(s: State) {
    var (keys, h) := (s.client.datagrams.keys, s.history);
    Ascending(keys, h.cachedAs) && Below(keys, h.cachedAs, |h.sent|)
  }

  ghost predicate CacheLog(s: State) {
    && WentOut(s.history) && (!s.history.reused ==> InOrder(s))
    && s.client.datagrams.keys == s.client.messages.keys
  }

  lemma {:induction false} AscendingAt(keys: seq<int>, at: map<int, nat>, i: nat, j: nat)
    requires Ascending(keys, at) && i < j < |keys|
    ensures keys[i] in at && keys[j] in at && at[keys[i]] < at[keys[j]]
  {
    hide First;
    if i == 0 {
      FirstBelow(keys[0], keys[1..], at, keys[j]);
    } else {
      AscendingAt(keys[1..], at, i - 1, j - 1);
    }
  }

  lemma FirstBelow(k: int, keys: seq<int>, at: map<int, nat>, q: int)
    requires First(k, keys, at) && q in keys
    ensures k in at && q in at && at[k] < at[q]
  {}

  /** Dropping a key keeps the order of the others. */
  lemma {:induction false} WithoutAscends(keys: seq<int>, at: map<int, nat>, q: int)
    requires Ascending(keys, at) && Distinct(keys)
    ensures Ascending(Without(keys, q), at - {q})
  {
    hide Ascending, First;
    AscendingOpens(keys, at);
    if keys != [] {
      DistinctTail(keys);
      WithoutDropsOne(keys[1..], q);
      WithoutAscends(keys[1..], at, q);
      if keys[0] == q {
        assert Without(keys[1..], q) == keys[1..];
      } else {
        FirstWithout(keys[0], keys[1..], at, q);
        AscendingCloses(keys[0], Without(keys[1..], q), at - {q});
      }
    } else {
      AscendingOpens([], at - {q});
    }
  }

  lemma AscendingOpens(keys: seq<int>, at: map<int, nat>)
    ensures Ascending(keys, at) <==> keys == [] || (First(keys[0], keys[1..], at) && Ascending(keys[1..], at))
  {
    hide First;
  }

  lemma AscendingCloses(k: int, rest: seq<int>, at: map<int, nat>)
    requires First(k, rest, at) && Ascending(rest, at)
    ensures Ascending([k] + rest, at)
  {
    hide First;
    assert ([k] + rest)[1..] == rest;
  }

  lemma FirstWithout(k: int, rest: seq<int>, at: map<int, nat>, q: int)
    requires First(k, rest, at) && k != q && q !in Without(rest, q)
    ensures First(k, Without(rest, q), at - {q})
  {}

  /** A later number may be put last. */
  lemma {:induction false} AscendsLast(keys: seq<int>, at: map<int, nat>, q: int, d: nat)
    requires Ascending(keys, at) && Below(keys, at, d) && q !in keys
    ensures Ascending(keys + [q], at[q := d])
  {
    hide Ascending, First, Below;
    AscendingOpens(keys, at);
    if keys == [] {
      LastOne(q, at[q := d]);
      assert keys + [q] == [q];
    } else {
      assert keys == [keys[0]] + keys[1..];
      BelowOpens(keys, at, d);
      AscendsLast(keys[1..], at, q, d);
      FirstBeforeLast(keys[0], keys[1..], at, q, d);
      AscendingCloses(keys[0], keys[1..] + [q], at[q := d]);
      assert keys + [q] == [keys[0]] + (keys[1..] + [q]);
    }
  }

  lemma LastOne(q: int, at: map<int, nat>)
    requires q in at
    ensures Ascending([q], at)
  {}

  lemma BelowOpens(keys: seq<int>, at: map<int, nat>, d: nat)
    requires keys != [] && Below(keys, at, d)
    ensures keys[0] in at && at[keys[0]] < d && Below(keys[1..], at, d)
  {
    var k := keys[0];
    assert k in keys && forall q | q in keys[1..] :: q in keys;
  }

  lemma FirstBeforeLast(k: int, rest: seq<int>, at: map<int, nat>, q: int, d: nat)
    requires First(k, rest, at) && at[k] < d && k != q
    ensures First(k, rest + [q], at[q := d])
  {}

  lemma LogOfSame(s: State, s': State)
    requires CacheLog(s) && s'.client.datagrams == s.client.datagrams && s'.client.messages == s.client.messages
    requires s'.history.cachedAs == s.history.cachedAs && s'.history.link == s.history.link
    requires |s.history.sent| <= |s'.history.sent| && (s.history.reused ==> s'.history.reused)
    ensures CacheLog(s')
  {
    hide Ascending;
  }

  lemma {:induction false} ForgetLogs(s: State, q: int)
    requires CacheLog(s)
    ensures CacheLog(Forget(s, q)) && Forget(s, q).history.link == s.history.link
  {
    hide Ascending, Pop, Distinct;
    var (c, h, s') := (s.client, s.history, Forget(s, q));
    assert s'.client.datagrams == Pop(c.datagrams, q) && s'.client.messages == Pop(c.messages, q);
    PopKeys(c.datagrams, q);
    PopKeys(c.messages, q);
    if !h.reused { WithoutAscends(c.datagrams.keys, h.cachedAs, q); }
  }

  lemma PopKeys<V>(d: Dict<int, V>, q: int)
    ensures Pop(d, q).keys == Without(d.keys, q) && Distinct(d.keys)
    ensures forall k | k in Pop(d, q).keys :: k in d.keys && k != q
  {
    WithoutDropsOne(d.keys, q);
  }

  lemma SetKeys<V>(d: Dict<int, V>, q: int, v: V)
    ensures Set(d, q, v).keys == if q in d.keys then d.keys else d.keys + [q]
  {}

  lemma {:induction false} EmitLogs(s: State, x: Sent)
    requires CacheLog(s)
    ensures CacheLog(Emit(s, x).state)
    ensures Emit(s, x).state.history.link == s.history.link
  {
    hide Assemble, CacheLog, CacheAs;
    LogOfSame(s, Consume(s, x));
    if Emit(s, x).raised.None? && x.serial.Some? { CachingLogs(s, x, CachedBytes(s, x)); }
    EmitIs(s, x);
    CacheAsChanges(Consume(s, x), s.client.sequence, |s.history.sent|, CachedBytes(s, x), x.frame.messageIndex);
  }

  lemma {:induction false} CachingLogs(s: State, x: Sent, bytes: Octets)
    requires CacheLog(s) && s.history.link(|s.history.sent|) == None
    ensures CacheLog(CacheAs(Consume(s, x), s.client.sequence, |s.history.sent|, bytes, x.frame.messageIndex))
  {
    hide Ascending, Set;
    var (c, h, q, d) := (s.client, s.history, s.client.sequence, |s.history.sent|);
    SetKeys(c.datagrams, q, bytes);
    SetKeys(c.messages, q, x.frame.messageIndex);
    if !Consume(s, x).history.reused {
      AscendsLast(c.datagrams.keys, h.cachedAs, q, d);
      BelowLast(c.datagrams.keys, h.cachedAs, q, d);
    }
  }

  lemma BelowLast(keys: seq<int>, at: map<int, nat>, q: int, d: nat)
    requires Below(keys, at, d) && q !in keys
    ensures Below(keys + [q], at[q := d], d + 1)
  {}

  lemma {:induction false} FilingLogs(s: State, frames: seq<Frame>, now: real)
    requires CacheLog(s)
    ensures CacheLog(FileAll(s, frames, now)) && FileAll(s, frames, now).history.link == s.history.link
    decreases |frames|
  {
    hide CacheLog, FileAll, FileFrame;
    FileAllStep(s, frames, now);
    if frames != [] {
      FileFrameRests(s, frames[0], now);
      LogOfSame(s, FileFrame(s, frames[0], now));
      FilingLogs(FileFrame(s, frames[0], now), frames[1..], now);
    }
  }

  lemma FileFrameRests(s: State, frame: Frame, now: real)
    ensures var s' := FileFrame(s, frame, now);
            && s'.client.datagrams == s.client.datagrams && s'.client.messages == s.client.messages
            && s'.history.cachedAs == s.history.cachedAs && s'.history.link == s.history.link
            && s'.history.sent == s.history.sent && (s.history.reused ==> s'.history.reused)
  {
    hide Admit;
  }

  lemma {:induction false} EmitAllLogs(s: State, serial: nat, frames: seq<Frame>)
    requires CacheLog(s)
    ensures CacheLog(EmitAll(s, serial, frames).state) && EmitAll(s, serial,
                                                                  frames).state.history.link == s.history.link
    decreases |frames|
  {
    hide CacheLog, Emit;
    if frames != [] {
      var sent := Sent(Some(serial), 0x80, frames[0], [], None);
      EmitLogs(s, sent);
      EmitAllLogs(Emit(s, sent).state, serial + 1, frames[1..]);
    }
  }

  lemma {:induction false} EvictLogs(s: State)
    requires CacheLog(s)
    ensures CacheLog(Evict(s)) && Evict(s).history.link == s.history.link
    decreases |s.client.datagrams.keys|
  {
    hide CacheLog, Forget, Evict;
    EvictStep(s);
    if |s.client.datagrams.keys| > 4096 {
      ForgetShrinks(s);
      ForgetLogs(s, s.client.datagrams.keys[0]);
      EvictLogs(Forget(s, s.client.datagrams.keys[0]));
    }
  }

  lemma {:induction false} AckAllLogs(s: State, sequences: seq<int>)
    requires CacheLog(s)
    ensures CacheLog(AckAll(s, sequences)) && AckAll(s, sequences).history.link == s.history.link
    decreases |sequences|
  {
    hide CacheLog, AckOne;
    if sequences != [] {
      AckOneLogs(s, sequences[0]);
      AckAllLogs(AckOne(s, sequences[0]), sequences[1..]);
    }
  }

  lemma AckOneLogs(s: State, q: int)
    requires CacheLog(s)
    ensures CacheLog(AckOne(s, q)) && AckOne(s, q).history.link == s.history.link
  {
    hide CacheLog, Forget, LastSerial, Acknowledge;
    ForgetLogs(s, q);
    LogOfSame(Forget(s, q), AckOne(s, q));
  }

  lemma {:induction false} ResendAllLogs(s: State, ready: seq<Pending>)
    requires CacheLog(s)
    ensures CacheLog(ResendAll(s, ready).state) && ResendAll(s, ready).state.history.link == s.history.link
    decreases |ready|
  {
    hide CacheLog, Emit;
    if ready != [] {
      if ready[0].attempts > MAX_ATTEMPTS {
        ResendAllLogs(s, ready[1..]);
      } else {
        var sent := Sent(Some(SerialOf(s, ready[0].frame)), 0x80, ready[0].frame, [], None);
        EmitLogs(s, sent);
        ResendAllLogs(Emit(s, sent).state, ready[1..]);
      }
    }
  }

  lemma {:induction false} SendReliableLogs(s: State, payload: Octets, channel: int, ordered: bool, track: bool,
                                            maxPayload: int, now: real)
    requires CacheLog(s)
    ensures var s' := SendReliable(s, payload, channel, ordered, track, maxPayload, now).state;
            CacheLog(s') && s'.history.link == s.history.link
  {
    hide CacheLog, Emit, EmitAll, Evict, FileAll, Track, TrackSplit;
    if !track {
      var ping := Whole(payload, true, ordered, s.client.sequence % M24, s.client.sequence % M24, channel);
      var sent := Sent(None, 0x80, ping, [], None);
      EmitLogs(s, sent);
      EvictLogs(Emit(s, sent).state);
    } else {
      var split := |payload| > maxPayload;
      var t := if split then TrackSplit(s.client.window, payload, maxPayload, ordered, channel, s.client.splitId, now)
               else Track(s.client.window, payload, ordered, channel, now);
      if t.Ok? {
        var filed := FileTracked(s, t.value, now);
        var (c, next) := (filed.client, (s.client.splitId + 1) % 0x1_0000);
        var numbered := if split then filed.(client := c.(splitId := next)) else filed;
        FilingLogs(s, t.value.frames, now);
        LogOfSame(FileAll(s, t.value.frames, now), numbered);
        EmitAllLogs(numbered, |s.history.tracked|, t.value.frames);
        EvictLogs(EmitAll(numbered, |s.history.tracked|, t.value.frames).state);
      }
    }
  }

  lemma {:induction false} SendCoalescedLogs(s: State, payload: Octets, ordered: bool, flag: Byte, tail: seq<Frame>,
                                             wire: Option<Octets>, now: real)
    requires CacheLog(s)
    ensures var s' := SendCoalesced(s, payload, ordered, flag, tail, wire, now).state;
            CacheLog(s') && s'.history.link == s.history.link
  {
    hide CacheLog, Emit, FileAll, Track;
    var t := Track(s.client.window, payload, ordered, 0, now);
    TrackGivesOne(s.client.window, payload, ordered, 0, now);
    if t.Ok? {
      FilingLogs(s, t.value.frames, now);
      LogOfSame(FileAll(s, t.value.frames, now), FileTracked(s, t.value, now));
      EmitLogs(FileTracked(s, t.value, now), Sent(Some(|s.history.tracked|), flag, t.value.frames[0], tail, wire));
    }
  }

  lemma {:induction false} StepLogs(s: State, e: Event)
    requires CacheLog(s)
    ensures CacheLog(Step(s, e)) && Step(s, e).history.link == s.history.link
  {
    hide CacheLog, Emit, SendReliable, SendCoalesced, AckAll, ResendAll, Due, ParseAck;
    match e {
      case SendReliableEvent(payload, channel, ordered, track, maxPayload, now) =>
        SendReliableLogs(s, payload, channel, ordered, track, maxPayload, now);
      case SendUnreliableEvent(payload, flag) =>
        EmitLogs(s, Sent(None, flag / 128 * 128 + flag % 16, Whole(payload, false, false, 0, 0, 0), [], None));
      case SendCoalescedEvent(payload, ordered, flag, tail, wire, now) =>
        SendCoalescedLogs(s, payload, ordered, flag, tail, wire, now);
      case AckEvent(plaintext) =>
        if ParseAck(plaintext).Ok? { AckAllLogs(s, ParseAck(plaintext).value); }
      case ResendEvent(now) =>
        var due := Due(s.client.window, now);
        LogOfSame(s, s.(client := s.client.(window := due.window)));
        ResendAllLogs(s.(client := s.client.(window := due.window)), due.ready);
    }
  }

  lemma {:induction false} RunLogs(start: State, events: seq<Event>)
    requires Initial(start)
    ensures CacheLog(Run(start, events)) && Run(start, events).history.link == start.history.link
    decreases |events|
  {
    hide Step;
    if events != [] {
      RunLogs(start, events[..|events| - 1]);
      StepLogs(Run(start, events[..|events| - 1]), events[|events| - 1]);
    }
  }

  /** Over every run, whatever is cached went out under that sequence number: sending it raised nothing. */
  lemma {:induction false} CachedWentOut(start: State, events: seq<Event>, q: int)
    requires Initial(start) && q in Run(start, events).client.datagrams.at
    ensures var (c, h) := (Run(start, events).client, Run(start, events).history);
            && q in h.cachedAs && q in c.messages.at
            && var d := h.cachedAs[q];
            && d < |h.sent| == |h.sequences| && start.history.link(d) == None && 0 <= q == h.sequences[d]
            && h.sent[d].serial.Some? && c.messages.at[q] == h.sent[d].frame.messageIndex
            && Ok(c.datagrams.at[q]) == if h.sent[d].wire.Some? then Ok(h.sent[d].wire.value)
                                        else Assemble(h.sent[d].flag, q, [h.sent[d].frame] + h.sent[d].tail)
  {
    hide Run, PendingInv, ConservationInv, FreshInv, SendCount, Assemble;
    RunLogs(start, events);
    ReachedInv(start, events);
    var s := Run(start, events);
    assert q in s.client.datagrams.keys;
    assert CacheEntryInv(s, q);
  }

  lemma BehindAreLeft(keys: seq<int>, left: seq<int>)
    requires |left| <= |keys| && left == keys[|keys| - |left|..]
    ensures forall k | |keys| - |left| <= k < |keys| :: keys[k] in left
  {
    forall k | |keys| - |left| <= k < |keys| ensures keys[k] in left { assert left[k - (|keys| - |left|)] == keys[k]; }
  }

  lemma {:induction false} LeftComeLater(keys: seq<int>, left: seq<int>, at: map<int, nat>, q: int, r: int)
    requires Ascending(keys, at) && |left| <= |keys| && left == keys[|keys| - |left|..]
    requires q in keys && q !in left && r in left
    ensures q in at && r in at && at[q] < at[r]
  {
    hide Ascending;
    BehindAreLeft(keys, left);
    var i :| 0 <= i < |keys| && keys[i] == q;
    var j :| 0 <= j < |left| && left[j] == r;
    AscendingAt(keys, at, i, |keys| - |left| + j);
  }

  /** In a run that reuses no live number, eviction drops the datagrams that went out first. */
  lemma {:induction false} EldestAreEvicted(start: State, events: seq<Event>, q: int, r: int)
    requires Initial(start) && !Run(start, events).history.reused
    requires var (s, left) := (Run(start, events), Evict(Run(start, events)));
             q in s.client.datagrams.at && q !in left.client.datagrams.at && r in left.client.datagrams.at
    ensures var h := Run(start, events).history;
            q in h.cachedAs && r in h.cachedAs && h.cachedAs[q] < h.cachedAs[r]
  {
    hide Run, Evict, Ascending, Below;
    RunLogs(start, events);
    var s := Run(start, events);
    EvictKeepsNewest(s);
    assert q in s.client.datagrams.keys && r in Evict(s).client.datagrams.keys;
    LeftComeLater(s.client.datagrams.keys, Evict(s).client.datagrams.keys, s.history.cachedAs, q, r);
  }
}
