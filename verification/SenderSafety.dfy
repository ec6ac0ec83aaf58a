/** What every run of the sender keeps: consistency of its dictionaries, conservation, bounded retransmission. */
module SenderSafety {
  import opened Results
  import opened Bytes
  import opened OrderedDict
  import opened RaknetCodec
  import opened Reliability
  import opened Sender

  /** How many datagrams were sent for the frame with the given serial. */
  function SendCount(sent: seq<Sent>, serial: nat): nat {
    if sent == [] then 0 else
    SendCount(sent[..|sent| - 1], serial) + if sent[|sent| - 1].serial == Some(serial) then 1 else 0
  }

  /** How often a pending frame may have been sent; one less while a resend that is due has not happened yet. */
  function Allowance(p: Pending, owing: bool): int {
    var attempts := if owing then p.attempts - 1 else p.attempts;
    if attempts < MAX_ATTEMPTS then attempts else MAX_ATTEMPTS
  }

  ghost predicate IndexInv(s: State) {
    var (c, h) := (s.client, s.history);
    && c.window.nextMessageIndex == |h.tracked| % M24
    && c.sequence == |h.sent| % M24
    && |h.sequences| == |h.sent| && (forall d | 0 <= d < |h.sent| :: h.sequences[d] == d % M24)
    && (forall n | 0 <= n < |h.tracked| :: h.tracked[n].messageIndex == n % M24)
  }

  /** An entry of `pending` holds the latest frame tracked under its index, not retired, sent within its allowance. */
  ghost predicate PendingEntryInv(h: History, k: int, p: Pending, owing: bool) {
    var n := LastSerial(|h.tracked|, k);
    && 0 <= k < M24 && 0 <= n < |h.tracked|
    && p.frame == h.tracked[n]
    && n !in h.retired
    && 1 <= p.attempts
    && SendCount(h.sent, n) <= Allowance(p, owing)
  }

  ghost predicate PendingInv(s: State, owed: set<int>) {
    var pending := s.client.window.pending;
    && (forall k | k in pending.at :: PendingEntryInv(s.history, k, pending.at[k], k in owed))
    && |pending.keys| <= if s.client.window.maxPending > 0 then s.client.window.maxPending else 0
  }

  /** A cached sequence stands for a datagram that carried, first of all, the frame its message index names. */
  ghost predicate CacheEntryInv(s: State, q: int) {
    var (c, h) := (s.client, s.history);
    && q in h.cachedAs && q in c.messages.at && q in c.datagrams.at
    && var d := h.cachedAs[q];
    && d < |h.sent| && d % M24 == q
    && h.sent[d].serial.Some?
    && c.messages.at[q] == h.sent[d].serial.value % M24
    && (if h.sent[d].wire.Some? then c.datagrams.at[q] == h.sent[d].wire.value
        else h.sent[d].Datagram(q) == Ok(c.datagrams.at[q]))
  }

  /** The serial of the frame whose acknowledgement a cached sequence stands for. */
  ghost function CarriedBy(s: State, q: int): nat
    requires CacheEntryInv(s, q)
  {
    s.history.sent[s.history.cachedAs[q]].serial.value
  }

  ghost predicate CacheInv(s: State) {
    var (c, h) := (s.client, s.history);
    && c.datagrams.keys == c.messages.keys
    && h.cachedAs.Keys == c.messages.at.Keys
    && forall q | q in c.messages.at :: CacheEntryInv(s, q)
  }

  ghost predicate LogInv(h: History) {
    && (forall d | 0 <= d < |h.sent| && h.sent[d].serial.Some? ::
          h.sent[d].serial.value < |h.tracked| && h.sent[d].frame == h.tracked[h.sent[d].serial.value])
    && (forall n: nat :: SendCount(h.sent, n) <= MAX_ATTEMPTS)
  }

  ghost predicate ConservationInv(s: State) {
    var h := s.history;
    && (forall n | n in h.retired :: n < |h.tracked|)
    && |h.tracked| == |s.client.window.pending.keys| + |h.retired| + h.overwritten
  }

  /**
   * As long as no live index is handed out again, each live index has a single meaning; and that cannot happen
   * before one of the two counters has wrapped.
   */
  ghost predicate FreshInv(s: State) {
    var (c, h) := (s.client, s.history);
    && (h.reused ==> |h.tracked| > M24 || |h.sent| > M24)
    && (!h.reused ==>
          && h.overwritten == 0
          && forall q | q in c.messages.at && CacheEntryInv(s, q) ::
               && |h.sent| - h.cachedAs[q] <= M24
               && LastSerial(|h.tracked|, c.messages.at[q]) == CarriedBy(s, q))
  }

  ghost predicate InvOwing(s: State, owed: set<int>) {
    IndexInv(s) && PendingInv(s, owed) && CacheInv(s) && LogInv(s.history) && ConservationInv(s) && FreshInv(s)
  }

  ghost predicate Inv(s: State) {
    InvOwing(s, {})
  }

  // ---- arithmetic of wrapped indices ------------------------------------------------

  lemma LastSerialIs(total: nat, k: int)
    requires 0 <= k < M24
    ensures var n := LastSerial(total, k); n < total && total - n <= M24 && n % M24 == k
  {
    var n := LastSerial(total, k);
    var x := total - 1 - k;
    assert n - k == x - x % M24;
    assert x == M24 * (x / M24) + x % M24;
    assert n == k + M24 * (x / M24);
  }

  lemma LastSerialUnique(total: nat, n: int)
    requires n < total && total - n <= M24
    ensures LastSerial(total, n % M24) == n
  {
    LastSerialIs(total, n % M24);
    var m := LastSerial(total, n % M24);
    assert (m - n) % M24 == 0 && -M24 < m - n < M24;
  }

  /** Tracking one more frame changes the meaning of its own index only. */
  lemma LastSerialAfter(total: nat, k: int)
    requires 0 <= k < M24
    ensures LastSerial(total + 1, k) == if k == total % M24 then total else LastSerial(total, k)
  {
    LastSerialIs(total, k);
    var n := LastSerial(total, k);
    if k == total % M24 {
      LastSerialUnique(total + 1, total);
    } else {
      LastSerialUnique(total + 1, n);
    }
  }

  lemma {:induction false} SendCountAppend(sent: seq<Sent>, e: Sent, n: nat)
    ensures SendCount(sent + [e], n) == SendCount(sent, n) + if e.serial == Some(n) then 1 else 0
  {
    assert (sent + [e])[..|sent|] == sent;
  }

  lemma {:induction false} NotYetSent(h: History, i: nat, n: nat)
    requires LogInv(h) && n >= |h.tracked| && i <= |h.sent|
    ensures SendCount(h.sent[..i], n) == 0
  {
    if i != 0 {
      NotYetSent(h, i - 1, n);
      assert h.sent[..i][..i - 1] == h.sent[..i - 1];
    }
  }

  // ---- filing -----------------------------------------------------------------------

  ghost predicate NextFrames(s: State, frames: seq<Frame>) {
    && |s.client.window.pending.keys| + |frames| <= s.client.window.maxPending
    && forall j | 0 <= j < |frames| :: frames[j].messageIndex == (|s.history.tracked| + j) % M24
  }

  lemma FileFrameRecords(s: State, frame: Frame, now: real)
    ensures var (s', k) := (FileFrame(s, frame, now), frame.messageIndex);
            var (before, after) := (s.client.window.pending, s'.client.window.pending);
            && after.at == before.at[k := Pending(frame, now, 1)]
            && |after.keys| == |before.keys| + (if k in before.at then 0 else 1)
            && s'.client.window.maxPending == s.client.window.maxPending
            && s'.history.tracked == s.history.tracked + [frame] && s'.history.sent == s.history.sent
            && s'.history.retired == s.history.retired
            && s'.history.overwritten == s.history.overwritten + (if k in before.at then 1 else 0)
  {
    hide Carries;
  }

  lemma {:induction false} FileFrameKeepsPending(s: State, frame: Frame, now: real)
    requires Inv(s) && NextFrames(s, [frame])
    ensures PendingInv(FileFrame(s, frame, now), {})
  {
    hide SendCount, FreshInv, CacheInv, LastSerial, LogInv, FileFrame, PendingEntryInv;
    var s' := FileFrame(s, frame, now);
    FileFrameRecords(s, frame, now);
    forall k | k in s'.client.window.pending.at
      ensures PendingEntryInv(s'.history, k, s'.client.window.pending.at[k], false)
    {
      FileFrameKeepsEntry(s, frame, now, k);
    }
    assert |[frame]| == 1;
  }

  lemma {:induction false} FileFrameKeepsEntry(s: State, frame: Frame, now: real, k: int)
    requires Inv(s) && NextFrames(s, [frame])
    requires k in FileFrame(s, frame, now).client.window.pending.at
    ensures var s' := FileFrame(s, frame, now);
            PendingEntryInv(s'.history, k, s'.client.window.pending.at[k], false)
  {
    hide SendCount, FreshInv, CacheInv, LastSerial, LogInv, FileFrame;
    FileFrameRecords(s, frame, now);
    var total := |s.history.tracked|;
    assert [frame][0].messageIndex == (total + 0) % M24;
    if k == frame.messageIndex {
      NotYetSent(s.history, |s.history.sent|, total);
      assert s.history.sent[..|s.history.sent|] == s.history.sent;
    } else {
      assert PendingEntryInv(s.history, k, s.client.window.pending.at[k], false);
    }
    LastSerialAfter(total, k);
  }

  lemma FileFrameConserves(s: State, frame: Frame, now: real)
    requires ConservationInv(s)
    ensures ConservationInv(FileFrame(s, frame, now))
  {
    hide FileFrame;
    FileFrameRecords(s, frame, now);
  }

  /** The cache invariant looks at the cache and the log only. */
  lemma {:induction false} CacheUntouched(s: State, s': State)
    requires CacheInv(s)
    requires s'.client.datagrams == s.client.datagrams && s'.client.messages == s.client.messages
    requires s'.history.sent == s.history.sent && s'.history.cachedAs == s.history.cachedAs
    ensures CacheInv(s')
    ensures forall q :: CacheEntryInv(s, q) <==> CacheEntryInv(s', q)
    ensures forall q | CacheEntryInv(s, q) :: CarriedBy(s, q) == CarriedBy(s', q)
  {
    assert forall q :: CacheEntryInv(s, q) <==> CacheEntryInv(s', q);
  }

  lemma {:induction false} FileFrameKeepsFresh(s: State, frame: Frame, now: real)
    requires Inv(s) && NextFrames(s, [frame])
    ensures FreshInv(FileFrame(s, frame, now))
    ensures CacheInv(FileFrame(s, frame, now))
  {
    hide SendCount, PendingInv, LastSerial, LogInv, CacheEntryInv, CarriedBy, Carries, ConservationInv, Set;
    var s' := FileFrame(s, frame, now);
    var total := |s.history.tracked|;
    assert [frame][0].messageIndex == (total + 0) % M24;
    CacheUntouched(s, s');
    if s'.history.reused && !s.history.reused {
      FilingReusesAfterWrap(s, frame.messageIndex);
    }
    if !s'.history.reused {
      forall q | q in s'.client.messages.at && CacheEntryInv(s', q)
        ensures LastSerial(|s'.history.tracked|, s'.client.messages.at[q])
             == CarriedBy(s', q)
      {
        CacheMessageInRange(s, q);
        NotCarried(s.client.messages.at, frame.messageIndex, q);
        LastSerialAfter(total, s.client.messages.at[q]);
      }
    }
  }

  lemma NotCarried(messages: map<int, int>, k: int, q: int)
    requires !Carries(messages, k) && q in messages
    ensures messages[q] != k
  {}

  lemma {:induction false} FilingReusesAfterWrap(s: State, k: int)
    requires Inv(s) && k == |s.history.tracked| % M24
    requires k in s.client.window.pending.at || Carries(s.client.messages.at, k)
    ensures |s.history.tracked| >= M24
  {
    hide SendCount, FreshInv, ConservationInv, LastSerial, PendingInv, CacheInv, IndexInv, LogInv;
    if k in s.client.window.pending.at {
      PendingIsNotRetired(s, k);
      LastSerialIs(|s.history.tracked|, k);
    } else {
      var q :| q in s.client.messages.at && s.client.messages.at[q] == k;
      CachedSerial(s, q);
    }
  }

  lemma CachedSerial(s: State, q: int)
    requires CacheInv(s) && LogInv(s.history) && q in s.client.messages.at
    ensures CacheEntryInv(s, q)
    ensures CarriedBy(s, q) < |s.history.tracked| && CarriedBy(s, q) % M24 == s.client.messages.at[q]
  {
    hide SendCount;
    assert CacheEntryInv(s, q);
  }

  lemma CacheMessageInRange(s: State, q: int)
    requires CacheEntryInv(s, q)
    ensures 0 <= s.client.messages.at[q] < M24
  {}

  lemma {:induction false} FileFrameKeepsLog(s: State, frame: Frame, now: real)
    requires Inv(s) && NextFrames(s, [frame])
    ensures IndexInv(FileFrame(s, frame, now)) && LogInv(FileFrame(s, frame, now).history)
  {
    hide SendCount, PendingInv, LastSerial, CacheInv, FreshInv, ConservationInv;
    assert [frame][0].messageIndex == (|s.history.tracked| + 0) % M24;
    WrapStep(|s.history.tracked|, 0);
  }

  lemma {:induction false} FileFrameKeepsInv(s: State, frame: Frame, now: real)
    requires Inv(s) && NextFrames(s, [frame])
    ensures Inv(FileFrame(s, frame, now))
  {
    hide *;
    InvParts(s);
    FileFrameKeepsPending(s, frame, now);
    FileFrameConserves(s, frame, now);
    FileFrameKeepsFresh(s, frame, now);
    FileFrameKeepsLog(s, frame, now);
    InvFromParts(FileFrame(s, frame, now), {});
  }

  lemma InvFromParts(s: State, owed: set<int>)
    requires IndexInv(s) && PendingInv(s, owed) && CacheInv(s) && LogInv(s.history) && ConservationInv(s) && FreshInv(s)
    ensures InvOwing(s, owed)
    ensures owed == {} ==> Inv(s)
  {}

  lemma {:induction false} NextFramesTail(s: State, frames: seq<Frame>, now: real)
    requires NextFrames(s, frames) && frames != []
    ensures NextFrames(s, [frames[0]])
    ensures NextFrames(FileFrame(s, frames[0], now), frames[1..])
  {
    assert forall j | 0 <= j < |frames[1..]| :: frames[1..][j] == frames[j + 1];
  }

  lemma FileFrameChanges(s: State, frame: Frame, now: real)
    ensures var s' := FileFrame(s, frame, now);
            && s'.client == s.client.(window := Admit(s.client.window, frame, now))
            && s'.history.tracked == s.history.tracked + [frame]
            && s'.history.sent == s.history.sent
  {}

  lemma {:induction false} FileAllKeepsInv(s: State, frames: seq<Frame>, now: real)
    requires Inv(s) && NextFrames(s, frames)
    ensures var s' := FileAll(s, frames, now);
            && Inv(s')
            && s'.client == s.client.(window := AdmitAll(s.client.window, frames, now))
            && s'.history.tracked == s.history.tracked + frames
            && s'.history.sent == s.history.sent
    decreases |frames|
  {
    hide Inv, NextFrames, Set, FileFrame, Admit;
    if frames != [] {
      NextFramesTail(s, frames, now);
      FileFrameKeepsInv(s, frames[0], now);
      FileFrameChanges(s, frames[0], now);
      FileAllKeepsInv(FileFrame(s, frames[0], now), frames[1..], now);
    }
  }

  lemma {:induction false} ReuseIsRemembered(s: State, frames: seq<Frame>, now: real)
    ensures s.history.reused ==> FileAll(s, frames, now).history.reused
    decreases |frames|
  {
    if frames != [] {
      ReuseIsRemembered(FileFrame(s, frames[0], now), frames[1..], now);
    }
  }

  ghost predicate Live(s: State, n: nat) {
    && n < |s.history.tracked|
    && n % M24 in s.client.window.pending.at
    && LastSerial(|s.history.tracked|, n % M24) == n
  }

  /** Filing over a pending frame is remembered, so without it a pending frame keeps its index to itself. */
  lemma {:induction false} FilingKeepsLive(s: State, frames: seq<Frame>, now: real, n: nat)
    requires Inv(s) && NextFrames(s, frames) && Live(s, n)
    ensures var s' := FileAll(s, frames, now);
            !s'.history.reused ==> Live(s', n)
    decreases |frames|
  {
    hide Inv, LastSerial;
    if frames != [] {
      var s1 := FileFrame(s, frames[0], now);
      NextFramesTail(s, frames, now);
      FileFrameKeepsInv(s, frames[0], now);
      ReuseIsRemembered(s1, frames[1..], now);
      LastSerialAfter(|s.history.tracked|, n % M24);
      assert frames[0].messageIndex == (|s.history.tracked| + 0) % M24;
      if frames[0].messageIndex != n % M24 {
        FilingKeepsLive(s1, frames[1..], now, n);
      }
    }
  }

  lemma {:induction false} FiledIsLive(s: State, frame: Frame, now: real)
    requires NextFrames(s, [frame])
    ensures Live(FileFrame(s, frame, now), |s.history.tracked|)
  {
    hide LastSerial;
    assert [frame][0].messageIndex == (|s.history.tracked| + 0) % M24;
    LastSerialUnique(|s.history.tracked| + 1, |s.history.tracked|);
  }

  lemma {:induction false} FilingMakesLive(s: State, frames: seq<Frame>, now: real, j: nat)
    requires Inv(s) && NextFrames(s, frames) && j < |frames|
    ensures var s' := FileAll(s, frames, now);
            !s'.history.reused ==> Live(s', |s.history.tracked| + j)
    decreases |frames|
  {
    hide Inv, LastSerial, NextFrames, Live, FileFrame;
    var s1 := FileFrame(s, frames[0], now);
    NextFramesTail(s, frames, now);
    FileFrameKeepsInv(s, frames[0], now);
    FileFrameChanges(s, frames[0], now);
    if j == 0 {
      FiledIsLive(s, frames[0], now);
      FilingKeepsLive(s1, frames[1..], now, |s.history.tracked|);
    } else {
      FilingMakesLive(s1, frames[1..], now, j - 1);
    }
  }

  // ---- emitting ---------------------------------------------------------------------

  /** When a tracked frame may be sent: it is the one its index means, and its allowance is not used up. */
  ghost predicate MaySend(s: State, sent: Sent, owed: set<int>) {
    var (c, h) := (s.client, s.history);
    sent.serial.Some? ==>
      var n := sent.serial.value;
      && n < |h.tracked| && sent.frame == h.tracked[n]
      && (!h.reused ==> LastSerial(|h.tracked|, n % M24) == n)
      && SendCount(h.sent, n) < MAX_ATTEMPTS
      && forall k | k in c.window.pending.at && LastSerial(|h.tracked|, k) == n ::
           SendCount(h.sent, n) < Allowance(c.window.pending.at[k], k in owed && k != n % M24)
  }

  ghost function StillOwed(sent: Sent, owed: set<int>): set<int> {
    if sent.serial.Some? then owed - {sent.serial.value % M24} else owed
  }

  lemma EmitRecords(s: State, sent: Sent)
    ensures var s' := Emit(s, sent).state;
            && s'.client.window == s.client.window && s'.client.sequence == (s.client.sequence + 1) % M24
            && s'.history == s.history.(sent := s'.history.sent, sequences := s'.history.sequences,
                                        cachedAs := s'.history.cachedAs, reused := s'.history.reused)
            && s'.history.sent == s.history.sent + [sent]
            && s'.history.sequences == s.history.sequences + [s.client.sequence]
  {
    hide Assemble, Set;
  }

  lemma {:induction false} EmitKeepsPending(s: State, sent: Sent, owed: set<int>)
    requires InvOwing(s, owed) && MaySend(s, sent, owed)
    ensures PendingInv(Emit(s, sent).state, StillOwed(sent, owed))
  {
    hide Assemble, LastSerial, SendCount, CacheInv, FreshInv, LogInv, ConservationInv, IndexInv, Emit;
    var s' := Emit(s, sent).state;
    EmitRecords(s, sent);
    forall k | k in s'.client.window.pending.at
      ensures PendingEntryInv(s'.history, k, s'.client.window.pending.at[k], k in StillOwed(sent, owed))
    {
      assert PendingEntryInv(s.history, k, s.client.window.pending.at[k], k in owed);
      SendCountAppend(s.history.sent, sent, LastSerial(|s.history.tracked|, k));
    }
  }

  lemma {:induction false} EmitKeepsLog(s: State, sent: Sent, owed: set<int>)
    requires InvOwing(s, owed) && MaySend(s, sent, owed)
    ensures var s' := Emit(s, sent).state;
            LogInv(s'.history) && IndexInv(s') && ConservationInv(s')
  {
    hide Assemble, LastSerial, SendCount, CacheInv, FreshInv, PendingInv, Emit;
    var s' := Emit(s, sent).state;
    EmitRecords(s, sent);
    forall n: nat ensures SendCount(s'.history.sent, n) <= MAX_ATTEMPTS {
      SendCountAppend(s.history.sent, sent, n);
    }
    WrapStep(|s.history.sent|, 0);
  }

  lemma {:induction false} EmitKeepsEntry(s: State, sent: Sent, q: int)
    requires IndexInv(s) && CacheInv(s) && FreshInv(s)
    requires q in s.client.messages.at
    requires Emit(s, sent).raised.Some? || sent.serial.None? || q != s.client.sequence
    ensures var s' := Emit(s, sent).state;
            && CacheEntryInv(s', q)
            && (!s'.history.reused ==>
                  && |s'.history.sent| - s'.history.cachedAs[q] <= M24
                  && LastSerial(|s'.history.tracked|, s'.client.messages.at[q]) == CarriedBy(s', q))
  {
    hide Assemble, LastSerial, Emit;
    assert CacheEntryInv(s, q);
    EmitLeaves(s, sent, q);
    EntryAges(|s.history.sent|, s.history.cachedAs[q]);
  }

  /** What sending leaves as it was for a sequence that it does not cache. */
  lemma EmitLeaves(s: State, sent: Sent, q: int)
    requires q in s.client.messages.at && q in s.client.datagrams.at && q in s.history.cachedAs
    requires Emit(s, sent).raised.Some? || sent.serial.None? || q != s.client.sequence
    ensures var s' := Emit(s, sent).state;
            && s'.history.tracked == s.history.tracked && s'.history.sent == s.history.sent + [sent]
            && q in s'.client.messages.at && s'.client.messages.at[q] == s.client.messages.at[q]
            && q in s'.client.datagrams.at && s'.client.datagrams.at[q] == s.client.datagrams.at[q]
            && q in s'.history.cachedAs && s'.history.cachedAs[q] == s.history.cachedAs[q]
            && (!s'.history.reused ==> !s.history.reused && s.client.sequence !in s.client.messages.at)
  {
    hide Assemble;
  }

  lemma EntryAges(total: nat, d: nat)
    requires d < total
    ensures d % M24 != total % M24 && total - d <= M24 ==> total + 1 - d <= M24
  {}

  lemma {:induction false} EmitMakesEntry(s: State, sent: Sent, owed: set<int>)
    requires IndexInv(s) && MaySend(s, sent, owed)
    requires Emit(s, sent).raised.None? && sent.serial.Some?
    ensures var (s', q) := (Emit(s, sent).state, s.client.sequence);
            && q in s'.client.messages.at
            && CacheEntryInv(s', q)
            && (!s'.history.reused ==>
                  && |s'.history.sent| - s'.history.cachedAs[q] <= M24
                  && LastSerial(|s'.history.tracked|, s'.client.messages.at[q]) == CarriedBy(s', q))
  {
    hide Assemble, LastSerial, SendCount;
  }

  lemma {:induction false} EmittingReusesAfterWrap(s: State)
    requires IndexInv(s) && CacheInv(s) && s.client.sequence in s.client.messages.at
    ensures |s.history.sent| >= M24
  {
    assert CacheEntryInv(s, s.client.sequence);
  }

  lemma EmitKeys(s: State, sent: Sent)
    requires s.client.datagrams.keys == s.client.messages.keys && s.history.cachedAs.Keys == s.client.messages.at.Keys
    ensures var s' := Emit(s, sent).state;
            && s'.client.datagrams.keys == s'.client.messages.keys
            && s'.history.cachedAs.Keys == s'.client.messages.at.Keys
            && s'.history.tracked == s.history.tracked && |s'.history.sent| == |s.history.sent| + 1
            && s'.history.overwritten == s.history.overwritten
            && (s'.history.reused <==> s.history.reused || s.client.sequence in s.client.messages.at)
            && forall q | q in s'.client.messages.at ::
                 if Emit(s, sent).raised.None? && sent.serial.Some? && q == s.client.sequence then true
                 else q in s.client.messages.at
  {
    hide CacheAs, Consume, Emit;
    var o := Emit(s, sent);
    var consumed := Consume(s, sent);
    EmitIs(s, sent);
    ConsumeChanges(s, sent);
    if o.raised.None? && sent.serial.Some? {
      var bytes := CachedBytes(s, sent);
      CacheAsChanges(consumed, s.client.sequence, |s.history.sent|, bytes, sent.frame.messageIndex);
    }
  }

  /** What is cached for a datagram that went out. */
  function CachedBytes(s: State, sent: Sent): Octets {
    var datagram := sent.Datagram(s.client.sequence);
    if sent.wire.Some? then sent.wire.value else if datagram.Ok? then datagram.value else []
  }

  /** The two outcomes of sending: the number is consumed, and a tracked datagram that went out is cached. */
  lemma EmitIs(s: State, sent: Sent)
    ensures var o := Emit(s, sent);
            o.state == if o.raised.None? && sent.serial.Some?
                       then CacheAs(Consume(s, sent), s.client.sequence, |s.history.sent|, CachedBytes(s, sent),
                                    sent.frame.messageIndex)
                       else Consume(s, sent)
    ensures Emit(s, sent).raised.None? ==> sent.Datagram(s.client.sequence).Ok?
  {
    hide Assemble, CacheAs, Consume;
  }

  lemma ConsumeChanges(s: State, sent: Sent)
    ensures var s' := Consume(s, sent);
            && s'.client == s.client.(sequence := (s.client.sequence + 1) % M24)
            && s'.history == s.history.(sent := s'.history.sent, sequences := s'.history.sequences,
                                        reused := s'.history.reused)
            && s'.history.sent == s.history.sent + [sent]
            && s'.history.sequences == s.history.sequences + [s.client.sequence]
            && (s'.history.reused <==> s.history.reused || s.client.sequence in s.client.messages.at)
  {}

  lemma CacheAsChanges(s: State, q: int, d: nat, bytes: Octets, index: int)
    ensures var s' := CacheAs(s, q, d, bytes, index);
            && s'.client == s.client.(datagrams := s'.client.datagrams, messages := s'.client.messages)
            && s'.history == s.history.(cachedAs := s.history.cachedAs[q := d])
            && s'.client.datagrams.at == s.client.datagrams.at[q := bytes]
            && s'.client.messages.at == s.client.messages.at[q := index]
            && (s.client.datagrams.keys == s.client.messages.keys ==>
                  s'.client.datagrams.keys == s'.client.messages.keys)
  {}

  lemma {:induction false} EmitKeepsCache(s: State, sent: Sent, owed: set<int>)
    requires InvOwing(s, owed) && MaySend(s, sent, owed)
    ensures CacheInv(Emit(s, sent).state)
    ensures FreshInv(Emit(s, sent).state)
  {
    hide Assemble, LastSerial, SendCount, LogInv, PendingInv, ConservationInv, CacheEntryInv, CarriedBy, MaySend, Emit;
    var s' := Emit(s, sent).state;
    EmitKeys(s, sent);
    if s.client.sequence in s.client.messages.at { EmittingReusesAfterWrap(s); }
    forall q | q in s'.client.messages.at
      ensures CacheEntryInv(s', q)
      ensures !s'.history.reused ==>
                && |s'.history.sent| - s'.history.cachedAs[q] <= M24
                && LastSerial(|s'.history.tracked|, s'.client.messages.at[q]) == CarriedBy(s', q)
    {
      if Emit(s, sent).raised.None? && sent.serial.Some? && q == s.client.sequence {
        EmitMakesEntry(s, sent, owed);
      } else {
        EmitKeepsEntry(s, sent, q);
      }
    }
  }

  lemma {:induction false} EmitKeepsInv(s: State, sent: Sent, owed: set<int>)
    requires InvOwing(s, owed) && MaySend(s, sent, owed)
    ensures InvOwing(Emit(s, sent).state, StillOwed(sent, owed))
  {
    hide *;
    EmitKeepsPending(s, sent, owed);
    EmitKeepsLog(s, sent, owed);
    EmitKeepsCache(s, sent, owed);
    InvFromParts(Emit(s, sent).state, StillOwed(sent, owed));
  }

  /** A frame of the message being sent: filed just now and not sent yet. */
  ghost predicate UnsentEntry(s: State, n: nat, frame: Frame) {
    && n < |s.history.tracked|
    && frame == s.history.tracked[n]
    && SendCount(s.history.sent, n) == 0
    && (!s.history.reused ==> LastSerial(|s.history.tracked|, n % M24) == n)
  }

  ghost predicate Unsent(s: State, serial: nat, frames: seq<Frame>) {
    forall j | 0 <= j < |frames| :: UnsentEntry(s, serial + j, frames[j])
  }

  lemma {:induction false} UnsentMaySend(s: State, serial: nat, frame: Frame)
    requires Inv(s) && UnsentEntry(s, serial, frame)
    ensures MaySend(s, Sent(Some(serial), 0x80, frame, [], None), {})
  {
    hide LastSerial, SendCount, CacheInv, FreshInv, LogInv, ConservationInv, IndexInv;
    var pending := s.client.window.pending;
    forall k | k in pending.at && LastSerial(|s.history.tracked|, k) == serial
      ensures SendCount(s.history.sent, serial) < Allowance(pending.at[k], false)
    {
      assert PendingEntryInv(s.history, k, pending.at[k], false);
    }
  }

  lemma {:induction false} EmitKeepsUnsent(s: State, n: nat, frame: Frame, sent: Sent)
    requires UnsentEntry(s, n, frame) && sent.serial != Some(n)
    ensures UnsentEntry(Emit(s, sent).state, n, frame)
  {
    hide LastSerial, SendCount, Assemble;
    SendCountAppend(s.history.sent, sent, n);
  }

  lemma {:induction false} EmitAllKeepsInv(s: State, serial: nat, frames: seq<Frame>)
    requires Inv(s) && Unsent(s, serial, frames)
    ensures Inv(EmitAll(s, serial, frames).state)
    decreases |frames|
  {
    hide Inv, InvOwing, UnsentEntry, Emit, MaySend;
    if frames != [] {
      var sent := Sent(Some(serial), 0x80, frames[0], [], None);
      assert UnsentEntry(s, serial + 0, frames[0]);
      UnsentMaySend(s, serial, frames[0]);
      EmitKeepsInvWhole(s, sent);
      forall j | 0 <= j < |frames[1..]| ensures UnsentEntry(Emit(s, sent).state, serial + 1 + j, frames[1..][j]) {
        assert UnsentEntry(s, serial + (j + 1), frames[j + 1]);
        EmitKeepsUnsent(s, serial + (j + 1), frames[j + 1], sent);
      }
      if Emit(s, sent).raised.None? {
        EmitAllKeepsInv(Emit(s, sent).state, serial + 1, frames[1..]);
      }
    }
  }

  lemma EmitKeepsInvWhole(s: State, sent: Sent)
    requires Inv(s) && MaySend(s, sent, {})
    ensures Inv(Emit(s, sent).state)
  {
    hide InvOwing, Emit, MaySend;
    EmitKeepsInv(s, sent, {});
    assert StillOwed(sent, {}) == {};
  }

  lemma {:induction false} FiledIsUnsent(s: State, t: Tracked, ordered: bool, channel: int, now: real)
    requires Inv(s) && Shape(s.client.window, Ok(t), ordered, channel, now)
    ensures var s' := FileTracked(s, t, now);
            && Inv(s') && Unsent(s', |s.history.tracked|, t.frames)
            && s'.history.tracked == s.history.tracked + t.frames && |t.frames| > 0
  {
    hide LastSerial, SendCount, Inv, InvOwing, FileAll, Live, NextFrames, UnsentEntry, AdmitAll;
    var filed := FileAll(s, t.frames, now);
    InvParts(s);
    ShapeGivesNextFrames(s, t, ordered, channel, now);
    FileAllKeepsInv(s, t.frames, now);
    OrderCountersAreFree(filed, t.window, filed.client.splitId);
    var s' := FileTracked(s, t, now);
    forall j | 0 <= j < |t.frames| ensures UnsentEntry(s', |s.history.tracked| + j, t.frames[j]) {
      FilingMakesLive(s, t.frames, now, j);
      FreshlyFiled(s, filed, s', t.frames, j);
    }
  }

  lemma InvParts(s: State)
    requires Inv(s)
    ensures IndexInv(s) && PendingInv(s, {}) && CacheInv(s) && LogInv(s.history) && ConservationInv(s) && FreshInv(s)
  {}

  lemma {:induction false} FreshlyFiled(s: State, filed: State, s': State, frames: seq<Frame>, j: nat)
    requires LogInv(s.history) && j < |frames|
    requires filed.history == s'.history
    requires filed.history.tracked == s.history.tracked + frames && filed.history.sent == s.history.sent
    requires !filed.history.reused ==> Live(filed, |s.history.tracked| + j)
    ensures UnsentEntry(s', |s.history.tracked| + j, frames[j])
  {
    hide LastSerial, SendCount;
    NotYetSent(s.history, |s.history.sent|, |s.history.tracked| + j);
    assert s.history.sent[..|s.history.sent|] == s.history.sent;
  }

  lemma ShapeGivesNextFrames(s: State, t: Tracked, ordered: bool, channel: int, now: real)
    requires IndexInv(s) && Shape(s.client.window, Ok(t), ordered, channel, now)
    ensures NextFrames(s, t.frames)
  {
    hide AdmitAll;
    var total := |s.history.tracked|;
    forall j | 0 <= j < |t.frames| ensures t.frames[j].messageIndex == (total + j) % M24 {
      IndexWraps(s.client.window.nextMessageIndex, total, j);
    }
  }

  /** No invariant mentions the order counters, the resend delay or the split id. */
  lemma {:induction false} OrderCountersAreFree(s: State, w: Window, id: int)
    requires Inv(s)
    requires w.pending == s.client.window.pending && w.maxPending == s.client.window.maxPending
    requires w.nextMessageIndex == s.client.window.nextMessageIndex
    ensures Inv(s.(client := s.client.(window := w, splitId := id)))
  {
    hide PendingEntryInv, LogInv, CacheEntryInv, CarriedBy, LastSerial;
    CacheUntouched(s, s.(client := s.client.(window := w, splitId := id)));
  }

  // ---- evicting and acknowledging -----------------------------------------------------

  lemma {:induction false} ForgetKeepsEntry(s: State, q: int, r: int)
    requires CacheEntryInv(s, r) && r != q
    ensures CacheEntryInv(Forget(s, q), r) && CarriedBy(Forget(s, q), r) == CarriedBy(s, r)
  {
    hide Assemble;
  }

  lemma {:induction false} ForgetKeepsCache(s: State, q: int)
    requires CacheInv(s) && FreshInv(s)
    ensures CacheInv(Forget(s, q)) && FreshInv(Forget(s, q))
  {
    hide CacheEntryInv, CarriedBy, LastSerial;
    var s' := Forget(s, q);
    assert s'.history.cachedAs.Keys == s.history.cachedAs.Keys - {q};
    assert s'.client.messages.at.Keys == s.client.messages.at.Keys - {q};
    forall r | r in s'.client.messages.at ensures CacheEntryInv(s', r) && CarriedBy(s', r) == CarriedBy(s, r) {
      ForgetKeepsEntry(s, q, r);
    }
  }

  lemma {:induction false} ForgetKeepsInv(s: State, q: int)
    requires Inv(s)
    ensures Inv(Forget(s, q))
  {
    hide CacheInv, FreshInv, Pop, LastSerial, SendCount;
    ForgetKeepsCache(s, q);
  }

  lemma {:induction false} EvictKeepsInv(s: State)
    requires Inv(s)
    ensures Inv(Evict(s))
    decreases |s.client.datagrams.keys|
  {
    hide Inv;
    if |s.client.datagrams.keys| > CACHE_LIMIT {
      assert s.client.datagrams.keys[0] in s.client.datagrams.keys;
      ForgetKeepsInv(s, s.client.datagrams.keys[0]);
      EvictKeepsInv(Forget(s, s.client.datagrams.keys[0]));
    }
  }

  lemma RetireRecords(s: State, k: int)
    requires 0 <= k < M24
    ensures var (s', serial) := (Retire(s, k), LastSerial(|s.history.tracked|, k));
            var (before, after) := (s.client.window.pending, s'.client.window.pending);
            && after.at == before.at - {k} && |after.keys| == |before.keys| - (if k in before.at then 1 else 0)
            && s'.client == s.client.(window := s.client.window.(pending := after))
            && s'.history == s.history.(retired := s'.history.retired)
            && s'.history.retired
               == if k in before.at && serial >= 0 then s.history.retired + {serial} else s.history.retired
  {
    hide Pop, LastSerial;
  }

  lemma {:induction false} RetireKeepsPending(s: State, k: int)
    requires PendingInv(s, {}) && 0 <= k < M24
    ensures PendingInv(Retire(s, k), {})
  {
    hide LastSerial, SendCount, PendingEntryInv, Retire;
    var (s', pending) := (Retire(s, k), s.client.window.pending);
    RetireRecords(s, k);
    forall j | j in s'.client.window.pending.at
      ensures PendingEntryInv(s'.history, j, s'.client.window.pending.at[j], false)
    {
      RetireKeepsEntry(s, k, j);
    }
  }

  lemma {:induction false} RetireConserves(s: State, k: int)
    requires PendingInv(s, {}) && ConservationInv(s) && 0 <= k < M24
    ensures ConservationInv(Retire(s, k))
  {
    hide LastSerial, SendCount, PendingEntryInv, Retire, PendingInv;
    RetireRecords(s, k);
    if k in s.client.window.pending.at {
      PendingIsNotRetired(s, k);
    }
  }

  lemma PendingIsNotRetired(s: State, k: int)
    requires PendingInv(s, {}) && k in s.client.window.pending.at
    ensures 0 <= LastSerial(|s.history.tracked|, k) < |s.history.tracked|
    ensures LastSerial(|s.history.tracked|, k) !in s.history.retired
  {
    hide SendCount, LastSerial;
    assert PendingEntryInv(s.history, k, s.client.window.pending.at[k], false);
  }

  lemma {:induction false} RetireKeepsEntry(s: State, k: int, j: int)
    requires PendingInv(s, {}) && 0 <= k < M24 && j in s.client.window.pending.at && j != k
    ensures PendingEntryInv(Retire(s, k).history, j, s.client.window.pending.at[j], false)
  {
    hide SendCount, LastSerial, Retire;
    RetireRecords(s, k);
    assert PendingEntryInv(s.history, j, s.client.window.pending.at[j], false);
    LastSerialIs(|s.history.tracked|, j);
    if k in s.client.window.pending.at {
      assert PendingEntryInv(s.history, k, s.client.window.pending.at[k], false);
      LastSerialIs(|s.history.tracked|, k);
    }
  }

  lemma {:induction false} RetireKeepsInv(s: State, k: int)
    requires Inv(s) && 0 <= k < M24
    ensures Inv(Retire(s, k))
  {
    hide PendingInv, ConservationInv, CacheInv, FreshInv, LastSerial, SendCount, Retire;
    RetireRecords(s, k);
    RetireKeepsCache(s, k);
    RetireKeepsPending(s, k);
    RetireConserves(s, k);
  }

  lemma RetireKeepsCache(s: State, k: int)
    requires CacheInv(s) && FreshInv(s) && 0 <= k < M24
    ensures CacheInv(Retire(s, k)) && FreshInv(Retire(s, k))
  {
    hide CacheEntryInv, CarriedBy, LastSerial, Retire;
    RetireRecords(s, k);
    CacheUntouched(s, Retire(s, k));
  }

  lemma {:induction false} AckOneKeepsInv(s: State, q: int)
    requires Inv(s)
    ensures Inv(AckOne(s, q))
  {
    hide Inv;
    ForgetKeepsInv(s, q);
    if q in s.client.messages.at {
      RetireKeepsInv(Forget(s, q), s.client.messages.at[q] % M24);
    }
  }

  lemma {:induction false} AckAllKeepsInv(s: State, sequences: seq<int>)
    requires Inv(s)
    ensures Inv(AckAll(s, sequences))
    decreases |sequences|
  {
    hide Inv, AckOne;
    if sequences != [] {
      AckOneKeepsInv(s, sequences[0]);
      AckAllKeepsInv(AckOne(s, sequences[0]), sequences[1..]);
    }
  }

  // ---- resending ------------------------------------------------------------------------

  /** The keys of the entries that are due and have not been resent yet. */
  ghost function KeysOf(ready: seq<Pending>): set<int> {
    set p | p in ready :: p.frame.messageIndex
  }

  /** No two entries for the same message. */
  ghost predicate Different(ready: seq<Pending>) {
    forall i, j | 0 <= i < j < |ready| :: ready[i].frame.messageIndex != ready[j].frame.messageIndex
  }

  ghost predicate Owed(s: State, ready: seq<Pending>) {
    && Different(ready)
    && forall p | p in ready ::
         p.frame.messageIndex in s.client.window.pending.at && s.client.window.pending.at[p.frame.messageIndex] == p
  }

  lemma {:induction false} OwingLess(s: State, owed: set<int>, fewer: set<int>)
    requires InvOwing(s, owed) && fewer <= owed
    ensures InvOwing(s, fewer)
  {
    hide LastSerial, SendCount, CacheInv, FreshInv, LogInv, ConservationInv, IndexInv;
    forall k | k in s.client.window.pending.at
      ensures PendingEntryInv(s.history, k, s.client.window.pending.at[k], k in fewer)
    {
      assert PendingEntryInv(s.history, k, s.client.window.pending.at[k], k in owed);
    }
  }

  lemma {:induction false} OwedMaySend(s: State, p: Pending, owed: set<int>)
    requires InvOwing(s, owed)
    requires p.frame.messageIndex in owed && p.frame.messageIndex in s.client.window.pending.at
    requires s.client.window.pending.at[p.frame.messageIndex] == p && p.attempts <= MAX_ATTEMPTS
    ensures var n := LastSerial(|s.history.tracked|, p.frame.messageIndex);
            && n >= 0 && n % M24 == p.frame.messageIndex
            && MaySend(s, Sent(Some(n), 0x80, p.frame, [], None), owed)
  {
    hide SendCount, CacheInv, FreshInv, LogInv, ConservationInv, LastSerial;
    var k := p.frame.messageIndex;
    assert PendingEntryInv(s.history, k, p, true);
    LastSerialIs(|s.history.tracked|, k);
    var n := LastSerial(|s.history.tracked|, k);
    forall j | j in s.client.window.pending.at && LastSerial(|s.history.tracked|, j) == n
      ensures SendCount(s.history.sent, n) < Allowance(s.client.window.pending.at[j], j in owed && j != n % M24)
    {
      assert PendingEntryInv(s.history, j, s.client.window.pending.at[j], j in owed);
      LastSerialIs(|s.history.tracked|, j);
    }
  }

  lemma {:induction false} ResendAllKeepsInv(s: State, ready: seq<Pending>, owed: set<int>)
    requires InvOwing(s, owed) && Owed(s, ready) && KeysOf(ready) <= owed
    ensures Inv(ResendAll(s, ready).state)
    decreases |ready|
  {
    hide InvOwing, Inv, MaySend, LastSerial, Assemble;
    if ready == [] {
      OwingLess(s, owed, {});
      NothingOwed(s);
    } else {
      var p, k := ready[0], ready[0].frame.messageIndex;
      assert p in ready && k in KeysOf(ready);
      assert forall q | q in ready[1..] :: q in ready;
      if p.attempts > MAX_ATTEMPTS {
        ResendAllKeepsInv(s, ready[1..], owed);
      } else {
        var n := LastSerial(|s.history.tracked|, k);
        OwedMaySend(s, p, owed);
        var sent := Sent(Some(n), 0x80, p.frame, [], None);
        EmitKeepsInv(s, sent, owed);
        var s' := Emit(s, sent).state;
        if Emit(s, sent).raised.Some? {
          OwingLess(s', owed - {k}, {});
          NothingOwed(s');
        } else {
          ResendAllKeepsInv(s', ready[1..], owed - {k});
        }
      }
    }
  }

  lemma NothingOwed(s: State)
    ensures InvOwing(s, {}) <==> Inv(s)
  {}

  /** An entry handed out by the pass over the keys from position i on. */
  ghost predicate HandedOut(d: Dict<int, Pending>, i: nat, now: real, resendAfter: real, p: Pending)
    requires i <= |d.keys|
  {
    var k := p.frame.messageIndex;
    k in d.keys[i..] && k in d.at && IsDue(d.at[k], now, resendAfter) && p == Refresh(d.at[k], now, resendAfter)
  }

  lemma HandedOutEarlier(d: Dict<int, Pending>, i: nat, now: real, resendAfter: real, p: Pending)
    requires i < |d.keys| && HandedOut(d, i + 1, now, resendAfter, p)
    ensures HandedOut(d, i, now, resendAfter, p) && p.frame.messageIndex != d.keys[i]
  {
    hide IsDue, Refresh;
    assert d.keys[i..] == [d.keys[i]] + d.keys[i + 1..];
  }

  lemma {:induction false} DueFromFacts(d: Dict<int, Pending>, i: nat, now: real, resendAfter: real)
    requires i <= |d.keys|
    requires forall k | k in d.at :: d.at[k].frame.messageIndex == k
    ensures forall p | p in DueFrom(d, i, now, resendAfter) :: HandedOut(d, i, now, resendAfter, p)
    ensures Different(DueFrom(d, i, now, resendAfter))
    decreases |d.keys| - i
  {
    hide IsDue, HandedOut, Refresh;
    if i < |d.keys| {
      var rest := DueFrom(d, i + 1, now, resendAfter);
      DueFromFacts(d, i + 1, now, resendAfter);
      forall p | p in rest ensures HandedOut(d, i, now, resendAfter, p) && p.frame.messageIndex != d.keys[i] {
        HandedOutEarlier(d, i, now, resendAfter, p);
      }
      assert forall a | 0 <= a < |rest| :: rest[a] in rest && rest[a].frame.messageIndex != d.keys[i];
      assert d.keys[i] in d.keys;
      if IsDue(d.at[d.keys[i]], now, resendAfter) {
        FirstHandedOut(d, i, now, resendAfter);
        var first := Refresh(d.at[d.keys[i]], now, resendAfter);
        assert DueFrom(d, i, now, resendAfter) == [first] + rest;
        DifferentAfter(first, rest);
      } else {
        assert DueFrom(d, i, now, resendAfter) == rest;
      }
    }
  }

  lemma DifferentAfter(first: Pending, rest: seq<Pending>)
    requires Different(rest)
    requires forall a | 0 <= a < |rest| :: rest[a].frame.messageIndex != first.frame.messageIndex
    ensures Different([first] + rest)
  {}

  lemma FirstHandedOut(d: Dict<int, Pending>, i: nat, now: real, resendAfter: real)
    requires i < |d.keys| && d.keys[i] in d.at && IsDue(d.at[d.keys[i]], now, resendAfter)
    requires d.at[d.keys[i]].frame.messageIndex == d.keys[i]
    ensures HandedOut(d, i, now, resendAfter, Refresh(d.at[d.keys[i]], now, resendAfter))
    ensures Refresh(d.at[d.keys[i]], now, resendAfter).frame.messageIndex == d.keys[i]
  {
    assert d.keys[i..][0] == d.keys[i];
  }

  lemma {:induction false} DueOwes(s: State, now: real)
    requires Inv(s)
    ensures var due := Due(s.client.window, now);
            var s' := s.(client := s.client.(window := due.window));
            InvOwing(s', KeysOf(due.ready)) && Owed(s', due.ready)
  {
    hide LogInv, CacheInv, FreshInv, IndexInv, ConservationInv, InvOwing, Inv, RefreshAll, DueFrom, PendingEntryInv,
         IsDue;
    var w := s.client.window;
    InvParts(s);
    forall k | k in w.pending.at ensures w.pending.at[k].frame.messageIndex == k {
      PendingEntryIndex(s, k);
    }
    DueFromFacts(w.pending, 0, now, w.resendAfter);
    var due := Due(w, now);
    var s' := s.(client := s.client.(window := due.window));
    var owed := KeysOf(due.ready);
    forall k | k in s'.client.window.pending.at
      ensures PendingEntryInv(s'.history, k, s'.client.window.pending.at[k], k in owed)
    {
      if k in owed {
        var p :| p in due.ready && p.frame.messageIndex == k;
        assert HandedOut(w.pending, 0, now, w.resendAfter, p);
      }
      RefreshedEntry(s, k, now, k in owed);
    }
    assert PendingInv(s', owed);
    RefreshedFresh(s, s');
    forall p | p in due.ready
      ensures var k := p.frame.messageIndex;
              k in s'.client.window.pending.at && s'.client.window.pending.at[k] == p
    {
      assert HandedOut(w.pending, 0, now, w.resendAfter, p);
    }
    InvFromParts(s', owed);
    assert InvOwing(s', owed);
    assert Owed(s', due.ready);
  }

  /** The times and attempts of pending frames are nobody else's business. */
  lemma RefreshedFresh(s: State, s': State)
    requires CacheInv(s) && FreshInv(s) && IndexInv(s) && ConservationInv(s) && LogInv(s.history)
    requires s' == s.(client := s.client.(window := s.client.window.(pending := s'.client.window.pending)))
    requires |s'.client.window.pending.keys| == |s.client.window.pending.keys|
    ensures CacheInv(s') && FreshInv(s') && IndexInv(s') && ConservationInv(s') && LogInv(s'.history)
  {
    hide CacheEntryInv, CarriedBy, LastSerial, SendCount;
    CacheUntouched(s, s');
  }

  /** A refreshed entry owes one transmission if it was due. */
  lemma RefreshedEntry(s: State, k: int, now: real, owing: bool)
    requires PendingInv(s, {}) && k in s.client.window.pending.at
    requires owing ==> IsDue(s.client.window.pending.at[k], now, s.client.window.resendAfter)
    ensures PendingEntryInv(s.history, k, Refresh(s.client.window.pending.at[k], now, s.client.window.resendAfter),
                            owing)
  {
    hide LastSerial, SendCount;
    assert PendingEntryInv(s.history, k, s.client.window.pending.at[k], false);
  }

  lemma {:induction false} PendingEntryIndex(s: State, k: int)
    requires IndexInv(s) && PendingInv(s, {}) && k in s.client.window.pending.at
    ensures s.client.window.pending.at[k].frame.messageIndex == k
  {
    hide SendCount, LastSerial;
    assert PendingEntryInv(s.history, k, s.client.window.pending.at[k], false);
    LastSerialIs(|s.history.tracked|, k);
  }

  // ---- every operation, every run -----------------------------------------------------------

  lemma UntrackedMaySend(s: State, sent: Sent)
    requires sent.serial.None?
    ensures MaySend(s, sent, {})
  {}

  lemma {:induction false} SendReliableKeepsInv(s: State, payload: Octets, channel: int, ordered: bool, track: bool,
                                                maxPayload: int, now: real)
    requires Inv(s)
    ensures Inv(SendReliable(s, payload, channel, ordered, track, maxPayload, now).state)
  {
    hide Inv, InvOwing, Emit, EmitAll, Evict, MaySend, Track, TrackSplit, Shape, FileAll;
    var c := s.client;
    if !track {
      var ping := Sent(None, 0x80, Whole(payload, true, ordered, c.sequence % M24, c.sequence % M24, channel), [],
                       None);
      UntrackedMaySend(s, ping);
      EmitKeepsInvWhole(s, ping);
      EvictKeepsInv(Emit(s, ping).state);
    } else {
      WindowIndexInRange(s);
      TrackShape(c.window, payload, ordered, channel, now);
      TrackSplitShape(c.window, payload, maxPayload, ordered, channel, c.splitId, now);
      var split := |payload| > maxPayload;
      var t := if split then TrackSplit(c.window, payload, maxPayload, ordered, channel, c.splitId, now)
               else Track(c.window, payload, ordered, channel, now);
      if t.Ok? {
        FiledIsUnsent(s, t.value, ordered, channel, now);
        var filed := FileTracked(s, t.value, now);
        var numbered := if split then filed.(client := filed.client.(splitId := (c.splitId + 1) % 0x1_0000)) else filed;
        OrderCountersAreFree(filed, filed.client.window, numbered.client.splitId);
        UnsentIgnoresSplitId(filed, numbered, |s.history.tracked|, t.value.frames);
        EmitAllKeepsInv(numbered, |s.history.tracked|, t.value.frames);
        EvictKeepsInv(EmitAll(numbered, |s.history.tracked|, t.value.frames).state);
      }
    }
  }

  lemma WindowIndexInRange(s: State)
    requires Inv(s)
    ensures 0 <= s.client.window.nextMessageIndex < M24
  {}

  lemma UnsentIgnoresSplitId(s: State, s': State, serial: nat, frames: seq<Frame>)
    requires Unsent(s, serial, frames)
    requires s'.history == s.history
    ensures Unsent(s', serial, frames)
  {
    hide LastSerial, SendCount;
    forall j | 0 <= j < |frames| ensures UnsentEntry(s', serial + j, frames[j]) {
      assert UnsentEntry(s, serial + j, frames[j]);
    }
  }

  lemma {:induction false} SendCoalescedKeepsInv(s: State, payload: Octets, ordered: bool, flag: Byte, tail: seq<Frame>,
                                                 wire: Option<Octets>, now: real)
    requires Inv(s)
    ensures Inv(SendCoalesced(s, payload, ordered, flag, tail, wire, now).state)
  {
    hide Inv, InvOwing, Emit, MaySend, Track, Shape, FileTracked, UnsentEntry;
    WindowIndexInRange(s);
    TrackShape(s.client.window, payload, ordered, 0, now);
    var t := Track(s.client.window, payload, ordered, 0, now);
    if t.Ok? {
      FiledIsUnsent(s, t.value, ordered, 0, now);
      var filed := FileTracked(s, t.value, now);
      assert UnsentEntry(filed, |s.history.tracked| + 0, t.value.frames[0]);
      UnsentMaySend(filed, |s.history.tracked|, t.value.frames[0]);
      var sent := Sent(Some(|s.history.tracked|), flag, t.value.frames[0], tail, wire);
      MaySendAnyForm(filed, Sent(Some(|s.history.tracked|), 0x80, t.value.frames[0], [], None), sent);
      EmitKeepsInvWhole(filed, sent);
    }
  }

  lemma MaySendAnyForm(s: State, a: Sent, b: Sent)
    requires MaySend(s, a, {}) && a.serial == b.serial && a.frame == b.frame
    ensures MaySend(s, b, {})
  {
    hide SendCount, LastSerial;
  }

  lemma {:induction false} StepKeepsInv(s: State, e: Event)
    requires Inv(s)
    ensures Inv(Step(s, e))
  {
    hide Inv, InvOwing, SendReliable, SendCoalesced, Emit, MaySend, AckAll, ResendAll, Owed, KeysOf;
    match e {
      case SendReliableEvent(payload, channel, ordered, track, maxPayload, now) =>
        SendReliableKeepsInv(s, payload, channel, ordered, track, maxPayload, now);
      case SendUnreliableEvent(payload, flag) =>
        var sent := Sent(None, flag / 128 * 128 + flag % 16, Whole(payload, false, false, 0, 0, 0), [], None);
        UntrackedMaySend(s, sent);
        EmitKeepsInvWhole(s, sent);
      case SendCoalescedEvent(payload, ordered, flag, tail, wire, now) =>
        SendCoalescedKeepsInv(s, payload, ordered, flag, tail, wire, now);
      case AckEvent(plaintext) =>
        if ParseAck(plaintext).Ok? { AckAllKeepsInv(s, ParseAck(plaintext).value); }
      case ResendEvent(now) =>
        var due := Due(s.client.window, now);
        DueOwes(s, now);
        ResendAllKeepsInv(s.(client := s.client.(window := due.window)), due.ready, KeysOf(due.ready));
    }
  }

  /** Every reachable state of the sender satisfies the invariant. */
  lemma {:induction false} EveryRunKeepsInv(resendAfter: real, maxPending: int, splitId: int,
                                            link: nat -> Option<Fault>, events: seq<Event>)
    ensures Inv(Run(Start(NewWindow(resendAfter, maxPending), splitId, link), events))
  {
    var start := Start(NewWindow(resendAfter, maxPending), splitId, link);
    if events == [] {
      assert start.history.cachedAs.Keys == {} == start.client.messages.at.Keys;
    } else {
      hide Inv, Step;
      EveryRunKeepsInv(resendAfter, maxPending, splitId, link, events[..|events| - 1]);
      StepKeepsInv(Run(start, events[..|events| - 1]), events[|events| - 1]);
    }
  }

  // ---- what the invariant means ------------------------------------------------------------

  /**
   * The cache and the sequence-to-message map have the same keys, pending frames sit under their own index, the
   * window bound holds, and a cached sequence whose message is still pending was sent carrying that very frame.
   */
  lemma {:induction false} DictionariesAgree(s: State)
    requires Inv(s)
    ensures var c := s.client;
            && c.datagrams.at.Keys == c.messages.at.Keys
            && (forall k | k in c.window.pending.at :: c.window.pending.at[k].frame.messageIndex == k)
            && (c.window.maxPending >= 0 ==> |c.window.pending.keys| <= c.window.maxPending)
            && (!s.history.reused ==>
                  forall q | q in c.messages.at && c.messages.at[q] in c.window.pending.at ::
                    var d := Get(s.history.cachedAs, q, 0);
                    && d < |s.history.sent| && d % M24 == q
                    && s.history.sent[d].frame == c.window.pending.at[c.messages.at[q]].frame
                    && (s.history.sent[d].wire.None? ==> s.history.sent[d].Datagram(q) == Ok(c.datagrams.at[q])))
  {
    hide SendCount, LastSerial;
    var c := s.client;
    forall k ensures k in c.datagrams.at <==> k in c.messages.at {
      assert k in c.datagrams.keys <==> k in c.datagrams.at;
    }
    forall k | k in c.window.pending.at ensures c.window.pending.at[k].frame.messageIndex == k {
      PendingEntryIndex(s, k);
    }
    forall q | !s.history.reused && q in c.messages.at && c.messages.at[q] in c.window.pending.at
      ensures var d := Get(s.history.cachedAs, q, 0);
              && d < |s.history.sent| && d % M24 == q
              && s.history.sent[d].frame == c.window.pending.at[c.messages.at[q]].frame
              && (s.history.sent[d].wire.None? ==> s.history.sent[d].Datagram(q) == Ok(c.datagrams.at[q]))
    {
      assert CacheEntryInv(s, q);
      assert PendingEntryInv(s.history, c.messages.at[q], c.window.pending.at[c.messages.at[q]], false);
    }
  }

  /** tracked = pending + retired + overwritten; so tracked = pending + retired exactly when nothing was overwritten. */
  lemma Conservation(s: State)
    requires Inv(s)
    ensures |s.history.tracked| == |s.client.window.pending.keys| + |s.history.retired|
       <==> s.history.overwritten == 0
    ensures !s.history.reused ==> s.history.overwritten == 0
    ensures |s.history.tracked| <= M24 && |s.history.sent| <= M24 ==> !s.history.reused
  {}

  /**
   * An index is about to be reused exactly when some live entry lies a full 2^24 indices back: the next message
   * index when a pending or cached frame does, the next sequence when a cached datagram does.
   */
  lemma {:induction false} ReuseIsAFullSpan(s: State)
    requires Inv(s) && !s.history.reused
    ensures var (c, h) := (s.client, s.history);
            && (c.window.nextMessageIndex in c.window.pending.at
                <==> exists k :: k in c.window.pending.at && |h.tracked| - LastSerial(|h.tracked|, k) == M24)
            && (Carries(c.messages.at, c.window.nextMessageIndex)
                <==> exists q :: q in c.messages.at && CacheEntryInv(s, q) && |h.tracked| - CarriedBy(s, q) == M24)
            && (c.sequence in c.messages.at
                <==> exists q :: q in c.messages.at && CacheEntryInv(s, q) && |h.sent| - h.cachedAs[q] == M24)
  {
    hide SendCount, LastSerial, ConservationInv, LogInv;
    var (c, h) := (s.client, s.history);
    forall k | k in c.window.pending.at
      ensures |h.tracked| - LastSerial(|h.tracked|, k) == M24 <==> k == c.window.nextMessageIndex
    {
      assert PendingEntryInv(h, k, c.window.pending.at[k], false);
      FullSpan(|h.tracked|, k);
    }
    forall q | q in c.messages.at
      ensures CacheEntryInv(s, q)
      ensures |h.tracked| - CarriedBy(s, q) == M24 <==> c.messages.at[q] == c.window.nextMessageIndex
      ensures |h.sent| - h.cachedAs[q] == M24 <==> q == c.sequence
    {
      assert CacheEntryInv(s, q);
      FullSpan(|h.tracked|, c.messages.at[q]);
      LastSerialUnique(|h.sent|, h.cachedAs[q]);
      FullSpan(|h.sent|, q);
    }
  }

  lemma FullSpan(total: nat, k: int)
    requires 0 <= k < M24
    ensures total - LastSerial(total, k) == M24 <==> k == total % M24
  {
    LastSerialIs(total, k);
  }

  lemma ForgetEldest(s: State)
    requires s.client.datagrams.keys == s.client.messages.keys && s.client.datagrams.keys != []
    ensures var s' := Forget(s, s.client.datagrams.keys[0]);
            s'.client.datagrams.keys == s'.client.messages.keys == s.client.datagrams.keys[1..]
  {}

  /** Eviction keeps the newest 4096 cached datagrams, in order, and drops the older ones. */
  lemma {:induction false} EvictKeepsNewest(s: State)
    requires s.client.datagrams.keys == s.client.messages.keys
    ensures var (before, after) := (s.client.datagrams.keys, Evict(s).client.datagrams.keys);
            && |after| == (if |before| <= 4096 then |before| else 4096)
            && after == before[|before| - |after|..]
            && Evict(s).client.messages.keys == after
    decreases |s.client.datagrams.keys|
  {
    hide Forget;
    var keys := s.client.datagrams.keys;
    if |keys| <= CACHE_LIMIT {
      assert keys[0..] == keys;
    } else {
      ForgetEldest(s);
      EvictKeepsNewest(Forget(s, keys[0]));
      var after := Evict(s).client.datagrams.keys;
      assert keys[1..][|keys| - 1 - |after|..] == keys[|keys| - |after|..];
    }
  }

  /**
   * Whatever the clock does, a tracked frame is sent at most three times, each time unchanged and under a sequence
   * number of its own: the d-th datagram consumes d modulo 2^24.
   */
  lemma {:induction false} BoundedRetransmission(resendAfter: real, maxPending: int, splitId: int,
                                                 link: nat -> Option<Fault>, events: seq<Event>, n: nat)
    ensures var h := Run(Start(NewWindow(resendAfter, maxPending), splitId, link), events).history;
            && SendCount(h.sent, n) <= 3
            && (forall d | 0 <= d < |h.sent| && h.sent[d].serial == Some(n) ::
                  n < |h.tracked| && h.sent[d].frame == h.tracked[n] && h.sent[d].frame.messageIndex == n % M24)
            && |h.sequences| == |h.sent|
            && (forall d | 0 <= d < |h.sent| :: h.sequences[d] == d % M24)
            && forall d1, d2 | 0 <= d1 < d2 < |h.sent| && h.sent[d1].serial == h.sent[d2].serial == Some(n) ::
                 d2 - d1 < M24 ==> h.sequences[d1] != h.sequences[d2]
  {
    hide Run, PendingInv, CacheInv, FreshInv, ConservationInv, SendCount;
    EveryRunKeepsInv(resendAfter, maxPending, splitId, link, events);
  }

  ghost predicate Names(s: State, sequences: seq<int>, k: int) {
    exists q :: q in sequences && q in s.client.messages.at && s.client.messages.at[q] % M24 == k
  }

  ghost function Listed(sequences: seq<int>): set<int> {
    set q | q in sequences
  }

  /** Exactly what an ACK list does: it drops the cache entries it names and the pending frames they stand for. */
  lemma {:induction false} AckEffect(s: State, sequences: seq<int>)
    ensures var s' := AckAll(s, sequences);
            && Untouched(s, s')
            && s'.client.messages.at == s.client.messages.at - Listed(sequences)
            && s'.client.datagrams.at == s.client.datagrams.at - Listed(sequences)
            && s'.history.cachedAs == s.history.cachedAs - Listed(sequences)
            && forall k :: k in s'.client.window.pending.at
                      <==> k in s.client.window.pending.at && !Names(s, sequences, k)
    decreases |sequences|
  {
    hide AckOne, Names;
    if sequences == [] {
      assert forall k :: !Names(s, sequences, k) by { NobodyNamed(s); }
    } else {
      var (q, rest, s1) := (sequences[0], sequences[1..], AckOne(s, sequences[0]));
      AckOneEffect(s, q);
      AckEffect(s1, rest);
      assert sequences == [q] + rest;
      assert Listed(sequences) == {q} + Listed(rest);
      forall k ensures k in AckAll(s, sequences).client.window.pending.at
                  <==> k in s.client.window.pending.at && !Names(s, sequences, k) {
        NamesStep(s, q, rest, k);
      }
    }
  }

  lemma NobodyNamed(s: State)
    ensures forall k :: !Names(s, [], k)
  {}

  /** An acknowledgement changes no frame that stays pending, and nothing that was recorded. */
  ghost predicate Untouched(s: State, s': State) {
    && (forall k | k in s'.client.window.pending.at ::
          k in s.client.window.pending.at && s'.client.window.pending.at[k] == s.client.window.pending.at[k])
    && s'.history.tracked == s.history.tracked && s'.history.sent == s.history.sent
  }

  lemma AckOneEffect(s: State, q: int)
    ensures var s1 := AckOne(s, q);
            && Untouched(s, s1)
            && s1.client.messages.at == s.client.messages.at - {q}
            && s1.client.datagrams.at == s.client.datagrams.at - {q}
            && s1.history.cachedAs == s.history.cachedAs - {q}
            && forall k :: k in s1.client.window.pending.at
                      <==> k in s.client.window.pending.at
                           && !(q in s.client.messages.at && s.client.messages.at[q] % M24 == k)
  {
    hide LastSerial;
  }

  lemma NamesStep(s: State, q: int, rest: seq<int>, k: int)
    ensures Names(s, [q] + rest, k)
       <==> (q in s.client.messages.at && s.client.messages.at[q] % M24 == k) || Names(AckOne(s, q), rest, k)
  {
    var s1 := AckOne(s, q);
    assert forall r :: r in s1.client.messages.at <==> r in s.client.messages.at && r != q;
    if Names(s1, rest, k) {
      var r :| r in rest && r in s1.client.messages.at && s1.client.messages.at[r] % M24 == k;
      assert r in [q] + rest;
    }
    if q in s.client.messages.at && s.client.messages.at[q] % M24 == k {
      assert q in [q] + rest;
    }
  }

  /** Applying the same list a second time changes nothing. */
  lemma {:induction false} AckIsIdempotent(s: State, sequences: seq<int>)
    ensures AckAll(AckAll(s, sequences), sequences) == AckAll(s, sequences)
  {
    AckEffect(s, sequences);
    AckOfUnknown(AckAll(s, sequences), sequences);
  }

  lemma {:induction false} AckOfUnknown(s: State, sequences: seq<int>)
    requires forall q | q in sequences ::
               q !in s.client.messages.at && q !in s.client.datagrams.at && q !in s.history.cachedAs
    ensures AckAll(s, sequences) == s
    decreases |sequences|
  {
    if sequences != [] {
      var q := sequences[0];
      assert q in sequences;
      PopOfMissing(s.client.messages, q);
      PopOfMissing(s.client.datagrams, q);
      assert s.history.cachedAs - {q} == s.history.cachedAs;
      AckOfUnknown(s, sequences[1..]);
    }
  }

  lemma PopOfMissing<V>(d: Dict<int, V>, k: int)
    requires k !in d.at
    ensures Pop(d, k) == d
  {
    assert d.at - {k} == d.at;
  }

  /**
   * A pending frame leaves the window exactly when the list names a cached sequence of a datagram that carried it,
   * be it the original or any retransmission; and then it is recorded as retired.
   */
  lemma {:induction false} AckSoundness(s: State, sequences: seq<int>, k: int)
    requires Inv(s) && !s.history.reused && k in s.client.window.pending.at
    ensures k !in AckAll(s, sequences).client.window.pending.at
       <==> exists q :: q in sequences && q in s.client.messages.at && CacheEntryInv(s, q)
                        && CarriedBy(s, q) == LastSerial(|s.history.tracked|, k)
    ensures k !in AckAll(s, sequences).client.window.pending.at ==>
              LastSerial(|s.history.tracked|, k) in AckAll(s, sequences).history.retired
  {
    hide SendCount, LastSerial, FreshInv, CacheEntryInv, CarriedBy, ConservationInv, LogInv, IndexInv;
    AckEffect(s, sequences);
    assert PendingEntryInv(s.history, k, s.client.window.pending.at[k], false);
    AckRetires(s, sequences, k);
    forall q | q in s.client.messages.at
      ensures CacheEntryInv(s, q)
      ensures s.client.messages.at[q] % M24 == k <==> CarriedBy(s, q) == LastSerial(|s.history.tracked|, k)
    {
      CarriedMatches(s, q, k);
    }
  }

  lemma CarriedMatches(s: State, q: int, k: int)
    requires CacheInv(s) && FreshInv(s) && !s.history.reused && q in s.client.messages.at && 0 <= k < M24
    ensures CacheEntryInv(s, q)
    ensures s.client.messages.at[q] % M24 == k <==> CarriedBy(s, q) == LastSerial(|s.history.tracked|, k)
  {
    hide LastSerial;
    assert CacheEntryInv(s, q);
    LastSerialIs(|s.history.tracked|, k);
    LastSerialIs(|s.history.tracked|, s.client.messages.at[q]);
  }

  lemma {:induction false} AckRetires(s: State, sequences: seq<int>, k: int)
    requires k in s.client.window.pending.at && LastSerial(|s.history.tracked|, k) >= 0
    ensures var s' := AckAll(s, sequences);
            && s'.history.retired >= s.history.retired
            && (k !in s'.client.window.pending.at ==> LastSerial(|s.history.tracked|, k) in s'.history.retired)
    decreases |sequences|
  {
    hide LastSerial, AckOne;
    if sequences != [] {
      var s1 := AckOne(s, sequences[0]);
      AckOneRetires(s, sequences[0], k);
      if k in s1.client.window.pending.at {
        AckRetires(s1, sequences[1..], k);
      } else {
        RetiredStays(s1, sequences[1..]);
      }
    }
  }

  lemma AckOneRetires(s: State, q: int, k: int)
    requires k in s.client.window.pending.at && LastSerial(|s.history.tracked|, k) >= 0
    ensures var s1 := AckOne(s, q);
            && s1.history.retired >= s.history.retired && s1.history.tracked == s.history.tracked
            && (k !in s1.client.window.pending.at ==> LastSerial(|s.history.tracked|, k) in s1.history.retired)
  {
    hide LastSerial;
  }

  lemma {:induction false} RetiredStays(s: State, sequences: seq<int>)
    ensures AckAll(s, sequences).history.retired >= s.history.retired
    decreases |sequences|
  {
    if sequences != [] {
      RetiredStays(AckOne(s, sequences[0]), sequences[1..]);
    }
  }
}
