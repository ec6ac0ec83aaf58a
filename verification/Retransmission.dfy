/**
 * What the resend loop sends: in every reachable state, a pending frame goes out again exactly once, under its own
 * serial, if and only if it has waited long enough and was sent fewer than three times.
 */
module Retransmission {
  import opened Results
  import opened Bytes
  import opened OrderedDict
  import opened RaknetCodec
  import opened Reliability
  import opened Sender
  import opened SenderSafety
  import opened SenderWindow

  /** The datagrams for the entries that are not exhausted, in order. */
  function Resent(total: nat, ready: seq<Pending>): seq<Sent> {
    if ready == [] then [] else
    (if ready[0].attempts > 3 then [] else [Again(total, ready[0].frame)]) + Resent(total, ready[1..])
  }

  /** A frame on its own in a plain datagram, under the latest serial with its index. */
  function Again(total: nat, frame: Frame): Sent {
    var serial := LastSerial(total, frame.messageIndex);
    Sent(Some(if serial >= 0 then serial else 0), 0x80, frame, [], None)
  }

  lemma EmitAppends(s: State, sent: Sent)
    ensures Emit(s, sent).state.history.sent == s.history.sent + [sent]
    ensures Emit(s, sent).state.history.tracked == s.history.tracked
    ensures Emit(s, sent).state.client.window == s.client.window
  {
    hide Assemble;
  }

  lemma {:induction false} ResendAllSends(s: State, ready: seq<Pending>)
    requires ResendAll(s, ready).raised.None?
    ensures var s' := ResendAll(s, ready).state;
            && s'.history.sent == s.history.sent + Resent(|s.history.tracked|, ready)
            && s'.history.tracked == s.history.tracked && s'.client.window == s.client.window
    decreases |ready|
  {
    hide Emit;
    if ready != [] {
      if ready[0].attempts > MAX_ATTEMPTS {
        ResendAllSends(s, ready[1..]);
      } else {
        var sent := Sent(Some(SerialOf(s, ready[0].frame)), 0x80, ready[0].frame, [], None);
        EmitAppends(s, sent);
        ResendAllSends(Emit(s, sent).state, ready[1..]);
        assert sent == Again(|s.history.tracked|, ready[0].frame);
      }
    }
  }

  // ---- which entries are ready ------------------------------------------------------------------

  /** The entry was last sent at least the resend delay ago. */
  predicate Waited(p: Pending, now: real, resendAfter: real) {
    now - p.sentAt >= resendAfter
  }

  lemma {:induction false} DueFromCovers(d: Dict<int, Pending>, i: nat, now: real, resendAfter: real, k: int)
    requires i <= |d.keys| && k in d.keys[i..] && k in d.at && Waited(d.at[k], now, resendAfter)
    ensures Pending(d.at[k].frame, now, d.at[k].attempts + 1) in DueFrom(d, i, now, resendAfter)
    decreases |d.keys| - i
  {
    assert d.keys[i..] == [d.keys[i]] + d.keys[i + 1..];
    assert d.keys[i] in d.keys;
    if k != d.keys[i] { DueFromCovers(d, i + 1, now, resendAfter, k); }
  }

  /** The ready entries: those of the dictionary that waited, refreshed, each once. */
  lemma {:induction false} ReadyAre(s: State, now: real)
    requires Inv(s)
    ensures var (d, ready) := (s.client.window.pending, Due(s.client.window, now).ready);
            && Different(ready)
            && (forall p | p in ready ::
                  && p.frame.messageIndex in d.at
                  && Waited(d.at[p.frame.messageIndex], now, s.client.window.resendAfter)
                  && p == Pending(d.at[p.frame.messageIndex].frame, now, d.at[p.frame.messageIndex].attempts + 1))
            && (forall k | k in d.at && Waited(d.at[k], now, s.client.window.resendAfter) ::
                  Pending(d.at[k].frame, now, d.at[k].attempts + 1) in ready)
  {
    hide Inv, IndexInv, PendingInv, DueFrom, LogInv, CacheInv, FreshInv, ConservationInv, Different, RefreshAll;
    var w := s.client.window;
    var d := w.pending;
    InvParts(s);
    forall k | k in d.at ensures d.at[k].frame.messageIndex == k { PendingEntryIndex(s, k); }
    DueFromFacts(d, 0, now, w.resendAfter);
    forall p | p in DueFrom(d, 0, now, w.resendAfter)
      ensures var k := p.frame.messageIndex;
              && k in d.at && Waited(d.at[k], now, w.resendAfter)
              && p == Pending(d.at[k].frame, now, d.at[k].attempts + 1)
    {
      assert HandedOut(d, 0, now, w.resendAfter, p);
    }
    forall k | k in d.at && Waited(d.at[k], now, w.resendAfter)
      ensures Pending(d.at[k].frame, now, d.at[k].attempts + 1) in DueFrom(d, 0, now, w.resendAfter)
    {
      assert k in d.keys && d.keys[0..] == d.keys;
      DueFromCovers(d, 0, now, w.resendAfter, k);
    }
  }

  lemma RefreshedIs(d: Dict<int, Pending>, now: real, resendAfter: real, k: int)
    requires k in d.at
    ensures k in RefreshAll(d, now, resendAfter).at
    ensures RefreshAll(d, now, resendAfter).at[k]
         == if Waited(d.at[k], now, resendAfter) then Pending(d.at[k].frame, now, d.at[k].attempts + 1) else d.at[k]
  {}

  // ---- which datagrams ------------------------------------------------------------------------

  /** The datagram of an entry that is sent once more. */
  ghost predicate OfSome(ready: seq<Pending>, total: nat, sent: Sent) {
    exists p :: p in ready && p.attempts <= 3 && sent == Again(total, p.frame)
  }

  lemma {:induction false} ResentAre(total: nat, ready: seq<Pending>)
    ensures forall sent | sent in Resent(total, ready) :: OfSome(ready, total, sent)
    ensures forall p | p in ready && p.attempts <= 3 :: Again(total, p.frame) in Resent(total, ready)
    decreases |ready|
  {
    hide Again;
    if ready != [] {
      var (first, rest) := (ready[0], ready[1..]);
      ResentAre(total, rest);
      assert ready == [first] + rest;
      forall sent | sent in Resent(total, ready) ensures OfSome(ready, total, sent) {
        if sent in Resent(total, rest) {
          var p :| p in rest && p.attempts <= 3 && sent == Again(total, p.frame);
          assert p in ready;
        } else {
          assert first in ready;
        }
      }
    }
  }

  lemma SerialsApart(total: nat, a: Frame, b: Frame)
    requires 0 <= a.messageIndex < M24 && 0 <= b.messageIndex < M24
    requires LastSerial(total, a.messageIndex) >= 0 && LastSerial(total, b.messageIndex) >= 0
    requires Again(total, a).serial == Again(total, b).serial
    ensures a.messageIndex == b.messageIndex
  {
    hide LastSerial;
    LastSerialIs(total, a.messageIndex);
    LastSerialIs(total, b.messageIndex);
  }

  ghost predicate HaveSerials(total: nat, ready: seq<Pending>) {
    forall p | p in ready :: 0 <= p.frame.messageIndex < M24 && LastSerial(total, p.frame.messageIndex) >= 0
  }

  ghost predicate SerialsDiffer(sents: seq<Sent>) {
    forall i, j | 0 <= i < j < |sents| :: sents[i].serial != sents[j].serial
  }

  lemma DifferBehind(first: Sent, sents: seq<Sent>)
    requires SerialsDiffer(sents) && forall sent | sent in sents :: sent.serial != first.serial
    ensures SerialsDiffer([first] + sents)
  {}

  lemma FirstApart(total: nat, ready: seq<Pending>, p: Pending)
    requires ready != [] && p in ready[1..] && Different(ready) && HaveSerials(total, ready)
    ensures Again(total, p.frame).serial != Again(total, ready[0].frame).serial
  {
    hide LastSerial, Again;
    var k :| 0 <= k < |ready[1..]| && ready[1..][k] == p;
    assert ready[k + 1] == p && ready[0] in ready;
    if Again(total, p.frame).serial == Again(total, ready[0].frame).serial {
      SerialsApart(total, ready[0].frame, p.frame);
    }
  }

  /** Different entries go out under different serials. */
  lemma {:induction false} ResentApart(total: nat, ready: seq<Pending>)
    requires Different(ready) && HaveSerials(total, ready)
    ensures SerialsDiffer(Resent(total, ready))
    decreases |ready|
  {
    hide LastSerial, Again, SerialsDiffer;
    if ready == [] {
      NothingDiffers();
    } else {
      var (first, rest) := (ready[0], ready[1..]);
      assert ready == [first] + rest && first in ready && forall p | p in rest :: p in ready;
      ResentApart(total, rest);
      ResentAre(total, rest);
      assert [] + Resent(total, rest) == Resent(total, rest);
      forall sent | sent in Resent(total, rest) ensures sent.serial != Again(total, first.frame).serial {
        var p :| p in rest && p.attempts <= 3 && sent == Again(total, p.frame);
        FirstApart(total, ready, p);
      }
      DifferBehind(Again(total, first.frame), Resent(total, rest));
    }
  }

  lemma NothingDiffers()
    ensures SerialsDiffer([])
  {}

  // ---- the law ----------------------------------------------------------------------------------

  /** The d-th datagram of the event that leads from s to s' was sent for the frame with serial n. */
  ghost predicate SentFor(s: State, s': State, d: nat, n: int) {
    |s.history.sent| <= d < |s'.history.sent| && s'.history.sent[d].serial == Some(n)
  }

  /**
   * The frame under index k is sent again exactly if it waited long enough and is not exhausted; then once, as it is.
   */
  ghost predicate SentAgain(s: State, s': State, now: real, k: int) {
    var (w, n) := (s.client.window, LastSerial(|s.history.tracked|, k));
    k in w.pending.at && 0 <= n < |s.history.tracked|
    && var p := w.pending.at[k];
    && s.history.tracked[n] == p.frame
    && ((exists d: nat :: SentFor(s, s', d, n)) <==> now - p.sentAt >= w.resendAfter && p.attempts < 3)
    && (forall d: nat :: SentFor(s, s', d, n) ==> s'.history.sent[d] == Sent(Some(n), 0x80, p.frame, [], None))
    && (forall d: nat, e: nat :: SentFor(s, s', d, n) && SentFor(s, s', e, n) ==> d == e)
  }

  /** What waited long enough is stamped with the present time and counted once more, the rest is as it was. */
  ghost predicate Stamped(w: Window, w': Window, now: real) {
    && w'.pending.at.Keys == w.pending.at.Keys
    && forall k | k in w.pending.at ::
         w'.pending.at[k] == if now - w.pending.at[k].sentAt >= w.resendAfter
                             then Pending(w.pending.at[k].frame, now, w.pending.at[k].attempts + 1)
                             else w.pending.at[k]
  }

  lemma PendingHasSerial(s: State, k: int)
    requires Inv(s) && k in s.client.window.pending.at
    ensures var (p, n) := (s.client.window.pending.at[k], LastSerial(|s.history.tracked|, k));
            0 <= k < M24 && 0 <= n < |s.history.tracked| && s.history.tracked[n] == p.frame && p.frame.messageIndex == k
  {
    hide LastSerial, SendCount, CacheInv, FreshInv, LogInv, ConservationInv;
    PendingEntryIndex(s, k);
    assert PendingEntryInv(s.history, k, s.client.window.pending.at[k], false);
  }

  lemma {:induction false} WindowAfterPass(s: State, now: real)
    requires Raised(s, ResendEvent(now)).None?
    ensures Stamped(s.client.window, Step(s, ResendEvent(now)).client.window, now)
    ensures var (sent', ready) := (Step(s, ResendEvent(now)).history.sent, Due(s.client.window, now).ready);
            sent' == s.history.sent + Resent(|s.history.tracked|, ready)
  {
    hide ResendAll, DueFrom, RefreshAll;
    var w := s.client.window;
    var due := Due(w, now);
    ResendAllSends(s.(client := s.client.(window := due.window)), due.ready);
    forall k | k in w.pending.at
      ensures due.window.pending.at[k] == if now - w.pending.at[k].sentAt >= w.resendAfter
                                          then Pending(w.pending.at[k].frame, now, w.pending.at[k].attempts + 1)
                                          else w.pending.at[k]
    {
      RefreshedIs(w.pending, now, w.resendAfter, k);
    }
  }

  lemma ReadyHaveSerials(s: State, now: real)
    requires Inv(s)
    ensures HaveSerials(|s.history.tracked|, Due(s.client.window, now).ready)
  {
    hide Inv, LastSerial, Due;
    var ready := Due(s.client.window, now).ready;
    ReadyAre(s, now);
    forall p | p in ready
      ensures 0 <= p.frame.messageIndex < M24 && LastSerial(|s.history.tracked|, p.frame.messageIndex) >= 0
    {
      PendingHasSerial(s, p.frame.messageIndex);
    }
  }

  /** Which of the sent datagrams are for the frame under index k: the one for its entry, if it is ready. */
  lemma {:induction false} ResentForEntry(s: State, now: real, k: int, sent: Sent)
    requires Inv(s) && k in s.client.window.pending.at
    ensures var (w, total) := (s.client.window, |s.history.tracked|);
            var p := w.pending.at[k];
            && LastSerial(total, k) >= 0
            && (sent in Resent(total, Due(w, now).ready) && sent.serial == Some(LastSerial(total, k))
                <==> && sent == Sent(Some(LastSerial(total, k)), 0x80, p.frame, [], None)
                     && now - p.sentAt >= w.resendAfter && p.attempts < 3)
  {
    hide Inv, Due, Different, LastSerial;
    var (w, total) := (s.client.window, |s.history.tracked|);
    var (p, ready) := (w.pending.at[k], Due(w, now).ready);
    PendingHasSerial(s, k);
    ReadyAre(s, now);
    ReadyHaveSerials(s, now);
    ResentAre(total, ready);
    if sent in Resent(total, ready) && sent.serial == Some(LastSerial(total, k)) {
      assert OfSome(ready, total, sent);
      var q :| q in ready && q.attempts <= 3 && sent == Again(total, q.frame);
      SerialsApart(total, q.frame, p.frame);
      assert q.frame == p.frame;
    }
    if Waited(p, now, w.resendAfter) && p.attempts < 3 {
      var q := Pending(p.frame, now, p.attempts + 1);
      assert q in ready && Again(total, q.frame) == Sent(Some(LastSerial(total, k)), 0x80, p.frame, [], None);
    }
  }

  lemma {:induction false} SentForEntry(s: State, s': State, now: real, k: int)
    requires Inv(s) && k in s.client.window.pending.at
    requires s'.history.sent == s.history.sent + Resent(|s.history.tracked|, Due(s.client.window, now).ready)
    ensures SentAgain(s, s', now, k)
  {
    hide Inv, Due, LastSerial, Resent, OfSome, Different;
    var (w, total, before) := (s.client.window, |s.history.tracked|, |s.history.sent|);
    var (p, n, again) := (w.pending.at[k], LastSerial(total, k), Resent(total, Due(w, now).ready));
    PendingHasSerial(s, k);
    ReadyAre(s, now);
    ReadyHaveSerials(s, now);
    ResentApart(total, Due(w, now).ready);
    ResentForEntry(s, now, k, Sent(Some(n), 0x80, p.frame, [], None));
    forall d: nat | SentFor(s, s', d, n)
      ensures s'.history.sent[d] == Sent(Some(n), 0x80, p.frame, [], None)
      ensures now - p.sentAt >= w.resendAfter && p.attempts < 3
    {
      assert s'.history.sent[d] == again[d - before];
      ResentForEntry(s, now, k, again[d - before]);
    }
    if now - p.sentAt >= w.resendAfter && p.attempts < 3 {
      var i :| 0 <= i < |again| && again[i] == Sent(Some(n), 0x80, p.frame, [], None);
      assert SentFor(s, s', before + i, n);
    }
    forall d: nat, e: nat | SentFor(s, s', d, n) && SentFor(s, s', e, n) ensures d == e {
      assert again[d - before].serial == again[e - before].serial;
    }
  }

  /** In every reachable state, a resend pass that raises nothing sends again what is due, once, and stamps it. */
  lemma {:induction false} ResendsExactly(start: State, events: seq<Event>, now: real)
    requires Initial(start) && Raised(Run(start, events), ResendEvent(now)).None?
    ensures var (s, s') := (Run(start, events), Run(start, events + [ResendEvent(now)]));
            && s.history.sent <= s'.history.sent && Stamped(s.client.window, s'.client.window, now)
            && forall k | k in s.client.window.pending.at :: SentAgain(s, s', now, k)
  {
    hide Run, Step, Inv, Due, Initial, Raised, SentAgain, Stamped, Resent;
    var s := Run(start, events);
    RunOneMore(start, events, ResendEvent(now));
    ReachedInv(start, events);
    WindowAfterPass(s, now);
    forall k | k in s.client.window.pending.at ensures SentAgain(s, Step(s, ResendEvent(now)), now, k) {
      SentForEntry(s, Step(s, ResendEvent(now)), now, k);
    }
  }

  /** The d-th datagram is for a frame that is pending in s. */
  ghost predicate ForPending(s: State, s': State, d: nat) {
    exists k :: k in s.client.window.pending.at && SentFor(s, s', d, LastSerial(|s.history.tracked|, k))
  }

  lemma {:induction false} NothingElse(s: State, s': State, now: real, d: nat)
    requires Inv(s) && |s.history.sent| <= d < |s'.history.sent|
    requires s'.history.sent == s.history.sent + Resent(|s.history.tracked|, Due(s.client.window, now).ready)
    ensures ForPending(s, s', d)
  {
    hide Inv, Due, LastSerial, Resent;
    var ready := Due(s.client.window, now).ready;
    var again := Resent(|s.history.tracked|, ready);
    ReadyAre(s, now);
    ReadyHaveSerials(s, now);
    ResentAre(|s.history.tracked|, ready);
    assert s'.history.sent[d] == again[d - |s.history.sent|];
    assert OfSome(ready, |s.history.tracked|, again[d - |s.history.sent|]);
    var p :| p in ready && again[d - |s.history.sent|] == Again(|s.history.tracked|, p.frame);
    var n := LastSerial(|s.history.tracked|, p.frame.messageIndex);
    assert n >= 0 && Again(|s.history.tracked|, p.frame) == Sent(Some(n), 0x80, p.frame, [], None);
    assert s'.history.sent[d].serial == Some(n);
    assert SentFor(s, s', d, LastSerial(|s.history.tracked|, p.frame.messageIndex));
  }

  /** And nothing else: every datagram of the pass is for a pending frame. */
  lemma {:induction false} ResendsNothingElse(start: State, events: seq<Event>, now: real)
    requires Initial(start) && Raised(Run(start, events), ResendEvent(now)).None?
    ensures var (s, s') := (Run(start, events), Run(start, events + [ResendEvent(now)]));
            forall d: nat | |s.history.sent| <= d < |s'.history.sent| :: ForPending(s, s', d)
  {
    hide Run, Step, Inv, Due, Initial, Raised, Resent, ForPending;
    var s := Run(start, events);
    RunOneMore(start, events, ResendEvent(now));
    ReachedInv(start, events);
    WindowAfterPass(s, now);
    var s' := Step(s, ResendEvent(now));
    forall d: nat | |s.history.sent| <= d < |s'.history.sent| ensures ForPending(s, s', d) {
      NothingElse(s, s', now, d);
    }
  }
}
