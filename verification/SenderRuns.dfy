/**
 * Two families of concrete runs: any number of small messages with their acknowledgements, and one message that is
 * never acknowledged and gets filed over after 2^24 others.
 */
module SenderRuns {
  import opened AcknowledgedRuns
  import opened Results
  import opened Bytes
  import opened OrderedDict
  import opened RaknetCodec
  import opened Reliability
  import opened Sender
  import opened SenderSafety
  import opened SenderWindow

  const HELLO := SendReliableEvent([], 0, false, true, 1024, 0.0)

  /** An acknowledgement of one sequence. */
  function Answer(sequence: int): Event {
    var ack := BuildAck(sequence);
    AckEvent(if ack.Ok? then ack.value else [])
  }

  /** The next small message can be filed, sent and cached, without reusing anything. */
  ghost predicate Roomy(s: State) {
    && |s.client.window.pending.keys| < s.client.window.maxPending
    && |s.client.datagrams.keys| < CACHE_LIMIT
    && forall d: nat :: s.history.link(d).None?
  }

  function Hello(s: State): Frame {
    Whole([], true, false, s.client.window.nextMessageIndex, 0, 0)
  }

  lemma HelloEncodes(flag: Byte, sequence: nat, frame: Frame)
    requires frame.payload == [] && frame.mode == None && frame.splitCount == 0
    ensures Assemble(flag, sequence, [frame] + []).Ok?
  {
    hide Le, Be;
    assert ([frame] + [])[1..] == [];
    assert Encode(frame).Ok?;
    assert EncodeAll([]) == Ok([]);
    assert EncodeAll([frame] + []).Ok?;
  }

  lemma HelloIsFiled(s: State)
    requires Roomy(s)
    ensures var t := Track(s.client.window, [], false, 0, 0.0);
            && t.Ok? && t.value.frames == [Hello(s)]
            && t.value.window == Admit(s.client.window, Hello(s), 0.0)
  {
    hide Set;
    var (w, f) := (s.client.window, Hello(s));
    assert [f][1..] == [];
    assert AdmitAll(w, [f], 0.0) == AdmitAll(Admit(w, f, 0.0), [], 0.0) == Admit(w, f, 0.0);
    assert Track(w, [], false, 0, 0.0).value.frames == [f];
  }

  lemma HelloIsEmitted(s: State, serial: nat, frame: Frame)
    requires Numbered(s) && frame.payload == [] && frame.mode == None && frame.splitCount == 0
    requires forall d: nat :: s.history.link(d).None?
    ensures var sent := Sent(Some(serial), 0x80, frame, [], None);
            && Emit(s, sent).raised.None?
            && EmitAll(s, serial, [frame]) == Emit(s, sent)
            && |Emit(s, sent).state.client.datagrams.keys| <= |s.client.datagrams.keys| + 1
            && Emit(s, sent).state.client.messages.at
               == s.client.messages.at[s.client.sequence := frame.messageIndex]
            && Emit(s, sent).state.history.link == s.history.link
  {
    hide Assemble;
    HelloEncodes(0x80, s.client.sequence, frame);
    var sent := Sent(Some(serial), 0x80, frame, [], None);
    assert [frame][1..] == [];
    var o := Emit(s, sent);
    assert EmitAll(s, serial, [frame]) == EmitAll(o.state, serial + 1, []);
  }

  /** What sending one small message does: filed, sent, cached, nothing evicted. */
  lemma {:induction false} HelloGoesOut(s: State)
    requires Roomy(s) && Numbered(s)
    ensures var filed := FileFrame(s, Hello(s), 0.0);
            && Step(s, HELLO) == Emit(filed, Sent(Some(|s.history.tracked|), 0x80, Hello(s), [], None)).state
            && Filing(s, HELLO) == 1 && Raised(s, HELLO).None?
  {
    hide Emit, Track, EmitAll, Set;
    HelloIsFiled(s);
    var f := Hello(s);
    var filed := FileFrame(s, f, 0.0);
    assert [f][1..] == [];
    assert FileAll(s, [f], 0.0) == FileAll(filed, [], 0.0) == filed;
    HelloIsEmitted(filed, |s.history.tracked|, f);
  }

  /** Exactly these indices are live, each as a message index and as the sequence that carried it. */
  ghost predicate Chatting(s: State, live: set<int>, total: nat) {
    && PendingIndices(s) == live && LiveSequences(s) == live
    && (forall q | q in s.client.messages.at :: s.client.messages.at[q] == q)
    && |s.history.tracked| == |s.history.sent| == total
    && s.client.window.maxPending == 4096
    && forall d: nat :: s.history.link(d).None?
  }

  lemma ChattingLive(s: State, live: set<int>, total: nat)
    requires Chatting(s, live, total)
    ensures LiveIndices(s) == live
  {}

  lemma ChattingIsRoomy(s: State, live: set<int>, total: nat)
    requires Inv(s) && Chatting(s, live, total) && |live| <= 1
    ensures Roomy(s) && Numbered(s)
    ensures s.client.window.nextMessageIndex == s.client.sequence == total % M24
  {
    hide PendingInv, LogInv, FreshInv, ConservationInv, CacheEntryInv, LastSerial, LiveIndices;
    InvNumbers(s);
    KeysOfDict(s.client.window.pending);
    KeysOfDict(s.client.messages);
    KeysOfDict(s.client.datagrams);
  }

  lemma HelloIsHeard(s: State, live: set<int>, total: nat)
    requires Inv(s) && Chatting(s, live, total) && |live| <= 1 && total % M24 !in live
    ensures Chatting(Step(s, HELLO), live + {total % M24}, total + 1)
    ensures Step(s, HELLO).history.reused == s.history.reused
  {
    hide Inv, Step, FileFrame, LiveIndices, Emit, Roomy, Chatting;
    ChattingIsRoomy(s, live, total);
    ChattingCounts(s, live, total);
    HelloGoesOut(s);
    HelloIsFiledLive(s, live, total);
    HelloIsCached(FileFrame(s, Hello(s), 0.0), live, total, Hello(s));
  }

  lemma ChattingCounts(s: State, live: set<int>, total: nat)
    requires Chatting(s, live, total)
    ensures |s.history.tracked| == total && forall d: nat :: s.history.link(d).None?
  {}

  /** Between filing and sending: the index is pending already, its sequence not yet cached. */
  ghost predicate Speaking(s: State, live: set<int>, total: nat) {
    && PendingIndices(s) == live + {total % M24} && LiveSequences(s) == live
    && (forall q | q in s.client.messages.at :: s.client.messages.at[q] == q)
    && |s.history.tracked| == total + 1 && |s.history.sent| == total
    && s.client.window.maxPending == 4096 && s.client.sequence == total % M24
    && forall d: nat :: s.history.link(d).None?
  }

  lemma HelloIsFiledLive(s: State, live: set<int>, total: nat)
    requires Chatting(s, live, total) && total % M24 !in live
    requires s.client.window.nextMessageIndex == s.client.sequence == total % M24
    ensures var filed := FileFrame(s, Hello(s), 0.0);
            && Speaking(filed, live, total) && filed.history.reused == s.history.reused
            && (Numbered(s) ==> Numbered(filed))
  {
    hide FileFrame, LiveIndices;
    ChattingLive(s, live, total);
    FileFrameFacts(s, Hello(s), 0.0);
    HelloLeaves(s, Hello(s));
  }

  lemma HelloIsCached(s: State, live: set<int>, total: nat, f: Frame)
    requires Speaking(s, live, total) && Numbered(s) && total % M24 !in live
    requires f.payload == [] && f.mode == None && f.splitCount == 0 && f.messageIndex == total % M24
    ensures var s' := Emit(s, Sent(Some(total), 0x80, f, [], None)).state;
            Chatting(s', live + {total % M24}, total + 1) && s'.history.reused == s.history.reused
  {
    hide Emit;
    HelloIsEmitted(s, total, f);
    EmitFacts(s, Sent(Some(total), 0x80, f, [], None));
  }

  lemma HelloLeaves(s: State, f: Frame)
    ensures var s' := FileFrame(s, f, 0.0);
            && s'.history.link == s.history.link && s'.history.sent == s.history.sent
            && s'.client.messages == s.client.messages && s'.client.sequence == s.client.sequence
            && s'.client.window.maxPending == s.client.window.maxPending
  {}

  /** The answer takes out the newest entry and nothing else. */
  lemma AnswerIsHeard(s: State, live: set<int>, total: nat, k: int)
    requires Chatting(s, live + {k}, total) && k !in live && 0 <= k < M24 && IndexRange(live)
    ensures Chatting(Step(s, Answer(k)), live, total)
    ensures Step(s, Answer(k)).history.reused == s.history.reused
  {
    hide ParseAck, BuildAck, AckOne;
    ParseInvertsBuildAck(k);
    assert [k][1..] == [];
    assert AckAll(s, [k]) == AckAll(AckOne(s, k), []) == AckOne(s, k);
    AnswerRemoves(s, live, total, k);
  }

  lemma AnswerRemoves(s: State, live: set<int>, total: nat, k: int)
    requires Chatting(s, live + {k}, total) && k !in live && 0 <= k < M24 && IndexRange(live)
    ensures Chatting(AckOne(s, k), live, total)
    ensures AckOne(s, k).history.reused == s.history.reused
  {
    hide AckOne;
    AckOneEffect(s, k);
    AckOneKeepsRecord(s, k);
    AckOneKeepsLink(s, k);
    assert k in LiveSequences(s) && s.client.messages.at[k] % M24 == k;
    var s' := AckOne(s, k);
    forall j ensures j in PendingIndices(s') <==> j in live {
      assert j in PendingIndices(s) <==> j in live + {k};
    }
  }

  lemma AckOneKeepsLink(s: State, q: int)
    ensures AckOne(s, q).history.link == s.history.link
    ensures AckOne(s, q).client.window.maxPending == s.client.window.maxPending
  {
    hide LastSerial, Pop;
  }

  /** After the first events, n exchanges of a message and its acknowledgement. */
  function Chatter(first: seq<Event>, total: nat, n: nat): seq<Event> {
    if n == 0 then first else Chatter(first, total, n - 1) + [HELLO, Answer((total + n - 1) % M24)]
  }

  function Quiet(): State {
    Start(NewWindow(0.75, 4096), 0, _ => None)
  }

  lemma RunTwoMore(start: State, events: seq<Event>, a: Event, b: Event)
    ensures Run(start, events + [a, b]) == Step(Step(Run(start, events), a), b)
  {
    hide Step;
    assert (events + [a, b])[..|events| + 1] == events + [a] && (events + [a])[..|events|] == events;
  }

  /** The index of the i-th exchange. */
  function ComesUp(total: nat, i: nat): int {
    (total + i) % M24
  }

  /** Any number of exchanges leaves behind what was there before them, as long as its index does not come up. */
  lemma {:induction false} ChatterLeaves(first: seq<Event>, live: set<int>, total: nat, n: nat)
    requires Chatting(Run(Quiet(), first), live, total) && !Run(Quiet(), first).history.reused
    requires |live| <= 1 && IndexRange(live)
    requires forall i | 0 <= i < n :: ComesUp(total, i) !in live
    ensures var s := Run(Quiet(), Chatter(first, total, n));
            Chatting(s, live, total + n) && !s.history.reused
    decreases n
  {
    hide Run, Chatting, Step, Inv, Answer, IndexRange;
    if n > 0 {
      var before := Chatter(first, total, n - 1);
      var (s, k) := (Run(Quiet(), before), ComesUp(total, n - 1));
      ChatterLeaves(first, live, total, n - 1);
      QuietIsInitial();
      ReachedInv(Quiet(), before);
      HelloIsHeard(s, live, total + n - 1);
      AnswerIsHeard(Step(s, HELLO), live, total + n, k);
      RunTwoMore(Quiet(), before, HELLO, Answer(k));
    }
  }

  lemma QuietIsInitial()
    ensures Initial(Quiet())
    ensures Run(Quiet(), []) == Quiet() && Chatting(Quiet(), {}, 0) && !Quiet().history.reused
  {}

  lemma AnswerSettles(s: State, total: nat)
    requires Chatting(s, {total % M24}, total + 1)
    ensures Settles(s, Answer(total % M24))
  {
    hide ParseAck, BuildAck;
    ParseInvertsBuildAck(total % M24);
    forall q | q in s.client.messages.at ensures q in [total % M24] {
      assert q in LiveSequences(s);
    }
  }

  lemma AnsweredTwice(start: State, events: seq<Event>, a: Event, b: Event)
    requires Answered(start, events) && |events| % 2 == 0
    requires Completes(Run(start, events), a) && Settles(Step(Run(start, events), a), b)
    ensures Answered(start, events + [a, b])
  {
    hide Run, Step, Completes, Settles;
    var (all, n) := (events + [a, b], |events|);
    assert all[..n] == events && all[..n + 1] == events + [a];
    RunOneMore(start, events, a);
    forall i | 0 <= i < |all| ensures AnsweredAt(start, all, i) {
      if i < n {
        assert AnsweredAt(start, events, i);
        AnsweredEarlier(start, all, n, i);
      }
    }
  }

  /** Any number of exchanges is a run that is acknowledged often enough. */
  lemma {:induction false} ChatterIsAnswered(n: nat)
    ensures Answered(Quiet(), Chatter([], 0, n)) && |Chatter([], 0, n)| == 2 * n
    decreases n
  {
    hide Run, Chatting, Perform, Step, Inv, Answer, Quiet, Answered, Settles, Roomy, Filing, Emit, FileFrame, Raised;
    QuietIsInitial();
    if n == 0 {
      NothingToAnswer(Quiet());
    } else {
      var (before, k) := (Chatter([], 0, n - 1), ComesUp(0, n - 1));
      var s := Run(Quiet(), before);
      ChatterIsAnswered(n - 1);
      ChatterLeaves([], {}, 0, n - 1);
      ReachedInv(Quiet(), before);
      ChattingIsRoomy(s, {}, n - 1);
      HelloGoesOut(s);
      HelloIsHeard(s, {}, n - 1);
      assert {} + {k} == {k};
      AnswerSettles(Step(s, HELLO), n - 1);
      AnsweredTwice(Quiet(), before, HELLO, Answer(k));
    }
  }

  lemma NothingToAnswer(start: State)
    ensures Answered(start, [])
  {}

  /** So it is safe, although its counters wrap every 2^24 exchanges. */
  lemma {:induction false} RepeatedExchangeIsSafe(n: nat)
    ensures var events := Chatter([], 0, n);
            SafeRun(Quiet(), events) && |Run(Quiet(), events).history.tracked| == n
  {
    hide Run, SafeRun, Initial, Answered;
    QuietIsInitial();
    ChatterLeaves([], {}, 0, n);
    ChatterIsAnswered(n);
    AnsweredRunIsSafe(Quiet(), Chatter([], 0, n));
  }

  /** A message that is never acknowledged is filed over after 2^24 others: its frame is neither pending nor retired. */
  lemma {:induction false} UnansweredRunOverwrites() returns (events: seq<Event>)
    ensures var s := Run(Quiet(), events);
            && s.history.overwritten > 0
            && |s.history.tracked| != |s.client.window.pending.keys| + |s.history.retired|
            && |s.history.tracked| == M24 + 1
  {
    hide Run, SafeRun, SparingRun, Chatting, Step, Inv, Quiet;
    QuietIsInitial();
    var first := [HELLO];
    ReachedInv(Quiet(), []);
    HelloIsHeard(Quiet(), {}, 0);
    assert Run(Quiet(), first) == Step(Quiet(), HELLO) by {
      RunOneMore(Quiet(), [], HELLO);
      assert [] + first == first;
    }
    ChatterLeaves(first, {0}, 1, M24 - 1);
    var before := Chatter(first, 1, M24 - 1);
    events := before + [HELLO];
    RunOneMore(Quiet(), before, HELLO);
    ReachedInv(Quiet(), before);
    ReachedInv(Quiet(), events);
    LastHelloOverwrites(Run(Quiet(), before));
    Conservation(Run(Quiet(), events));
  }

  lemma LastHelloOverwrites(s: State)
    requires Inv(s) && Chatting(s, {0}, M24)
    ensures Step(s, HELLO).history.overwritten > 0
    ensures |Step(s, HELLO).history.tracked| == M24 + 1
  {
    hide Inv, Step, Filed, Safe, Emitted, Planned;
    ChattingIsRoomy(s, {0}, M24);
    HelloGoesOut(s);
    StepFiles(s, HELLO);
    StepIsSafe(s, HELLO);
    FullSpan(M24, 0);
    assert 0 in PendingIndices(s);
  }
}
