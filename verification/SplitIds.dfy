/**
 * Split ids over a sender's run: each split message takes the next one, so that two split messages of a run with
 * fewer than 2^16 others from the first to the second never share one, and come out of any mix of their fragments.
 */
module SplitIds {
  import opened Results
  import opened Bytes
  import opened OrderedDict
  import opened RaknetCodec
  import opened Reliability
  import opened Sender
  import opened SenderWindow
  import opened SplitReassembly
  import opened Delivery
  import opened Conversation
  import opened Interleaving

  /** The event cuts its message into fragments and files them. */
  predicate Cuts(s: State, e: Event) {
    && e.SendReliableEvent? && e.track && |e.payload| > e.maxPayload
    && Splitting(s, e).Ok?
  }

  lemma EmitKeepsId(s: State, sent: Sent)
    ensures Emit(s, sent).state.client.splitId == s.client.splitId
  {
    hide Assemble;
  }

  lemma {:induction false} EmitAllKeepsId(s: State, serial: nat, frames: seq<Frame>)
    ensures EmitAll(s, serial, frames).state.client.splitId == s.client.splitId
    decreases |frames|
  {
    hide Emit;
    if frames != [] {
      var sent := Sent(Some(serial), 0x80, frames[0], [], None);
      EmitKeepsId(s, sent);
      EmitAllKeepsId(Emit(s, sent).state, serial + 1, frames[1..]);
    }
  }

  lemma {:induction false} ResendAllKeepsId(s: State, ready: seq<Pending>)
    ensures ResendAll(s, ready).state.client.splitId == s.client.splitId
    decreases |ready|
  {
    hide Emit, SerialOf;
    if ready != [] {
      var sent := Sent(Some(SerialOf(s, ready[0].frame)), 0x80, ready[0].frame, [], None);
      EmitKeepsId(s, sent);
      ResendAllKeepsId(Emit(s, sent).state, ready[1..]);
      ResendAllKeepsId(s, ready[1..]);
    }
  }

  lemma {:induction false} EvictKeepsId(s: State)
    ensures Evict(s).client.splitId == s.client.splitId
    decreases |s.client.datagrams.keys|
  {
    if |s.client.datagrams.keys| > CACHE_LIMIT { EvictKeepsId(Forget(s, s.client.datagrams.keys[0])); }
  }

  lemma {:induction false} AckAllKeepsId(s: State, list: seq<int>)
    ensures AckAll(s, list).client.splitId == s.client.splitId
    decreases |list|
  {
    hide LastSerial, Pop;
    if list != [] { AckAllKeepsId(AckOne(s, list[0]), list[1..]); }
  }

  lemma {:induction false} SendReliableTakesId(s: State, e: Event)
    requires e.SendReliableEvent?
    ensures Step(s, e).client.splitId == if Cuts(s, e) then (s.client.splitId + 1) % 0x1_0000 else s.client.splitId
  {
    hide Emit, EmitAll, Evict, Track, TrackSplit, FileAll;
    var c := s.client;
    if !e.track {
      var ping := Whole(e.payload, true, e.ordered, c.sequence % M24, c.sequence % M24, e.channel);
      EmitKeepsId(s, Sent(None, 0x80, ping, [], None));
      EvictKeepsId(Emit(s, Sent(None, 0x80, ping, [], None)).state);
    } else {
      var split := |e.payload| > e.maxPayload;
      var t := if split then TrackSplit(c.window, e.payload, e.maxPayload, e.ordered, e.channel, c.splitId, e.now)
               else Track(c.window, e.payload, e.ordered, e.channel, e.now);
      if t.Ok? {
        FilingTouchesTheWindowOnly(s, t.value.frames, e.now);
        var filed := FileTracked(s, t.value, e.now);
        var numbered := if split then filed.(client := filed.client.(splitId := (c.splitId + 1) % 0x1_0000)) else filed;
        EmitAllKeepsId(numbered, |s.history.tracked|, t.value.frames);
        EvictKeepsId(EmitAll(numbered, |s.history.tracked|, t.value.frames).state);
      }
    }
  }

  /** An event moves on to the next split id exactly if it cuts a message, whatever raises then. */
  lemma {:induction false} StepTakesId(s: State, e: Event)
    ensures Step(s, e).client.splitId == if Cuts(s, e) then (s.client.splitId + 1) % 0x1_0000 else s.client.splitId
  {
    hide Emit, EmitAll, Evict, Track, FileAll, ResendAll, AckAll, ParseAck, SendReliable, Splitting;
    match e {
      case SendReliableEvent(_, _, _, _, _, _) => SendReliableTakesId(s, e);
      case SendUnreliableEvent(payload, flag) =>
        EmitKeepsId(s, Sent(None, flag / 128 * 128 + flag % 16, Whole(payload, false, false, 0, 0, 0), [], None));
      case SendCoalescedEvent(payload, ordered, flag, tail, wire, now) =>
        var t := Track(s.client.window, payload, ordered, 0, now);
        if t.Ok? {
          FilingTouchesTheWindowOnly(s, t.value.frames, now);
          TrackGivesOne(s.client.window, payload, ordered, 0, now);
          EmitKeepsId(FileTracked(s, t.value, now), Sent(Some(|s.history.tracked|), flag, t.value.frames[0], tail,
                                                         wire));
        }
      case AckEvent(plaintext) => if ParseAck(plaintext).Ok? { AckAllKeepsId(s, ParseAck(plaintext).value); }
      case ResendEvent(now) =>
        var due := Due(s.client.window, now);
        ResendAllKeepsId(s.(client := s.client.(window := due.window)), due.ready);
    }
  }

  /** How many messages the run cut. */
  function CutsOf(start: State, events: seq<Event>): nat
    decreases |events|
  {
    if events == [] then 0 else
    var n := |events| - 1;
    CutsOf(start, events[..n]) + if Cuts(Run(start, events[..n]), events[n]) then 1 else 0
  }

  lemma NextId(id: int, first: int, n: nat)
    requires id % 0x1_0000 == (first + n) % 0x1_0000
    ensures (id + 1) % 0x1_0000 % 0x1_0000 == (first + (n + 1)) % 0x1_0000
  {}

  /** The split id is where it started plus the number of messages cut so far, modulo 2^16. */
  lemma {:induction false} IdsCount(start: State, events: seq<Event>)
    ensures Run(start, events).client.splitId % 0x1_0000 == (start.client.splitId + CutsOf(start, events)) % 0x1_0000
    decreases |events|
  {
    hide Step, Cuts;
    if events != [] {
      var n := |events| - 1;
      var s := Run(start, events[..n]);
      IdsCount(start, events[..n]);
      StepTakesId(s, events[n]);
      NextId(s.client.splitId, start.client.splitId, CutsOf(start, events[..n]));
    }
  }

  lemma {:induction false} CutsGrow(start: State, events: seq<Event>, i: nat)
    requires i <= |events|
    ensures CutsOf(start, events[..i]) <= CutsOf(start, events)
    ensures i < |events| && Cuts(Run(start, events[..i]), events[i]) ==>
              CutsOf(start, events[..i]) < CutsOf(start, events)
    decreases |events|
  {
    hide Cuts, Run;
    if i == |events| {
      assert events[..i] == events;
    } else {
      var n := |events| - 1;
      assert events[..n][..i] == events[..i];
      CutsGrow(start, events[..n], i);
      if i < n { assert events[..n][i] == events[i]; }
    }
  }

  lemma SmallDifference(first: int, a: nat, b: nat)
    requires a < b < a + 0x1_0000
    ensures (first + a) % 0x1_0000 != (first + b) % 0x1_0000
  {}

  /** What the i-th event gives to track_split. */
  function SendingAt(start: State, events: seq<Event>, i: nat): Sending
    requires i < |events| && events[i].SendReliableEvent?
  {
    var (s, e) := (Run(start, events[..i]), events[i]);
    Sending(s.client.window, e.payload, e.maxPayload, e.ordered, e.channel, s.client.splitId, e.now)
  }

  lemma CutsSplits(start: State, events: seq<Event>, i: nat)
    requires i < |events| && Cuts(Run(start, events[..i]), events[i])
    ensures SendingAt(start, events, i).Splits()
  {
    hide Run, AdmitAll, Track;
  }

  /** Two split messages of a run, fewer than 2^16 apart, have different split ids. */
  lemma {:induction false} IdsDiffer(start: State, events: seq<Event>, i: nat, j: nat)
    requires i < j < |events|
    requires Cuts(Run(start, events[..i]), events[i]) && Cuts(Run(start, events[..j]), events[j])
    requires CutsOf(start, events[..j]) - CutsOf(start, events[..i]) < 0x1_0000
    ensures SendingAt(start, events, i).splitId % 0x1_0000 != SendingAt(start, events, j).splitId % 0x1_0000
  {
    hide Run, Cuts, CutsOf;
    IdsCount(start, events[..i]);
    IdsCount(start, events[..j]);
    assert events[..j][..i] == events[..i] && events[..j][i] == events[i];
    CutsGrow(start, events[..j], i);
    SmallDifference(start.client.splitId, CutsOf(start, events[..i]), CutsOf(start, events[..j]));
  }

  /**
   * So both come out whole at a reassembler within its limits, whatever way their fragments are mixed: each at the push
   * that brings its last missing one.
   */
  lemma {:induction false} TwoOfARun(start: State, events: seq<Event>, i: nat, j: nat, s: Groups, stream: seq<Frame>)
    returns (a: nat, b: nat)
    requires i < j < |events|
    requires Cuts(Run(start, events[..i]), events[i]) && Cuts(Run(start, events[..j]), events[j])
    requires CutsOf(start, events[..j]) - CutsOf(start, events[..i]) < 0x1_0000
    requires var (x, y) := (SendingAt(start, events, i), SendingAt(start, events, j));
             && x.Splits() && y.Splits() && Mixes(stream, x.Arriving(), y.Arriving())
             && |x.Arriving()| <= s.maxParts && |y.Arriving()| <= s.maxParts
    requires SplitReassembly.Inv(s) && s.groups.keys == [] && s.maxGroups >= 2
    requires |events[i].payload| <= s.maxBytes && |events[j].payload| <= s.maxBytes
    ensures var results := PushAll(s, stream).results;
            && a < |stream| && results[a].Ok? && results[a].value.Some?
            && results[a].value.value.payload == events[i].payload
            && b < |stream| && results[b].Ok? && results[b].value.Some?
            && results[b].value.value.payload == events[j].payload
    ensures DeliveredAt(s, stream, SendingAt(start, events, i).Arriving(), a)
    ensures DeliveredAt(s, stream, SendingAt(start, events, j).Arriving(), b)
  {
    hide Run, Splitting, CutsOf, SplitReassembly.Inv, Mixes, PushAll, TrackSplit;
    IdsDiffer(start, events, i, j);
    NoKeys(s);
    a, b := TwoMessages(SendingAt(start, events, i), SendingAt(start, events, j), s, stream);
  }

  lemma NoKeys(s: Groups)
    requires s.groups.keys == []
    ensures forall k :: k !in s.groups.at
  {}
}
