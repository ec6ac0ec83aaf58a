/** Whole datagrams and runs of the receiver: what a raise loses, and the evidence as a count over complete messages. */
module ReceiverRuns {
  import opened Results
  import opened Bytes
  import opened OrderedDict
  import opened RaknetCodec
  import opened SplitReassembly
  import opened Replication

  // ---- what a raise loses ---------------------------------------------------------------

  /** Frames behind the one whose push raised change nothing, whatever they are. */
  lemma {:induction false} RaiseAbandonsTheRest(r: Receiver, p: Profile, front: seq<Frame>, behind: seq<Frame>)
    requires ApplyFrames(r, p, front).raised.Some?
    ensures ApplyFrames(r, p, front + behind) == ApplyFrames(r, p, front)
    decreases |front|
  {
    hide ApplyFrame;
    var first := ApplyFrame(r, p, front[0]);
    assert (front + behind)[0] == front[0] && (front + behind)[1..] == front[1..] + behind;
    if first.raised.None? { RaiseAbandonsTheRest(first.receiver, p, front[1..], behind); }
  }

  /** The frames before i go through and the reassembler refuses frame i. */
  ghost predicate RaisesAt(r: Receiver, p: Profile, frames: seq<Frame>, i: nat)
    requires i < |frames|
  {
    var before := ApplyFrames(r, p, frames[..i]);
    before.raised.None? && Refused(before.receiver.groups, Raw(frames[i]))
  }

  lemma {:induction false} FrameRaises(r: Receiver, p: Profile, f: Frame)
    requires Inv(r.groups) && WellFormed(f)
    ensures ApplyFrame(r, p, f).raised.Some? <==> Refused(r.groups, Raw(f))
    ensures Inv(ApplyFrame(r, p, f).receiver.groups)
  {
    hide Push, Inv, Refused, Observe;
    PushRaises(r.groups, Raw(f));
    PushKeepsInv(r.groups, Raw(f));
  }

  lemma {:induction false} RaisesAtTail(r: Receiver, p: Profile, frames: seq<Frame>, i: nat)
    requires 0 < i < |frames| && ApplyFrame(r, p, frames[0]).raised.None?
    ensures RaisesAt(r, p, frames, i) <==> RaisesAt(ApplyFrame(r, p, frames[0]).receiver, p, frames[1..], i - 1)
  {
    hide ApplyFrame, Refused;
    assert frames[..i][0] == frames[0] && frames[..i][1..] == frames[1..][..i - 1];
  }

  /** A list of frames raises exactly when some frame is refused at its turn; then nothing behind that frame counts. */
  lemma {:induction false} FramesRaise(r: Receiver, p: Profile, frames: seq<Frame>)
    requires Inv(r.groups) && forall f | f in frames :: WellFormed(f)
    ensures ApplyFrames(r, p, frames).raised.Some? <==> exists i :: 0 <= i < |frames| && RaisesAt(r, p, frames, i)
    ensures forall i | 0 <= i < |frames| && RaisesAt(r, p, frames, i) ::
              ApplyFrames(r, p, frames) == ApplyFrames(r, p, frames[..i + 1])
    decreases |frames|
  {
    hide ApplyFrame, Refused, Inv, WellFormed;
    if frames != [] {
      var (f, rest) := (frames[0], frames[1..]);
      assert f in frames && frames[..0] == [];
      FrameRaises(r, p, f);
      var first := ApplyFrame(r, p, f);
      assert RaisesAt(r, p, frames, 0) <==> first.raised.Some?;
      if first.raised.None? {
        FramesRaise(first.receiver, p, rest);
        forall i | 0 < i < |frames|
          ensures RaisesAt(r, p, frames, i) <==> RaisesAt(first.receiver, p, rest, i - 1)
          ensures frames[..i + 1][0] == f && frames[..i + 1][1..] == rest[..i]
        {
          RaisesAtTail(r, p, frames, i);
        }
        if i :| 0 <= i < |rest| && RaisesAt(first.receiver, p, rest, i) {
          assert RaisesAt(r, p, frames, i + 1);
        }
      } else {
        forall i | 0 < i < |frames| ensures !RaisesAt(r, p, frames, i) {
          RaiseSticks(r, p, frames[..i]);
        }
        assert frames[..1][0] == f;
      }
    }
  }

  lemma RaiseSticks(r: Receiver, p: Profile, frames: seq<Frame>)
    requires frames != [] && ApplyFrame(r, p, frames[0]).raised.Some?
    ensures ApplyFrames(r, p, frames) == ApplyFrame(r, p, frames[0])
  {
    hide ApplyFrame;
  }

  // ---- two datagrams ----------------------------------------------------------------------

  lemma {:induction false} DatagramReads(flag: Byte, sequence: nat, frames: seq<Frame>)
    requires 0x80 <= flag <= 0x8F && sequence < M24 && Assemble(flag, sequence, frames).Ok?
    ensures ParseDatagram(Assemble(flag, sequence, frames).value) == Ok(DataPacket(flag, sequence, NormalAll(frames)))
  {
    hide ParseFrames, EncodeAll, Normal, Le, FromLe;
    var data := Assemble(flag, sequence, frames).value;
    assert data[0] == flag;
    ParseInvertsAssemble(flag, sequence, frames);
    DatagramParsersAgree(data);
  }

  /** A datagram of encodable frames reaches the message loop as those frames. */
  lemma {:induction false} DatagramArrives(r: Receiver, p: Profile, flag: Byte, sequence: nat, frames: seq<Frame>)
    requires 0x80 <= flag <= 0x8F && sequence < M24 && Assemble(flag, sequence, frames).Ok?
    ensures var data := Assemble(flag, sequence, frames).value;
            ApplyDatagram(r, p, data)
            == ApplyFrames(r.(evidence := r.evidence.(lastSequence := Some(sequence))), p, NormalAll(frames))
  {
    hide ApplyFrames, ParseDatagram, Assemble;
    DatagramReads(flag, sequence, frames);
  }

  /** The frames are as they arrive, so the wire changes nothing about them. */
  lemma {:induction false} FrameArrives(r: Receiver, p: Profile, sequence: nat, frames: seq<Frame>)
    requires sequence < M24 && forall f | f in frames :: WireFrame(f) && |f.payload| <= 8191
    ensures Assemble(0x80, sequence, frames).Ok?
    ensures ApplyDatagram(r, p, Assemble(0x80, sequence, frames).value)
         == ApplyFrames(r.(evidence := r.evidence.(lastSequence := Some(sequence))), p, frames)
    ensures NormalAll(frames) == frames
  {
    hide WireFrame, Normal, ApplyFrames, ApplyDatagram;
    AllEncode(frames);
    forall i | 0 <= i < |frames| ensures Normal(frames[i]) == frames[i] {
      assert frames[i] in frames;
      NormalFixesWireFrames(frames[i]);
    }
    assert NormalAll(frames) == frames;
    DatagramArrives(r, p, 0x80, sequence, frames);
  }

  lemma {:induction false} AllEncode(frames: seq<Frame>)
    requires forall f | f in frames :: WireFrame(f) && |f.payload| <= 8191
    ensures EncodeAll(frames).Ok?
    decreases |frames|
  {
    hide Le, Be;
    if frames != [] {
      assert frames[0] in frames && Encode(frames[0]).Ok?;
      AllEncode(frames[1..]);
    }
  }

  function Plain(payload: Octets): Frame {
    Frame(payload, false, false, 0, 0, 0, 0, 0, 0, 0, Some(0))
  }

  /** A fragment of a message with one part more than the reassembler admits. */
  const OVERSPLIT := Frame([], true, false, 0, 0, 0, 0, 4097, 0, 0, Some(2))

  lemma PlainPasses(r: Receiver, p: Profile, payload: Octets)
    requires payload != []
    ensures ApplyFrames(r, p, [Plain(payload)])
         == Applied(r.(evidence := Observe(r.evidence, p, payload)), None, [CompleteOf(Plain(payload), payload)])
  {
    hide Observe;
    var f := Plain(payload);
    assert [f][1..] == [];
    assert Push(r.groups, Raw(f)) == Pushed(r.groups, Ok(Some(Raw(f))));
  }

  lemma OversplitRaises(r: Receiver, p: Profile)
    requires r.groups.maxParts == 4096
    ensures ApplyFrame(r, p, OVERSPLIT) == Applied(r, Some(ValueError), [])
  {}

  /**
   * An acceptance behind a refused fragment is never observed: the datagram raises and leaves no evidence, while the
   * acceptance alone is.
   */
  lemma {:induction false} AcceptanceIsLost(p: Profile) returns (both: Octets, alone: Octets)
    ensures ParseDatagram(both) == Ok(DataPacket(0x80, 0, [OVERSPLIT, Plain([ID_CONNECTION_REQUEST_ACCEPTED])]))
    ensures ParseDatagram(alone) == Ok(DataPacket(0x80, 0, [Plain([ID_CONNECTION_REQUEST_ACCEPTED])]))
    ensures var a := ApplyDatagram(NewReceiver(), p, both);
            && a.raised == Some(ValueError) && a.complete == []
            && a.receiver.evidence.applicationIds == map[] && !a.receiver.evidence.connectionAccepted
    ensures var a := ApplyDatagram(NewReceiver(), p, alone);
            && a.raised == None
            && a.receiver.evidence.applicationIds == map[ID_CONNECTION_REQUEST_ACCEPTED := 1]
            && a.receiver.evidence.connectionAccepted
  {
    hide ApplyDatagram, Assemble, ParseDatagram;
    var accepted := Plain([ID_CONNECTION_REQUEST_ACCEPTED]);
    FrameArrives(NewReceiver(), p, 0, [OVERSPLIT, accepted]);
    FrameArrives(NewReceiver(), p, 0, [accepted]);
    DatagramReads(0x80, 0, [OVERSPLIT, accepted]);
    DatagramReads(0x80, 0, [accepted]);
    both, alone := Assemble(0x80, 0, [OVERSPLIT, accepted]).value, Assemble(0x80, 0, [accepted]).value;
    var r := NewReceiver().(evidence := NoEvidence().(lastSequence := Some(0)));
    OversplitRaises(r, p);
    RaiseSticks(r, p, [OVERSPLIT, accepted]);
    PlainPasses(r, p, accepted.payload);
  }

  /** A profile without aliases and with one character marker, the byte 7. */
  function Marked(): Profile {
    Profile([], [], [], [], [], payload => Hints(false, 7 in payload, false, false, false, false))
  }

  lemma MarkerDecides(e: Evidence, payload: Octets)
    requires IsBlock(payload) && payload[1] == BLOCK_NEW_INSTANCE
    ensures Observe(e, Marked(), payload).characterSpawn <==> 7 in payload
  {
    hide Bump;
  }

  lemma RunOfTwo(p: Profile, a: Octets, b: Octets)
    ensures ApplyRun(NewReceiver(), p, [a]) == ApplyDatagram(NewReceiver(), p, a).receiver
    ensures ApplyRun(NewReceiver(), p, [a, b])
         == ApplyDatagram(ApplyDatagram(NewReceiver(), p, a).receiver, p, b).receiver
  {
    hide ApplyDatagram;
    assert [a][..0] == [] && [a, b][..1] == [a];
  }

  lemma PlainDatagram(r: Receiver, p: Profile, payload: Octets) returns (data: Octets)
    requires payload != [] && |payload| <= 8191
    ensures ParseDatagram(data) == Ok(DataPacket(0x80, 0, [Plain(payload)]))
    ensures ApplyDatagram(r, p, data)
         == Applied(r.(evidence := Observe(r.evidence.(lastSequence := Some(0)), p, payload)), None,
                    [CompleteOf(Plain(payload), payload)])
  {
    hide ApplyFrames, Assemble, Observe, ParseFrames;
    var f := Plain(payload);
    assert WireFrame(f);
    FrameArrives(r, p, 0, [f]);
    data := Assemble(0x80, 0, [f]).value;
    DatagramReads(0x80, 0, [f]);
    PlainPasses(r.(evidence := r.evidence.(lastSequence := Some(0))), p, payload);
  }

  /** The character flag is no latch: a run of two datagrams that sets it with a marker and then takes it back. */
  lemma {:induction false} SpawnIsNoLatch() returns (first: Octets, second: Octets)
    ensures ParseDatagram(first) == Ok(DataPacket(0x80, 0, [Plain([ID_DATA, BLOCK_NEW_INSTANCE, 7])]))
    ensures ParseDatagram(second) == Ok(DataPacket(0x80, 0, [Plain([ID_DATA, BLOCK_NEW_INSTANCE])]))
    ensures ApplyRun(NewReceiver(), Marked(), [first]).evidence.characterSpawn
    ensures !ApplyRun(NewReceiver(), Marked(), [first, second]).evidence.characterSpawn
  {
    hide ApplyDatagram, Observe, ParseDatagram, Marked, ApplyRun;
    var r := NewReceiver();
    first := PlainDatagram(r, Marked(), [ID_DATA, BLOCK_NEW_INSTANCE, 7]);
    var r1 := ApplyDatagram(r, Marked(), first).receiver;
    second := PlainDatagram(r1, Marked(), [ID_DATA, BLOCK_NEW_INSTANCE]);
    MarkerDecides(r.evidence.(lastSequence := Some(0)), [ID_DATA, BLOCK_NEW_INSTANCE, 7]);
    MarkerDecides(r1.evidence.(lastSequence := Some(0)), [ID_DATA, BLOCK_NEW_INSTANCE]);
    RunOfTwo(Marked(), first, second);
  }

  // ---- the evidence as counts over the complete messages ---------------------------------------

  function Payloads(complete: seq<Complete>): (r: seq<Octets>)
    ensures |r| == |complete|
    ensures forall i | 0 <= i < |r| :: r[i] == complete[i].message.payload
  {
    seq(|complete|, i requires 0 <= i < |complete| => complete[i].message.payload)
  }

  /** The complete messages of a run, in order, also of datagrams that raised later. */
  function MessagesOf(r: Receiver, p: Profile, datagrams: seq<Octets>): seq<Octets> {
    if datagrams == [] then [] else
    var (front, last) := (datagrams[..|datagrams| - 1], datagrams[|datagrams| - 1]);
    MessagesOf(r, p, front) + Payloads(ApplyDatagram(ApplyRun(r, p, front), p, last).complete)
  }

  /** A DATA message with a block number in its second byte. */
  predicate HasBlock(m: Octets) {
    |m| >= 2 && m[0] == 0x83
  }

  /** How many messages carry one of the chosen blocks. */
  function CountBlocks(messages: seq<Octets>, chosen: set<int>): nat {
    if messages == [] then 0 else
    var last := messages[|messages| - 1];
    CountBlocks(messages[..|messages| - 1], chosen) + if HasBlock(last) && last[1] in chosen then 1 else 0
  }

  /** How many messages start with the id. */
  function CountIds(messages: seq<Octets>, id: int): nat {
    if messages == [] then 0 else
    var last := messages[|messages| - 1];
    CountIds(messages[..|messages| - 1], id) + if last != [] && last[0] == id then 1 else 0
  }

  function Records(messages: seq<Octets>): seq<EventRecord> {
    if messages == [] then [] else
    var last := messages[|messages| - 1];
    Records(messages[..|messages| - 1]) + if HasBlock(last) then [EventRecord(last[0], last[1], |last|)] else []
  }

  function FirstOf(records: seq<EventRecord>, limit: nat): seq<EventRecord> {
    if |records| <= limit then records else records[..limit]
  }

  /** Histograms, counters and events, each as a function of the messages alone. */
  ghost predicate Tally(e: Evidence, p: Profile, messages: seq<Octets>) {
    && (forall b :: Get(e.blockCounts, b, 0) == CountBlocks(messages, {b}))
    && (forall id :: Get(e.applicationIds, id, 0) == CountIds(messages, id))
    && e.heartbeats == CountBlocks(messages, {5} + set b | b in p.heartbeat)
    && e.physics == CountIds(messages, 0x85) + CountBlocks(messages, {6} + set b | b in p.physics)
    && e.events == FirstOf(Records(messages), 64)
  }

  lemma OneMoreMessage(messages: seq<Octets>, last: Octets)
    ensures var m := messages + [last];
            && (forall chosen :: CountBlocks(m, chosen)
                  == CountBlocks(messages, chosen) + if HasBlock(last) && last[1] in chosen then 1 else 0)
            && (forall id :: CountIds(m, id) == CountIds(messages, id) + if last != [] && last[0] == id then 1 else 0)
            && Records(m) == Records(messages) + if HasBlock(last) then [EventRecord(last[0], last[1], |last|)] else []
  {
    assert (messages + [last])[..|messages|] == messages;
  }

  lemma EventsAfter(e: Evidence, p: Profile, payload: Octets)
    requires payload != []
    ensures Observe(e, p, payload).events
         == if HasBlock(payload) && |e.events| < 64
            then e.events + [EventRecord(payload[0], payload[1], |payload|)] else e.events
  {
    hide Bump;
  }

  /** The block numbers that the program counts as heartbeats and as physics, besides those of the profile. */
  lemma BlocksAre(p: Profile)
    ensures HeartbeatBlocks(p) == {5} + set b | b in p.heartbeat
    ensures PhysicsBlocks(p) == {6} + set b | b in p.physics
  {}

  lemma {:induction false} ObserveTallies(e: Evidence, p: Profile, messages: seq<Octets>, payload: Octets)
    requires Tally(e, p, messages) && payload != []
    ensures Tally(Observe(e, p, payload), p, messages + [payload])
  {
    hide Observe, HeartbeatBlocks, PhysicsBlocks, CountBlocks, CountIds, Records;
    ObserveCounts(e, p, payload);
    BlocksAre(p);
    EventsAfter(e, p, payload);
    OneMoreMessage(messages, payload);
  }

  lemma TallyIgnores(e: Evidence, e': Evidence, p: Profile, messages: seq<Octets>)
    requires Tally(e, p, messages)
    requires e' == e.(splitCompleted := e'.splitCompleted, lastSequence := e'.lastSequence)
    ensures Tally(e', p, messages)
  {}

  lemma {:induction false} ApplyFrameTallies(r: Receiver, p: Profile, f: Frame, messages: seq<Octets>)
    requires Tally(r.evidence, p, messages)
    ensures var a := ApplyFrame(r, p, f); Tally(a.receiver.evidence, p, messages + Payloads(a.complete))
  {
    hide Push, Tally, Observe;
    var pushed := Push(r.groups, Raw(f));
    assert messages + [] == messages;
    if pushed.result.Ok? && pushed.result.value.Some? {
      var e := if f.Split() then r.evidence.(splitCompleted := r.evidence.splitCompleted + 1) else r.evidence;
      TallyIgnores(r.evidence, e, p, messages);
      var payload := pushed.result.value.value.payload;
      if payload != [] {
        ObserveTallies(e, p, messages, payload);
        assert Payloads([CompleteOf(f, payload)]) == [payload];
      }
    }
  }

  lemma {:induction false} ApplyFramesTally(r: Receiver, p: Profile, frames: seq<Frame>, messages: seq<Octets>)
    requires Tally(r.evidence, p, messages)
    ensures var a := ApplyFrames(r, p, frames); Tally(a.receiver.evidence, p, messages + Payloads(a.complete))
    decreases |frames|
  {
    hide ApplyFrame, Tally;
    assert messages + [] == messages;
    if frames != [] {
      var first := ApplyFrame(r, p, frames[0]);
      ApplyFrameTallies(r, p, frames[0], messages);
      if first.raised.None? {
        var more := messages + Payloads(first.complete);
        var rest := ApplyFrames(first.receiver, p, frames[1..]);
        ApplyFramesTally(first.receiver, p, frames[1..], more);
        assert Payloads(first.complete + rest.complete) == Payloads(first.complete) + Payloads(rest.complete);
        assert messages + (Payloads(first.complete) + Payloads(rest.complete)) == more + Payloads(rest.complete);
      }
    }
  }

  lemma {:induction false} ApplyDatagramTallies(r: Receiver, p: Profile, data: Octets, messages: seq<Octets>)
    requires Tally(r.evidence, p, messages)
    ensures var a := ApplyDatagram(r, p, data); Tally(a.receiver.evidence, p, messages + Payloads(a.complete))
  {
    hide ParseDatagram, ApplyFrames, Tally;
    assert messages + [] == messages;
    var parsed := ParseDatagram(data);
    if parsed.Ok? && parsed.value.DataPacket? {
      var e := r.evidence.(lastSequence := Some(parsed.value.sequence));
      TallyIgnores(r.evidence, e, p, messages);
      ApplyFramesTally(r.(evidence := e), p, parsed.value.frames, messages);
    }
  }

  /**
   * In every run, whatever raises, the histograms count the complete messages by id and by block, the counters count
   * those of their blocks, and the events are the first 64 block messages.
   */
  lemma {:induction false} EvidenceCountsMessages(p: Profile, datagrams: seq<Octets>)
    ensures Tally(ApplyRun(NewReceiver(), p, datagrams).evidence, p, MessagesOf(NewReceiver(), p, datagrams))
  {
    if datagrams != [] {
      hide ApplyDatagram, Tally;
      var (front, last) := (datagrams[..|datagrams| - 1], datagrams[|datagrams| - 1]);
      EvidenceCountsMessages(p, front);
      ApplyDatagramTallies(ApplyRun(NewReceiver(), p, front), p, last, MessagesOf(NewReceiver(), p, front));
    }
  }
}
