/**
 * The receiver as the program runs it: its groups and its messages are those of the reassembler over the frames it
 * really pushes, and a message that a sender's run split is among its messages once one transmission of each fragment
 * has arrived, although a push that raises abandons the rest of its datagram.
 */
module Reception {
  import opened Results
  import opened Bytes
  import opened OrderedDict
  import opened RaknetCodec
  import opened Sender
  import opened SplitReassembly
  import opened Replication
  import opened ReceiverRuns
  import opened Conversation
  import Delivery
  import opened Reliability
  import SenderWindow

  // ---- the frames that are pushed -------------------------------------------------------------

  /** The frames of a datagram up to the first whose push raises, as apply hands them over. */
  function PushedFrames(s: Groups, frames: seq<Frame>): seq<Frame>
    decreases |frames|
  {
    if frames == [] then [] else
    var first := Push(s, Raw(frames[0]));
    [Raw(frames[0])] + if first.result.Err? then [] else PushedFrames(first.state, frames[1..])
  }

  function FramesOf(data: Octets): seq<Frame> {
    var parsed := ParseDatagram(data);
    if parsed.Ok? && parsed.value.DataPacket? then parsed.value.frames else []
  }

  /** The frames that a run of datagrams pushes. */
  function PushedRun(s: Groups, datagrams: seq<Octets>): seq<Frame> {
    if datagrams == [] then [] else
    var (front, last) := (datagrams[..|datagrams| - 1], datagrams[|datagrams| - 1]);
    var sofar := PushedRun(s, front);
    sofar + PushedFrames(PushAll(s, sofar).state, FramesOf(last))
  }

  /** What a push hands on to the observer: a complete message that is not empty. */
  function HandedOn(result: Result<Option<Frame>>): seq<Octets> {
    if result.Ok? && result.value.Some? && result.value.value.payload != [] then [result.value.value.payload] else []
  }

  function AllHandedOn(results: seq<Result<Option<Frame>>>): seq<Octets> {
    if results == [] then [] else AllHandedOn(results[..|results| - 1]) + HandedOn(results[|results| - 1])
  }

  lemma {:induction false} HandedOnOfConcat(a: seq<Result<Option<Frame>>>, b: seq<Result<Option<Frame>>>)
    ensures AllHandedOn(a + b) == AllHandedOn(a) + AllHandedOn(b)
    decreases |b|
  {
    hide HandedOn;
    if b == [] {
      assert a + b == a;
    } else {
      var n := |b| - 1;
      assert (a + b)[..|a| + n] == a + b[..n];
      HandedOnOfConcat(a, b[..n]);
    }
  }

  lemma {:induction false} HandedOnIsListed(results: seq<Result<Option<Frame>>>, i: nat)
    requires i < |results| && results[i].Ok? && results[i].value.Some? && results[i].value.value.payload != []
    ensures results[i].value.value.payload in AllHandedOn(results)
    decreases |results|
  {
    if i < |results| - 1 { HandedOnIsListed(results[..|results| - 1], i); }
  }

  lemma {:induction false} PushAllOfConcat(s: Groups, a: seq<Frame>, b: seq<Frame>)
    ensures var rest := PushAll(PushAll(s, a).state, b);
            PushAll(s, a + b) == Pushes(rest.state, PushAll(s, a).results + rest.results)
    decreases |b|
  {
    hide Push;
    if b == [] {
      assert a + b == a;
      assert PushAll(s, a).results + [] == PushAll(s, a).results;
    } else {
      var n := |b| - 1;
      assert (a + b)[..|a| + n] == a + b[..n];
      PushAllOfConcat(s, a, b[..n]);
    }
  }

  lemma PushOne(s: Groups, f: Frame)
    ensures PushAll(s, [f]) == Pushes(Push(s, f).state, [Push(s, f).result])
  {
    hide Push;
    assert [f][..0] == [];
    assert PushAll(s, []) == Pushes(s, []);
  }

  // ---- the receiver is the reassembler over those frames -------------------------------------------

  lemma FramePushes(r: Receiver, p: Profile, f: Frame)
    ensures var (a, pushed) := (ApplyFrame(r, p, f), Push(r.groups, Raw(f)));
            && a.receiver.groups == pushed.state && a.raised.Some? == pushed.result.Err?
            && Payloads(a.complete) == HandedOn(pushed.result)
  {
    hide Push, Observe;
  }

  lemma {:induction false} FramesPush(r: Receiver, p: Profile, frames: seq<Frame>)
    ensures var (a, pushes) := (ApplyFrames(r, p, frames), PushAll(r.groups, PushedFrames(r.groups, frames)));
            a.receiver.groups == pushes.state && Payloads(a.complete) == AllHandedOn(pushes.results)
    decreases |frames|
  {
    hide ApplyFrame, Push, HandedOn, Raw, PushAll;
    if frames == [] {
      assert PushAll(r.groups, []) == Pushes(r.groups, []) by { NothingPushed(r.groups); }
    } else {
      var (f, first) := (Raw(frames[0]), ApplyFrame(r, p, frames[0]));
      FramePushes(r, p, frames[0]);
      PushOne(r.groups, f);
      HandedOnAlone(Push(r.groups, f).result);
      if first.raised.None? {
        var rest := PushedFrames(first.receiver.groups, frames[1..]);
        FramesPush(first.receiver, p, frames[1..]);
        PushAllOfConcat(r.groups, [f], rest);
        HandedOnOfConcat([Push(r.groups, f).result], PushAll(first.receiver.groups, rest).results);
        PayloadsOfConcat(first.complete, ApplyFrames(first.receiver, p, frames[1..]).complete);
      } else {
        assert [f] + [] == [f];
      }
    }
  }

  lemma NothingPushed(s: Groups)
    ensures PushAll(s, []) == Pushes(s, [])
  {}

  lemma HandedOnAlone(result: Result<Option<Frame>>)
    ensures AllHandedOn([result]) == HandedOn(result)
  {
    hide HandedOn;
    assert [result][..0] == [] && AllHandedOn([]) == [];
    assert [] + HandedOn(result) == HandedOn(result);
  }

  lemma PayloadsOfConcat(a: seq<Replication.Complete>, b: seq<Replication.Complete>)
    ensures Payloads(a + b) == Payloads(a) + Payloads(b)
  {}

  lemma DatagramPushes(r: Receiver, p: Profile, data: Octets)
    ensures var (a, pushes) := (ApplyDatagram(r, p, data), PushAll(r.groups, PushedFrames(r.groups, FramesOf(data))));
            a.receiver.groups == pushes.state && Payloads(a.complete) == AllHandedOn(pushes.results)
  {
    hide ParseDatagram, ApplyFrames, PushAll;
    NothingPushed(r.groups);
    var parsed := ParseDatagram(data);
    if parsed.Ok? && parsed.value.DataPacket? {
      FramesPush(r.(evidence := r.evidence.(lastSequence := Some(parsed.value.sequence))), p, parsed.value.frames);
    }
  }

  /**
   * Whatever arrives and whatever raises, the receiver has the groups of the reassembler after the frames it pushed,
   * and its messages are what those pushes handed on.
   */
  lemma {:induction false} RunIsPushes(r: Receiver, p: Profile, datagrams: seq<Octets>)
    ensures var pushes := PushAll(r.groups, PushedRun(r.groups, datagrams));
            && ApplyRun(r, p, datagrams).groups == pushes.state
            && MessagesOf(r, p, datagrams) == AllHandedOn(pushes.results)
    decreases |datagrams|
  {
    hide ApplyDatagram, PushAll, PushedFrames, FramesOf, Payloads;
    NothingPushed(r.groups);
    if datagrams != [] {
      var (front, last) := (datagrams[..|datagrams| - 1], datagrams[|datagrams| - 1]);
      var sofar := PushedRun(r.groups, front);
      var pushes := PushAll(r.groups, sofar);
      var more := PushedFrames(pushes.state, FramesOf(last));
      RunIsPushes(r, p, front);
      DatagramPushes(ApplyRun(r, p, front), p, last);
      PushAllOfConcat(r.groups, sofar, more);
      HandedOnOfConcat(pushes.results, PushAll(pushes.state, more).results);
    }
  }

  /** A message whose fragments were all pushed is among the receiver's messages. */
  lemma {:induction false} PushedMessageIsObserved(r: Receiver, p: Profile, datagrams: seq<Octets>, fs: seq<Frame>,
                                                   key: Key)
    requires Delivery.Deliverable(r.groups, PushedRun(r.groups, datagrams), fs, key)
    requires Delivery.Complete(PushedRun(r.groups, datagrams), fs, key) && JoinPayloads(fs) != []
    ensures JoinPayloads(fs) in MessagesOf(r, p, datagrams)
  {
    hide Delivery.Deliverable, Delivery.Complete, PushAll, PushedRun, MessagesOf, ApplyRun, AllHandedOn,
         Delivery.FirstOf;
    var stream := PushedRun(r.groups, datagrams);
    RunIsPushes(r, p, datagrams);
    var i := Delivery.DeliveringPush(r.groups, stream, fs, key);
    HandedOnIsListed(PushAll(r.groups, stream).results, i);
  }

  // ---- frames coalesced behind the first -------------------------------------------------------------

  /** Only the first frame of the datagram may be a fragment. */
  predicate PlainBehind(data: Octets) {
    forall i | 0 < i < |FramesOf(data)| :: !FramesOf(data)[i].Split()
  }

  /** The datagram parser of the sender's side reads the same frames. */
  predicate SameFrames(data: Octets) {
    var d := ParseConnected(data);
    FramesOf(data) == if d.Ok? then d.value.frames else []
  }

  /** Equal but for the headers kept for rebuilt messages. */
  ghost predicate SameTable(a: Groups, b: Groups) {
    a.(templates := map[]) == b.(templates := map[]) && a.templates.Keys == b.templates.Keys
  }

  lemma DropAlike(a: Groups, b: Groups, key: Key)
    requires SameTable(a, b)
    ensures SameTable(Drop(a, key), Drop(b, key))
  {
    hide Pop;
    assert Drop(a, key).templates.Keys == a.templates.Keys - {key};
    assert Drop(b, key).templates.Keys == b.templates.Keys - {key};
  }

  lemma StoreAlike(a: Groups, b: Groups, key: Key, f: Frame)
    requires SameTable(a, b)
    ensures SameTable(Store(a, key, f), Store(b, key, Raw(f)))
  {
    hide Set;
    assert Store(a, key, f).templates.Keys == a.templates.Keys + {key};
    assert Store(b, key, Raw(f)).templates.Keys == b.templates.Keys + {key};
  }

  lemma FillAlike(a: Groups, b: Groups, key: Key, f: Frame)
    requires SameTable(a, b)
    ensures SameTable(Fill(a, key, f).state, Fill(b, key, Raw(f)).state)
  {
    hide TotalSize, Join, Store, Drop, Rebuilt, SameTable;
    TableFields(a, b);
    DropAlike(a, b, key);
    StoreAlike(a, b, key, f);
    TableFields(Store(a, key, f), Store(b, key, Raw(f)));
    DropAlike(Store(a, key, f), Store(b, key, Raw(f)), key);
  }

  lemma TableFields(a: Groups, b: Groups)
    requires SameTable(a, b)
    ensures a.groups == b.groups && a.counts == b.counts && a.maxBytes == b.maxBytes
  {}

  /** Dropping the sequencing index changes nothing that decides about a push. */
  lemma {:induction false} PushAlike(a: Groups, b: Groups, f: Frame)
    requires SameTable(a, b)
    ensures SameTable(Push(a, f).state, Push(b, Raw(f)).state)
  {
    hide Fill, Pop;
    if f.Split() && f.splitCount <= a.maxParts {
      var (ra, rb) := (MakeRoom(a, KeyOf(f)), MakeRoom(b, KeyOf(f)));
      if ra.Ok? {
        RoomAlike(a, b, KeyOf(f));
        FillAlike(ra.value, rb.value, KeyOf(f), f);
      }
    }
  }

  lemma RoomAlike(a: Groups, b: Groups, key: Key)
    requires SameTable(a, b) && MakeRoom(a, key).Ok?
    ensures MakeRoom(b, key).Ok? && SameTable(MakeRoom(a, key).value, MakeRoom(b, key).value)
  {}

  /** Unsplit frames behind a stream change nothing. */
  lemma {:induction false} PlainAddsNothing(s: Groups, stream: seq<Frame>, plain: seq<Frame>, key: Key)
    requires forall f | f in plain :: !f.Split()
    ensures PushAll(s, stream + plain).state == PushAll(s, stream).state
    ensures Delivery.OpenedBeside(s, stream + plain, key) == Delivery.OpenedBeside(s, stream, key)
    decreases |plain|
  {
    if plain == [] {
      assert stream + plain == stream;
    } else {
      var n := |plain| - 1;
      assert plain[n] in plain;
      assert (stream + plain)[..|stream| + n] == stream + plain[..n];
      PlainAddsNothing(s, stream, plain[..n], key);
    }
  }

  lemma {:induction false} PlainIsPushedPlain(s: Groups, frames: seq<Frame>)
    requires forall f | f in frames :: !f.Split()
    ensures forall f | f in PushedFrames(s, frames) :: !f.Split()
    ensures forall f | f in PushedFrames(s, frames) :: exists g :: g in frames && f == Raw(g)
    decreases |frames|
  {
    if frames != [] {
      assert frames[0] in frames;
      PlainIsPushedPlain(Push(s, Raw(frames[0])).state, frames[1..]);
    }
  }

  lemma {:induction false} ArrivalAppend(datagrams: seq<Octets>, last: Octets)
    ensures Delivery.Arrival(datagrams + [last]) == Delivery.Arrival(datagrams) + Delivery.Arrival([last])
    decreases |datagrams|
  {
    hide ParseConnected;
    if datagrams == [] {
      assert [] + [last] == [last];
    } else {
      var d := ParseConnected(datagrams[0]);
      var (first, rest) := (if d.Ok? then d.value.frames else [], datagrams[1..]);
      assert (datagrams + [last])[1..] == rest + [last];
      ArrivalAppend(rest, last);
      assert first + (Delivery.Arrival(rest) + Delivery.Arrival([last]))
          == (first + Delivery.Arrival(rest)) + Delivery.Arrival([last]);
    }
  }

  lemma ArrivalOfOne(data: Octets)
    requires SameFrames(data)
    ensures Delivery.Arrival([data]) == FramesOf(data)
  {
    hide ParseConnected, FramesOf;
    assert [data][1..] == [] && FramesOf(data) + [] == FramesOf(data);
  }

  /** One more datagram, seen by the bare reassembler and by the receiver. */
  lemma {:induction false} DatagramAlike(s: Groups, all: seq<Frame>, pushed: seq<Frame>, frames: seq<Frame>, key: Key)
    requires SameTable(PushAll(s, all).state, PushAll(s, pushed).state)
    requires Delivery.OpenedBeside(s, all, key) == Delivery.OpenedBeside(s, pushed, key)
    requires forall i | 0 < i < |frames| :: !frames[i].Split()
    ensures var pushed' := pushed + PushedFrames(PushAll(s, pushed).state, frames);
            && SameTable(PushAll(s, all + frames).state, PushAll(s, pushed').state)
            && Delivery.OpenedBeside(s, all + frames, key) == Delivery.OpenedBeside(s, pushed', key)
  {
    hide Push, PushAll, SameTable, Delivery.OpenedBeside;
    if frames == [] {
      assert all + frames == all && pushed + [] == pushed;
    } else {
      var (f, behind, t) := (frames[0], frames[1..], PushAll(s, pushed).state);
      assert all + frames == (all + [f]) + behind;
      PlainAddsNothing(s, all + [f], behind, key);
      var first := Push(t, Raw(f));
      var pushedBehind := if first.result.Err? then [] else PushedFrames(first.state, behind);
      PlainIsPushedPlain(first.state, behind);
      assert pushed + PushedFrames(t, frames) == (pushed + [Raw(f)]) + pushedBehind;
      PlainAddsNothing(s, pushed + [Raw(f)], pushedBehind, key);
      OneFrameAlike(s, all, pushed, f, key);
    }
  }

  lemma OneFrameAlike(s: Groups, all: seq<Frame>, pushed: seq<Frame>, f: Frame, key: Key)
    requires SameTable(PushAll(s, all).state, PushAll(s, pushed).state)
    requires Delivery.OpenedBeside(s, all, key) == Delivery.OpenedBeside(s, pushed, key)
    ensures SameTable(PushAll(s, all + [f]).state, PushAll(s, pushed + [Raw(f)]).state)
    ensures Delivery.OpenedBeside(s, all + [f], key) == Delivery.OpenedBeside(s, pushed + [Raw(f)], key)
  {
    hide Push, KeyOf;
    assert (all + [f])[..|all|] == all && (pushed + [Raw(f)])[..|pushed|] == pushed;
    PushAlike(PushAll(s, all).state, PushAll(s, pushed).state, f);
    KeyOfRaw(f);
  }

  lemma KeyOfRaw(f: Frame)
    ensures KeyOf(Raw(f)) == KeyOf(f) && Raw(f).Split() == f.Split()
  {}

  /** As long as only first frames are fragments, the receiver opens the groups that the bare reassembler opens. */
  lemma {:induction false} RunsAlike(s: Groups, datagrams: seq<Octets>, key: Key)
    requires forall data | data in datagrams :: PlainBehind(data) && SameFrames(data)
    ensures var (all, pushed) := (Delivery.Arrival(datagrams), PushedRun(s, datagrams));
            && SameTable(PushAll(s, all).state, PushAll(s, pushed).state)
            && Delivery.OpenedBeside(s, all, key) == Delivery.OpenedBeside(s, pushed, key)
    decreases |datagrams|
  {
    hide Push, PushedFrames, FramesOf, ParseConnected, Delivery.OpenedBeside;
    if datagrams != [] {
      var n := |datagrams| - 1;
      var (front, last) := (datagrams[..n], datagrams[n]);
      assert last in datagrams && datagrams == front + [last];
      ArrivalAppend(front, last);
      ArrivalOfOne(last);
      RunsAlike(s, front, key);
      DatagramAlike(s, Delivery.Arrival(front), PushedRun(s, front), FramesOf(last), key);
    }
  }

  // ---- what is pushed ----------------------------------------------------------------------------------

  lemma {:induction false} PushedIsRead(s: Groups, frames: seq<Frame>)
    ensures forall f | f in PushedFrames(s, frames) :: exists g :: g in frames && f == Raw(g)
    ensures frames != [] ==> Raw(frames[0]) in PushedFrames(s, frames)
    decreases |frames|
  {
    hide Raw, Push;
    if frames != [] {
      assert frames[0] in frames;
      PushedIsRead(Push(s, Raw(frames[0])).state, frames[1..]);
    }
  }

  /** The first frame of every datagram is pushed, and whatever is pushed was read. */
  lemma {:induction false} RunPushesFirst(s: Groups, datagrams: seq<Octets>)
    requires forall data | data in datagrams :: SameFrames(data)
    ensures forall f | f in PushedRun(s, datagrams) :: exists g :: g in Delivery.Arrival(datagrams) && f == Raw(g)
    ensures forall data | data in datagrams && FramesOf(data) != [] :: Raw(FramesOf(data)[0]) in PushedRun(s, datagrams)
    decreases |datagrams|
  {
    hide Raw, PushedFrames, FramesOf, PushAll, ParseConnected;
    if datagrams != [] {
      var n := |datagrams| - 1;
      var (front, last) := (datagrams[..n], datagrams[n]);
      assert last in datagrams && datagrams == front + [last];
      RunPushesFirst(s, front);
      ArrivalAppend(front, last);
      ArrivalOfOne(last);
      PushedIsRead(PushAll(s, PushedRun(s, front)).state, FramesOf(last));
    }
  }

  lemma RawAgrees(f: Frame, fs: seq<Frame>, key: Key)
    requires WellFormed(f) && Delivery.Agrees(f, fs, key)
    ensures WellFormed(Raw(f)) && Delivery.Agrees(Raw(f), fs, key)
  {}

  /** So what is deliverable to the bare reassembler is deliverable to the receiver. */
  lemma {:induction false} DeliverableAlike(s: Groups, datagrams: seq<Octets>, fs: seq<Frame>, key: Key)
    requires forall data | data in datagrams :: PlainBehind(data) && SameFrames(data)
    requires Delivery.Deliverable(s, Delivery.Arrival(datagrams), fs, key)
    ensures Delivery.Deliverable(s, PushedRun(s, datagrams), fs, key)
  {
    hide PlainBehind, SameFrames, Inv, WellFormed, Delivery.Agrees, Delivery.IsMessage, Delivery.OpenedBeside,
         Delivery.Arrival, PushedRun, SameTable, Raw, JoinPayloads;
    RunsAlike(s, datagrams, key);
    RunPushesFirst(s, datagrams);
    forall f | f in PushedRun(s, datagrams) ensures WellFormed(f) && Delivery.Agrees(f, fs, key) {
      var g :| g in Delivery.Arrival(datagrams) && f == Raw(g);
      RawAgrees(g, fs, key);
    }
  }

  lemma {:induction false} AllPushed(s: Groups, stream: seq<Frame>, fs: seq<Frame>, key: Key)
    requires Delivery.Deliverable(s, stream, fs, key)
    requires forall i | 0 <= i < |fs| :: Raw(fs[i]) in stream
    ensures Delivery.Complete(stream, fs, key)
  {
    hide KeyOf;
    Delivery.HaveBounded(stream, fs, key);
    forall i | 0 <= i < |fs| ensures i in Delivery.Have(stream, key) {
      var f := Raw(fs[i]);
      assert f in stream;
      KeyOfRaw(fs[i]);
      assert Delivery.Of(f, key) && f.splitIndex == i;
    }
  }

  // ---- from a sender's run to the receiver's messages ---------------------------------------------------------

  /** Nothing but unsplit frames is coalesced behind the tracked one. */
  ghost predicate PlainTail(h: History, d: nat) {
    d < |h.sent| ==> forall f | f in h.sent[d].tail :: !f.Split()
  }

  lemma {:induction false} SentIsRead(h: History, d: nat)
    requires Sendable(h, d)
    ensures var data := BytesOf(h, d);
            && SameFrames(data) && FramesOf(data) == NormalAll([h.sent[d].frame] + h.sent[d].tail)
            && FramesOf(data)[0] == Normal(h.sent[d].frame)
            && (PlainTail(h, d) ==> PlainBehind(data))
  {
    hide Normal, Assemble, ParseConnected, ParseDatagram;
    var (sent, q) := (h.sent[d], h.sequences[d]);
    var frames := [sent.frame] + sent.tail;
    DatagramReads(sent.flag, q, frames);
    ParseInvertsAssemble(sent.flag, q, frames);
    forall i | 0 < i < |frames| && PlainTail(h, d) ensures !NormalAll(frames)[i].Split() {
      assert frames[i] == sent.tail[i - 1] && frames[i] in sent.tail;
      NormalOfPlain(frames[i]);
    }
  }

  lemma NormalOfPlain(f: Frame)
    requires !f.Split()
    ensures !Normal(f).Split()
  {}

  lemma {:induction false} ArrivalsAreRead(h: History, picked: seq<nat>)
    requires forall d | d in picked :: Sendable(h, d)
    ensures forall data | data in Arrivals(h, picked) :: SameFrames(data)
    ensures (forall d | d in picked :: PlainTail(h, d)) ==>
              forall data | data in Arrivals(h, picked) :: PlainBehind(data)
    ensures forall d | d in picked ::
              && BytesOf(h, d) in Arrivals(h, picked)
              && FramesOf(BytesOf(h, d)) != [] && FramesOf(BytesOf(h, d))[0] == Normal(h.sent[d].frame)
  {
    hide Assemble, BytesOf, SameFrames, PlainBehind, PlainTail, FramesOf, Normal;
    var arrivals := Arrivals(h, picked);
    forall d | d in picked
      ensures BytesOf(h, d) in arrivals
      ensures SameFrames(BytesOf(h, d)) && (PlainTail(h, d) ==> PlainBehind(BytesOf(h, d)))
      ensures FramesOf(BytesOf(h, d)) != [] && FramesOf(BytesOf(h, d))[0] == Normal(h.sent[d].frame)
    {
      var i :| 0 <= i < |picked| && picked[i] == d;
      assert arrivals[i] == BytesOf(h, d);
      SentIsRead(h, d);
    }
  }

  lemma {:induction false} FragmentIsPushed(start: State, events: seq<Event>, at: nat, picked: seq<nat>, s: Groups,
                                            j: nat)
    requires SenderWindow.Initial(start) && at < |events| && events[at].SendReliableEvent?
    requires events[at].track && |events[at].payload| > events[at].maxPayload
    requires var t := Splitting(Run(start, events[..at]), events[at]); t.Ok? && j < |t.value.frames|
    requires var (before, h) := (Run(start, events[..at]), Run(start, events).history);
             && (forall d | d in picked :: Sendable(h, d))
             && Arrived(h, picked, before.history.tracked, j)
    ensures var t := Splitting(Run(start, events[..at]), events[at]).value;
            Raw(Normal(t.frames[j])) in PushedRun(s, Arrivals(Run(start, events).history, picked))
  {
    hide Run, Splitting, SenderWindow.Initial, Sendable, PushedRun, Normal, Raw, BytesOf, Arrivals, FramesOf,
         SameFrames, PlainBehind, Delivery.Arrival;
    var (before, h) := (Run(start, events[..at]), Run(start, events).history);
    ArrivalsAreRead(h, picked);
    RunPushesFirst(s, Arrivals(h, picked));
    var d :| d in picked && d < |h.sent| && h.sent[d].serial == Some(|before.history.tracked| + j);
    CarrierCarries(start, events, at, d, j);
    var data := BytesOf(h, d);
    assert Raw(FramesOf(data)[0]) in PushedRun(s, Arrivals(h, picked));
  }

  /**
   * Whatever else the run sent, and whatever raises: a split message is among the receiver's messages once one
   * transmission of each fragment has arrived, as long as its limits are met by the frames that the receiver pushes.
   */
  lemma {:induction false} PushedSplitMessage(start: State, events: seq<Event>, at: nat, picked: seq<nat>, r: Receiver,
                                              p: Profile)
    requires SenderWindow.Initial(start) && at < |events| && events[at].SendReliableEvent?
    requires events[at].track && |events[at].payload| > events[at].maxPayload >= 1
    requires var (before, h) := (Run(start, events[..at]), Run(start, events).history);
             && Splitting(before, events[at]).Ok?
             && (forall d | d in picked :: Sendable(h, d))
             && var t := Splitting(before, events[at]).value;
             && t.frames != []
             && (forall j | 0 <= j < |t.frames| :: Arrived(h, picked, before.history.tracked, j))
             && Delivery.Deliverable(r.groups, PushedRun(r.groups, Arrivals(h, picked)), NormalAll(t.frames),
                                     KeyOnWire(before, events[at]))
    ensures events[at].payload in MessagesOf(r, p, Arrivals(Run(start, events).history, picked))
  {
    hide Run, TrackSplit, SenderWindow.Initial, Delivery.Deliverable, Sendable, PushedRun, Normal, MessagesOf, Arrived,
         Raw, JoinPayloads, Delivery.IsMessage, Delivery.Complete, FragmentCount;
    var (e, before, h) := (events[at], Run(start, events[..at]), Run(start, events).history);
    var (t, arrivals) := (Splitting(before, e).value, Arrivals(h, picked));
    var stream := PushedRun(r.groups, arrivals);
    forall j | 0 <= j < |t.frames| ensures Raw(NormalAll(t.frames)[j]) in stream {
      FragmentIsPushed(start, events, at, picked, r.groups, j);
    }
    AllPushed(r.groups, stream, NormalAll(t.frames), KeyOnWire(before, events[at]));
    MoreThanOne(|e.payload|, e.maxPayload);
    Delivery.TrackedIsMessage(before.client.window, e.payload, e.maxPayload, e.ordered, e.channel,
                              before.client.splitId, e.now);
    PushedMessageIsObserved(r, p, arrivals, NormalAll(t.frames), KeyOnWire(before, events[at]));
  }

  /**
   * In particular: when only tracked frames are fragments, as the program sends them, the message that the bare
   * reassembler would deliver is among the messages of the receiver.
   */
  lemma {:induction false} SplitMessageIsObserved(start: State, events: seq<Event>, at: nat, picked: seq<nat>,
                                                  r: Receiver, p: Profile)
    requires SenderWindow.Initial(start) && at < |events| && events[at].SendReliableEvent?
    requires events[at].track && |events[at].payload| > events[at].maxPayload >= 1
    requires var (before, h) := (Run(start, events[..at]), Run(start, events).history);
             && Splitting(before, events[at]).Ok?
             && (forall d | d in picked :: Sendable(h, d) && PlainTail(h, d))
             && var t := Splitting(before, events[at]).value;
             && t.frames != []
             && (forall j | 0 <= j < |t.frames| :: Arrived(h, picked, before.history.tracked, j))
             && Delivery.Deliverable(r.groups, Delivery.Arrival(Arrivals(h, picked)), NormalAll(t.frames),
                                     KeyOnWire(before, events[at]))
    ensures events[at].payload in MessagesOf(r, p, Arrivals(Run(start, events).history, picked))
  {
    hide Run, TrackSplit, SenderWindow.Initial, Delivery.Deliverable, Sendable, PushedRun, Normal, BytesOf, FramesOf,
         SameFrames, PlainBehind, PlainTail, MessagesOf, Arrived, Delivery.Arrival;
    var (before, h) := (Run(start, events[..at]), Run(start, events).history);
    var t := Splitting(before, events[at]).value;
    ArrivalsAreRead(h, picked);
    DeliverableAlike(r.groups, Arrivals(h, picked), NormalAll(t.frames), KeyOnWire(before, events[at]));
    PushedSplitMessage(start, events, at, picked, r, p);
  }
}
