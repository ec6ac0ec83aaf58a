/**
 * From a sender's run to the payload: whatever selection of the datagrams that the run sent arrives, in any order and
 * any number of times, a split message comes out whole once one transmission of each of its fragments has arrived.
 */
module Conversation {
  import opened Results
  import opened Bytes
  import opened RaknetCodec
  import opened Reliability
  import opened Sender
  import opened SenderSafety
  import opened SenderWindow
  import opened SplitReassembly
  import opened Delivery

  /** Later events only append to the tracked frames. */
  lemma {:induction false} TrackedStays(start: State, events: seq<Event>, i: nat)
    requires Initial(start) && i <= |events|
    ensures Run(start, events[..i]).history.tracked <= Run(start, events).history.tracked
    decreases |events|
  {
    hide Run, Perform, Raised, Planned, Filed, Initial, SenderSafety.Inv;
    if i == |events| {
      assert events[..i] == events;
    } else {
      var n := |events| - 1;
      TrackedStays(start, events[..n], i);
      assert events[..n][..i] == events[..i] && events == events[..n] + [events[n]];
      ReachedInv(start, events[..n]);
      StepFiles(Run(start, events[..n]), events[n]);
      RunOneMore(start, events[..n], events[n]);
    }
  }

  /** What the message with the given event became. */
  function Splitting(before: State, e: Event): Result<Tracked>
    requires e.SendReliableEvent?
  {
    TrackSplit(before.client.window, e.payload, e.maxPayload, e.ordered, e.channel, before.client.splitId, e.now)
  }

  /** The four fields with which its fragments arrive. */
  function KeyOnWire(before: State, e: Event): Key
    requires e.SendReliableEvent?
  {
    WireKey(before.client.window, e.ordered, e.channel, before.client.splitId)
  }

  /** The serials of its frames are the next ones, and stay theirs. */
  lemma {:induction false} FragmentsAreTracked(start: State, events: seq<Event>, at: nat, j: nat)
    requires Initial(start) && at < |events| && events[at].SendReliableEvent?
    requires events[at].track && |events[at].payload| > events[at].maxPayload
    requires var t := Splitting(Run(start, events[..at]), events[at]); t.Ok? && j < |t.value.frames|
    ensures var (before, h) := (Run(start, events[..at]), Run(start, events).history);
            var n := |before.history.tracked| + j;
            n < |h.tracked| && h.tracked[n] == Splitting(before, events[at]).value.frames[j]
  {
    hide Run, Perform, Raised, Planned, TrackSplit, Track, Initial, SenderSafety.Inv;
    var before := Run(start, events[..at]);
    ReachedInv(start, events[..at]);
    StepFiles(before, events[at]);
    RunOneMore(start, events[..at], events[at]);
    assert events[..at + 1] == events[..at] + [events[at]];
    TrackedStays(start, events, at + 1);
  }

  /** A datagram of the run that is a connected one and went out encoded. */
  ghost predicate Sendable(h: History, d: nat) {
    && d < |h.sent| && d < |h.sequences| && 0 <= h.sequences[d] < M24 && 0x80 <= h.sent[d].flag <= 0x8F
    && h.sent[d].Datagram(h.sequences[d]).Ok?
  }

  /** What the run sent as its d-th datagram. */
  ghost function BytesOf(h: History, d: nat): Octets
    requires Sendable(h, d)
  {
    h.sent[d].Datagram(h.sequences[d]).value
  }

  /** What arrives: datagrams of the run, selected, repeated and reordered at will. */
  ghost function Arrivals(h: History, picked: seq<nat>): (r: seq<Octets>)
    requires forall d | d in picked :: Sendable(h, d)
    ensures |r| == |picked|
    ensures forall i | 0 <= i < |picked| :: picked[i] in picked && r[i] == BytesOf(h, picked[i])
  {
    seq(|picked|, i requires 0 <= i < |picked| => assert picked[i] in picked; BytesOf(h, picked[i]))
  }

  ghost function Pack(h: History, d: nat): Packed
    requires Sendable(h, d)
  {
    Packed(h.sent[d].flag, h.sequences[d], [h.sent[d].frame] + h.sent[d].tail)
  }

  ghost function PackedOf(h: History, picked: seq<nat>): (r: seq<Packed>)
    requires forall d | d in picked :: Sendable(h, d)
    ensures |r| == |picked|
    ensures forall i | 0 <= i < |picked| :: picked[i] in picked && r[i] == Pack(h, picked[i])
  {
    seq(|picked|, i requires 0 <= i < |picked| => assert picked[i] in picked; Pack(h, picked[i]))
  }

  lemma ArrivalsAreSendable(h: History, picked: seq<nat>)
    requires forall d | d in picked :: Sendable(h, d)
    ensures forall p | p in PackedOf(h, picked) :: p.Sendable()
  {
    hide Assemble;
    var packed := PackedOf(h, picked);
    forall p | p in packed ensures p.Sendable() {
      var i :| 0 <= i < |packed| && packed[i] == p;
      assert Sendable(h, picked[i]);
    }
  }

  lemma {:induction false} ArrivalsAreWire(h: History, picked: seq<nat>)
    requires forall d | d in picked :: Sendable(h, d)
    ensures forall p | p in PackedOf(h, picked) :: p.Sendable()
    ensures Wire(PackedOf(h, picked)) == Arrivals(h, picked)
  {
    hide Assemble, Sendable;
    ArrivalsAreSendable(h, picked);
    var packed := PackedOf(h, picked);
    if picked != [] {
      var rest := picked[1..];
      assert picked == [picked[0]] + rest;
      ArrivalsAreWire(h, rest);
      assert packed[1..] == PackedOf(h, rest) && Arrivals(h, picked)[1..] == Arrivals(h, rest);
      PackIsSent(h, picked[0]);
    }
  }

  lemma PackIsSent(h: History, d: nat)
    requires Sendable(h, d)
    ensures var p := Pack(h, d); Assemble(p.flag, p.sequence, p.frames) == Ok(BytesOf(h, d))
  {
    hide Assemble;
  }

  lemma {:induction false} ArrivedFramesAreFlat(h: History, picked: seq<nat>, d: nat)
    requires (forall x | x in picked :: Sendable(h, x)) && d in picked
    ensures d < |h.sent| && h.sent[d].frame in Flatten(PackedOf(h, picked))
  {
    hide Assemble;
    var packed := PackedOf(h, picked);
    var rest := picked[1..];
    assert picked == [picked[0]] + rest && packed[1..] == PackedOf(h, rest);
    if picked[0] == d {
      assert packed[0].frames[0] == h.sent[d].frame;
    } else {
      ArrivedFramesAreFlat(h, rest, d);
    }
  }

  /** Some datagram that arrived was sent for the j-th frame after the given ones. */
  ghost predicate Arrived(h: History, picked: seq<nat>, before: seq<Frame>, j: nat) {
    exists d :: d in picked && d < |h.sent| && h.sent[d].serial == Some(|before| + j)
  }

  /**
   * A message that a run split is delivered whole, at the push that supplies its last missing fragment, once one
   * transmission of each fragment has arrived: the original or a retransmission, whatever else of the run arrives in
   * between, as long as the reassembler's limits are met and nothing of its group conflicts.
   */
  lemma {:induction false} SplitMessageArrives(start: State, events: seq<Event>, at: nat, picked: seq<nat>, s: Groups)
    returns (i: nat)
    requires Initial(start) && at < |events| && events[at].SendReliableEvent?
    requires events[at].track && |events[at].payload| > events[at].maxPayload >= 1
    requires var (before, h) := (Run(start, events[..at]), Run(start, events).history);
             && Splitting(before, events[at]).Ok?
             && (forall d | d in picked :: Sendable(h, d))
             && var t := Splitting(before, events[at]).value;
             && t.frames != []
             && (forall j | 0 <= j < |t.frames| :: Arrived(h, picked, before.history.tracked, j))
             && Deliverable(s, Arrival(Arrivals(h, picked)), NormalAll(t.frames), KeyOnWire(before, events[at]))
    ensures var (before, h) := (Run(start, events[..at]), Run(start, events).history);
            var (stream, key) := (Arrival(Arrivals(h, picked)), KeyOnWire(before, events[at]));
            var results := PushAll(s, stream).results;
            && i < |stream|
            && results[i].Ok? && results[i].value.Some? && results[i].value.value.payload == events[at].payload
            && Have(stream[..i], key) < Have(stream[..i + 1], key) == Have(stream, key)
            && forall j | 0 <= j < i && Of(stream[j], key) :: results[j] == Ok(None)
  {
    hide Run, TrackSplit, Initial, Deliverable, Sendable, PushAll, Normal, Arrival;
    var (e, before, h) := (events[at], Run(start, events[..at]), Run(start, events).history);
    var t := Splitting(before, e).value;
    forall f | f in t.frames ensures f in Flatten(PackedOf(h, picked)) {
      var j :| 0 <= j < |t.frames| && t.frames[j] == f;
      assert Arrived(h, picked, before.history.tracked, j);
      FragmentArrives(start, events, at, picked, j);
    }
    ArrivalsAreWire(h, picked);
    MoreThanOne(|e.payload|, e.maxPayload);
    i := EndToEnd(before.client.window, e.payload, e.maxPayload, e.ordered, e.channel, before.client.splitId, e.now,
                  PackedOf(h, picked), s);
  }

  lemma MoreThanOne(size: nat, m: nat)
    requires size > m >= 1
    ensures FragmentCount(size, m) > 1
  {
    CeilingDivision(size, m);
  }

  /** Whatever datagram was sent for a fragment carries it first. */
  lemma {:induction false} CarrierCarries(start: State, events: seq<Event>, at: nat, d: nat, j: nat)
    requires Initial(start) && at < |events| && events[at].SendReliableEvent?
    requires events[at].track && |events[at].payload| > events[at].maxPayload
    requires var t := Splitting(Run(start, events[..at]), events[at]); t.Ok? && j < |t.value.frames|
    requires var (before, h) := (Run(start, events[..at]), Run(start, events).history);
             d < |h.sent| && h.sent[d].serial == Some(|before.history.tracked| + j)
    ensures var (before, h) := (Run(start, events[..at]), Run(start, events).history);
            h.sent[d].frame == Splitting(before, events[at]).value.frames[j]
  {
    hide Run, TrackSplit, Initial, SendCount, IndexInv, PendingInv, CacheInv, ConservationInv, FreshInv;
    ReachedInv(start, events);
    FragmentsAreTracked(start, events, at, j);
  }

  lemma {:induction false} FragmentArrives(start: State, events: seq<Event>, at: nat, picked: seq<nat>, j: nat)
    requires Initial(start) && at < |events| && events[at].SendReliableEvent?
    requires events[at].track && |events[at].payload| > events[at].maxPayload
    requires var t := Splitting(Run(start, events[..at]), events[at]); t.Ok? && j < |t.value.frames|
    requires var (before, h) := (Run(start, events[..at]), Run(start, events).history);
             && (forall d | d in picked :: Sendable(h, d))
             && Arrived(h, picked, before.history.tracked, j)
    ensures var (before, h) := (Run(start, events[..at]), Run(start, events).history);
            Splitting(before, events[at]).value.frames[j] in Flatten(PackedOf(h, picked))
  {
    hide Run, TrackSplit, Initial, Sendable;
    var (before, h) := (Run(start, events[..at]), Run(start, events).history);
    var d :| d in picked && d < |h.sent| && h.sent[d].serial == Some(|before.history.tracked| + j);
    CarrierCarries(start, events, at, d, j);
    ArrivedFramesAreFlat(h, picked, d);
  }
}
