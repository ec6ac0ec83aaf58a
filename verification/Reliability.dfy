/** ReliabilityWindow: the frames that wait for an acknowledgement, and the indices handed to new ones. */
module Reliability {
  import opened Results
  import opened Bytes
  import Bits
  import opened OrderedDict
  import opened RaknetCodec

  datatype Pending = Pending(frame: Frame, sentAt: real, attempts: nat)

  datatype Window = Window(
    resendAfter: real,
    maxPending: int,
    nextMessageIndex: int,
    nextOrderIndex: map<int, int>,
    pending: Dict<int, Pending>)
  {
    predicate Valid() {
      && 0 <= nextMessageIndex < M24
      && forall c | c in nextOrderIndex :: 0 <= nextOrderIndex[c] < M24
    }

    function OrderIndexFor(ordered: bool, channel: int): int {
      if ordered then Get(nextOrderIndex, channel % 256, 0) else 0
    }

    function OrderAfter(ordered: bool, channel: int): map<int, int> {
      if ordered then nextOrderIndex[channel % 256 := (OrderIndexFor(true, channel) + 1) % M24] else nextOrderIndex
    }
  }

  datatype Tracked = Tracked(window: Window, frames: seq<Frame>)

  function NewWindow(resendAfter: real, maxPending: int): Window {
    Window(resendAfter, maxPending, 0, map[], Empty())
  }

  /** Files one frame under its message index and moves on to the next index. */
  function Admit(w: Window, frame: Frame, now: real): Window {
    w.(nextMessageIndex := (w.nextMessageIndex + 1) % M24,
       pending := Set(w.pending, frame.messageIndex, Pending(frame, now, 1)))
  }

  function AdmitAll(w: Window, frames: seq<Frame>, now: real): Window
    decreases |frames|
  {
    if frames == [] then w else AdmitAll(Admit(w, frames[0], now), frames[1..], now)
  }

  function Track(w: Window, payload: Octets, ordered: bool, channel: int, now: real): Result<Tracked> {
    if |w.pending.keys| >= w.maxPending then Err(BufferError) else
    var frame := Whole(payload, true, ordered, w.nextMessageIndex, w.OrderIndexFor(ordered, channel), channel);
    Ok(Tracked(AdmitAll(w, [frame], now).(nextOrderIndex := w.OrderAfter(ordered, channel)), [frame]))
  }

  /** body[lo:hi], with Python's clamping. */
  function Slice(body: Octets, lo: nat, hi: nat): Octets
    requires lo <= hi
  {
    if hi <= |body| then body[lo..hi] else if lo <= |body| then body[lo..] else []
  }

  function FragmentCount(size: nat, maxPayload: nat): (count: nat)
    requires maxPayload > 0
    ensures count >= 1
  {
    var count := (size + maxPayload - 1) / maxPayload;
    if count > 1 then count else 1
  }

  function Fragment(body: Octets, maxPayload: nat, ordered: bool, first: int, order: int, channel: int, splitId: int,
                    count: nat, index: nat): Frame
  {
    Frame(Slice(body, index * maxPayload, index * maxPayload + maxPayload), true, ordered, (first + index) % M24,
          order, channel,
          0, count, splitId, index, None)
  }

  function Fragments(body: Octets, maxPayload: nat, ordered: bool, first: int, order: int, channel: int, splitId: int,
                     count: nat): (frames: seq<Frame>)
    ensures |frames| == count
    ensures forall i | 0 <= i < count ::
              frames[i] == Fragment(body, maxPayload, ordered, first, order, channel, splitId, count, i)
  {
    seq(count, i requires 0 <= i < count => Fragment(body, maxPayload, ordered, first, order, channel, splitId, count,
                                                     i))
  }

  function TrackSplit(w: Window, body: Octets, maxPayload: int, ordered: bool, channel: int, splitId: int, now: real)
    : Result<Tracked>
  {
    if maxPayload <= 0 then Err(ValueError) else
    var count := FragmentCount(|body|, maxPayload);
    if count == 1 then Track(w, body, ordered, channel, now)
    else if |w.pending.keys| + count > w.maxPending then Err(BufferError)
    else
      var frames := Fragments(body, maxPayload, ordered, w.nextMessageIndex, w.OrderIndexFor(ordered, channel),
                              channel % 256, splitId % 0x1_0000, count);
      Ok(Tracked(AdmitAll(w, frames, now).(nextOrderIndex := w.OrderAfter(ordered, channel)), frames))
  }

  function Acknowledge(w: Window, index: int): Window {
    w.(pending := Pop(w.pending, index % M24))
  }

  predicate IsDue(p: Pending, now: real, resendAfter: real) {
    now - p.sentAt >= resendAfter
  }

  function Refresh(p: Pending, now: real, resendAfter: real): Pending {
    if IsDue(p, now, resendAfter) then p.(sentAt := now, attempts := p.attempts + 1) else p
  }

  function RefreshAll(d: Dict<int, Pending>, now: real, resendAfter: real): (r: Dict<int, Pending>)
    ensures r.keys == d.keys
    ensures r.at.Keys == d.at.Keys
    ensures forall k | k in d.at :: r.at[k] == Refresh(d.at[k], now, resendAfter)
  {
    var at := map k | k in d.at :: Refresh(d.at[k], now, resendAfter);
    assert at.Keys == d.at.Keys;
    RawDict(d.keys, at)
  }

  /** The refreshed entries that were due, in dictionary order from position i on. */
  function DueFrom(d: Dict<int, Pending>, i: nat, now: real, resendAfter: real): seq<Pending>
    requires i <= |d.keys|
    decreases |d.keys| - i
  {
    if i == |d.keys| then [] else
    assert d.keys[i] in d.at;
    var entry := d.at[d.keys[i]];
    var rest := DueFrom(d, i + 1, now, resendAfter);
    if IsDue(entry, now, resendAfter) then [Refresh(entry, now, resendAfter)] + rest else rest
  }

  datatype DueResult = DueResult(window: Window, ready: seq<Pending>)

  function Due(w: Window, now: real): DueResult {
    DueResult(w.(pending := RefreshAll(w.pending, now, w.resendAfter)),
              DueFrom(w.pending, 0, now, w.resendAfter))
  }

  /** How the pass over the pending frames leaves the dictionary after its first i entries. */
  ghost predicate RefreshedUpTo(before: Dict<int, Pending>, d: Dict<int, Pending>, i: nat, now: real,
                                resendAfter: real) {
    && i <= |before.keys|
    && d.keys == before.keys && d.at.Keys == before.at.Keys
    && forall j | 0 <= j < |before.keys| ::
         && before.keys[j] in before.at
         && d.at[before.keys[j]]
            == if j < i then Refresh(before.at[before.keys[j]], now, resendAfter) else before.at[before.keys[j]]
  }

  lemma RefreshedNone(d: Dict<int, Pending>, now: real, resendAfter: real)
    ensures RefreshedUpTo(d, d, 0, now, resendAfter)
  {}

  lemma RefreshedStep(before: Dict<int, Pending>, d: Dict<int, Pending>, i: nat, now: real, resendAfter: real)
    requires RefreshedUpTo(before, d, i, now, resendAfter) && i < |before.keys|
    ensures d.keys == before.keys && before.keys[i] in before.at
    ensures var k := before.keys[i];
            && k in d.at && d.at[k] == before.at[k]
            && var r := Refresh(d.at[k], now, resendAfter);
            && RefreshedUpTo(before, if IsDue(d.at[k], now, resendAfter) then Set(d, k, r) else d, i + 1, now,
                             resendAfter)
            && DueFrom(before, i, now, resendAfter)
               == (if IsDue(d.at[k], now, resendAfter) then [r] else []) + DueFrom(before, i + 1, now, resendAfter)
  {
    hide IsDue;
    var k := before.keys[i];
    assert before.keys[i] in before.at;
    assert d.at[k] == before.at[k];
  }

  lemma RefreshedWholly(before: Dict<int, Pending>, d: Dict<int, Pending>, now: real, resendAfter: real)
    requires RefreshedUpTo(before, d, |before.keys|, now, resendAfter)
    ensures d == RefreshAll(before, now, resendAfter)
    ensures DueFrom(before, |before.keys|, now, resendAfter) == []
  {
    hide Refresh;
    var whole := RefreshAll(before, now, resendAfter);
    forall k | k in d.at ensures d.at[k] == whole.at[k] {
      assert k in before.keys;
    }
    assert d.at == whole.at;
  }

  lemma AdmitNone(w: Window, now: real)
    ensures AdmitAll(w, [], now) == w
  {}

  lemma {:induction false} AdmitAllSteps(w: Window, frames: seq<Frame>, last: Frame, now: real)
    ensures AdmitAll(w, frames + [last], now) == Admit(AdmitAll(w, frames, now), last, now)
    decreases |frames|
  {
    if frames == [] {
      assert (frames + [last])[1..] == [];
    } else {
      assert (frames + [last])[1..] == frames[1..] + [last];
      AdmitAllSteps(Admit(w, frames[0], now), frames[1..], last, now);
    }
  }

  lemma WrapStep(a: int, n: nat)
    ensures ((a + n) % M24 + 1) % M24 == (a + n + 1) % M24
    ensures ((a + 1) % M24 + n) % M24 == (a + n + 1) % M24
  {}

  lemma {:induction false} AdmitAllCounts(w: Window, frames: seq<Frame>, now: real)
    requires 0 <= w.nextMessageIndex < M24
    ensures AdmitAll(w, frames, now).nextMessageIndex == (w.nextMessageIndex + |frames|) % M24
    decreases |frames|
  {
    hide Set;
    if frames != [] {
      WrapStep(w.nextMessageIndex, |frames| - 1);
      AdmitAllCounts(Admit(w, frames[0], now), frames[1..], now);
    }
  }

  lemma {:induction false} AdmitAllKeeps(w: Window, frames: seq<Frame>, now: real)
    ensures var r := AdmitAll(w, frames, now);
            && r.nextOrderIndex == w.nextOrderIndex && r.maxPending == w.maxPending && r.resendAfter == w.resendAfter
            && |r.pending.keys| <= |w.pending.keys| + |frames|
    decreases |frames|
  {
    if frames != [] {
      AdmitAllKeeps(Admit(w, frames[0], now), frames[1..], now);
    }
  }

  // ---- the class ------------------------------------------------------------

  class ReliabilityWindow {
    var resendAfter: real
    var maxPending: int
    var nextMessageIndex: int
    var nextOrderIndex: map<int, int>
    var pending: Dict<int, Pending>

    ghost function Model(): Window
      reads this
    {
      Window(resendAfter, maxPending, nextMessageIndex, nextOrderIndex, pending)
    }

    constructor (resendAfter: real := 0.75, maxPending: int := 4096)
      ensures Model() == NewWindow(resendAfter, maxPending)
    {
      this.resendAfter, this.maxPending := resendAfter, maxPending;
      nextMessageIndex, nextOrderIndex, pending := 0, map[], Empty();
    }

    method TrackFrame(payload: Octets, ordered: bool, channel: int, now: real) returns (r: Result<Frame>)
      requires Model().Valid()
      modifies this
      ensures Model().Valid()
      ensures match Track(old(Model()), payload, ordered, channel, now)
              case Err(e) => r == Err(e) && Model() == old(Model())
              case Ok(t) => r == Ok(t.frames[0]) && Model() == t.window
    {
      if |pending.keys| >= maxPending {
        return Err(BufferError);
      }
      var order := if ordered then Get(nextOrderIndex, channel % 256, 0) else 0;
      var frame := Whole(payload, true, ordered, nextMessageIndex, order, channel);
      if ordered {
        nextOrderIndex := nextOrderIndex[channel % 256 := (order + 1) % M24];
      }
      File(frame, now);
      assert AdmitAll(old(Model()), [frame], now) == Admit(old(Model()), frame, now);
      r := Ok(frame);
    }

    method TrackSplitFrames(body: Octets, maxPayload: int, ordered: bool, channel: int, splitId: int, now: real)
      returns (r: Result<seq<Frame>>)
      requires Model().Valid()
      modifies this
      ensures Model().Valid()
      ensures match TrackSplit(old(Model()), body, maxPayload, ordered, channel, splitId, now)
              case Err(e) => r == Err(e) && Model() == old(Model())
              case Ok(t) => r == Ok(t.frames) && Model() == t.window
    {
      hide AdmitAll, Fragments, FragmentCount;
      if maxPayload <= 0 {
        return Err(ValueError);
      }
      var count := FragmentCount(|body|, maxPayload);
      if count == 1 {
        var single := TrackFrame(body, ordered, channel, now);
        return if single.Ok? then Ok([single.value]) else Err(single.error);
      }
      if |pending.keys| + count > maxPending {
        return Err(BufferError);
      }
      var orderChannel := channel % 256;
      var order := if ordered then Get(nextOrderIndex, orderChannel, 0) else 0;
      var frames := FileFragments(body, maxPayload, ordered, order, orderChannel, splitId % 0x1_0000, count, now);
      if ordered {
        nextOrderIndex := nextOrderIndex[orderChannel := (order + 1) % M24];
      }
      r := Ok(frames);
    }

    /** The loop of track_split: cut, number and file the fragments one by one. */
    method FileFragments(body: Octets, maxPayload: nat, ordered: bool, order: int, channel: int, splitId: int,
                         count: nat, now: real) returns (frames: seq<Frame>)
      requires Model().Valid()
      modifies this`nextMessageIndex, this`pending
      ensures frames == Fragments(body, maxPayload, ordered, old(nextMessageIndex), order, channel, splitId, count)
      ensures Model() == AdmitAll(old(Model()), frames, now)
      ensures Model().Valid()
    {
      hide AdmitAll, Admit, Slice;
      ghost var first := nextMessageIndex;
      AdmitNone(Model(), now);
      frames := [];
      for index := 0 to count
        invariant |frames| == index
        invariant forall i | 0 <= i < index ::
                    frames[i] == Fragment(body, maxPayload, ordered, first, order, channel, splitId, count, i)
        invariant Model() == AdmitAll(old(Model()), frames, now)
        invariant nextMessageIndex == (first + index) % M24
      {
        var lo := index * maxPayload;
        var frame := Frame(Slice(body, lo, lo + maxPayload), true, ordered, nextMessageIndex, order, channel,
                           0, count, splitId, index, None);
        File(frame, now);
        AdmitAllSteps(old(Model()), frames, frame, now);
        WrapStep(first, index);
        frames := frames + [frame];
      }
    }

    method File(frame: Frame, now: real)
      modifies this`nextMessageIndex, this`pending
      ensures Model() == Admit(old(Model()), frame, now)
      ensures nextMessageIndex == (old(nextMessageIndex) + 1) % M24
    {
      nextMessageIndex := (nextMessageIndex + 1) % M24;
      pending := Set(pending, frame.messageIndex, Pending(frame, now, 1));
    }

    method AcknowledgeFrame(index: int) returns (found: bool)
      modifies this`pending
      ensures Model() == Acknowledge(old(Model()), index)
      ensures found <==> index % M24 in old(pending).at
    {
      found := index % M24 in pending.at;
      pending := Pop(pending, index % M24);
    }

    method DueFrames(now: real) returns (ready: seq<Pending>)
      modifies this`pending
      ensures DueResult(Model(), ready) == Due(old(Model()), now)
    {
      hide DueFrom, RefreshedUpTo, RefreshAll, Set;
      ready := [];
      var keys := pending.keys;
      ghost var before := pending;
      RefreshedNone(before, now, resendAfter);
      for i := 0 to |keys|
        invariant RefreshedUpTo(before, pending, i, now, resendAfter)
        invariant ready + DueFrom(before, i, now, resendAfter) == DueFrom(before, 0, now, resendAfter)
      {
        RefreshedStep(before, pending, i, now, resendAfter);
        var entry := pending.at[keys[i]];
        if now - entry.sentAt >= resendAfter {
          var refreshed := entry.(sentAt := now, attempts := entry.attempts + 1);
          pending := Set(pending, keys[i], refreshed);
          ready := ready + [refreshed];
        }
      }
      RefreshedWholly(before, pending, now, resendAfter);
    }
  }

  // ---- fragmentation ----------------------------------------------------------

  function JoinPayloads(frames: seq<Frame>): Octets {
    if frames == [] then [] else frames[0].payload + JoinPayloads(frames[1..])
  }

  /** Ceiling division: n payloads of at most m bytes suffice exactly when n is at least the count. */
  lemma {:induction false} CeilingDivision(size: nat, m: nat)
    requires m > 0
    ensures var count := FragmentCount(size, m);
            && size <= count * m
            && (count > 1 ==> (count - 1) * m < size)
  {
    var q, r := (size + m - 1) / m, (size + m - 1) % m;
    assert size + m - 1 == q * m + r;
    if q > 1 {
      assert (q - 1) * m == q * m - m;
    } else if q == 0 {
      assert q * m == 0;
    }
  }

  lemma {:induction false} FragmentBounds(size: nat, m: nat, index: nat)
    requires m > 0 && index < FragmentCount(size, m) && FragmentCount(size, m) > 1
    ensures 0 <= index * m < size
    ensures index + 1 < FragmentCount(size, m) ==> index * m + m < size
    ensures index + 1 == FragmentCount(size, m) ==> index * m + m >= size
  {
    var count := FragmentCount(size, m);
    CeilingDivision(size, m);
    assert (index + 1) * m == index * m + m;
    assert index * m <= (count - 1) * m by { Bits.MulLe(index, count - 1, m); }
    if index + 1 < count {
      Bits.MulLe(index + 1, count - 1, m);
    }
  }

  /** Fragmenting loses nothing: the pieces, each of 1 to max_payload bytes, are the payload end to end. */
  lemma {:induction false} FragmentsJoin(frames: seq<Frame>, body: Octets, m: nat, ordered: bool, first: int,
                                         order: int, channel: int, splitId: int)
    requires m > 0 && FragmentCount(|body|, m) > 1
    requires frames == Fragments(body, m, ordered, first, order, channel, splitId, FragmentCount(|body|, m))
    ensures JoinPayloads(frames) == body
    ensures forall f | f in frames :: 1 <= |f.payload| <= m
  {
    JoinFrom(frames, 0, body, m, ordered, first, order, channel, splitId);
    forall i | 0 <= i < |frames| ensures 1 <= |frames[i].payload| <= m {
      FragmentBounds(|body|, m, i);
    }
    assert frames[0..] == frames;
  }

  lemma {:induction false} JoinFrom(frames: seq<Frame>, i: nat, body: Octets, m: nat, ordered: bool, first: int,
                                    order: int, channel: int, splitId: int)
    requires m > 0 && FragmentCount(|body|, m) > 1
    requires frames == Fragments(body, m, ordered, first, order, channel, splitId, FragmentCount(|body|, m))
    requires i < |frames|
    ensures i * m <= |body| && JoinPayloads(frames[i..]) == body[i * m..]
    decreases |frames| - i
  {
    hide FragmentCount, Slice;
    FragmentBounds(|body|, m, i);
    assert frames[i..][0] == frames[i] && frames[i..][1..] == frames[i + 1..];
    assert (i + 1) * m == i * m + m;
    var lo, hi := i * m, i * m + m;
    assert frames[i].payload == Slice(body, lo, hi);
    SliceSplits(body, lo, hi);
    if i + 1 < |frames| {
      JoinFrom(frames, i + 1, body, m, ordered, first, order, channel, splitId);
    } else {
      assert frames[i + 1..] == [];
    }
  }

  lemma SliceSplits(body: Octets, lo: nat, hi: nat)
    requires lo <= |body| && lo <= hi
    ensures hi <= |body| ==> Slice(body, lo, hi) + body[hi..] == body[lo..]
    ensures hi >= |body| ==> Slice(body, lo, hi) == body[lo..]
  {}

  // ---- index assignment over runs -----------------------------------------------

  datatype Operation =
    | TrackOp(payload: Octets, ordered: bool, channel: int, now: real)
    | SplitOp(payload: Octets, maxPayload: int, ordered: bool, channel: int, splitId: int, now: real)
    | AckOp(index: int)
    | DueOp(now: real)

  /** One accepted application message and the frames it became. */
  datatype Message = Message(frames: seq<Frame>, ordered: bool, channel: int)

  datatype Ledger = Ledger(window: Window, log: seq<Message>)

  function Accept(s: Ledger, r: Result<Tracked>, ordered: bool, channel: int): Ledger {
    match r
    case Err(_) => s
    case Ok(t) => Ledger(t.window, s.log + [Message(t.frames, ordered, channel)])
  }

  function Operate(s: Ledger, op: Operation): Ledger {
    match op
    case TrackOp(payload, ordered, channel, now) =>
      Accept(s, Track(s.window, payload, ordered, channel, now), ordered, channel)
    case SplitOp(payload, maxPayload, ordered, channel, splitId, now) =>
      Accept(s, TrackSplit(s.window, payload, maxPayload, ordered, channel, splitId, now), ordered, channel)
    case AckOp(index) => s.(window := Acknowledge(s.window, index))
    case DueOp(now) => s.(window := Due(s.window, now).window)
  }

  function OperateAll(s: Ledger, ops: seq<Operation>): Ledger {
    if ops == [] then s else Operate(OperateAll(s, ops[..|ops| - 1]), ops[|ops| - 1])
  }

  function FramesIn(log: seq<Message>): nat {
    if log == [] then 0 else FramesIn(log[..|log| - 1]) + |log[|log| - 1].frames|
  }

  /** How many ordered messages went to a channel. */
  function OrderedOn(log: seq<Message>, channel: int): nat {
    if log == [] then 0 else
    var m := log[|log| - 1];
    OrderedOn(log[..|log| - 1], channel) + if m.ordered && m.channel % 256 == channel then 1 else 0
  }

  /** The frames of a message carry the indices that the messages before it leave for them. */
  ghost predicate IndexedAfter(before: seq<Message>, m: Message) {
    forall j | 0 <= j < |m.frames| ::
      var f := m.frames[j];
      && f.messageIndex == (FramesIn(before) + j) % M24
      && f.ordered == m.ordered && f.orderChannel % 256 == m.channel % 256
      && f.orderIndex == if m.ordered then OrderedOn(before, m.channel % 256) % M24 else 0
  }

  ghost predicate WellIndexed(log: seq<Message>) {
    forall a | 0 <= a < |log| :: IndexedAfter(log[..a], log[a])
  }

  ghost predicate LedgerInv(s: Ledger) {
    && WellIndexed(s.log)
    && s.window.nextMessageIndex == FramesIn(s.log) % M24
    && (forall c :: Get(s.window.nextOrderIndex, c, 0) == OrderedOn(s.log, c) % M24)
    && |s.window.pending.keys| <= if s.window.maxPending > 0 then s.window.maxPending else 0
  }

  /** What both ways of tracking have in common. */
  ghost predicate Shape(w: Window, r: Result<Tracked>, ordered: bool, channel: int, now: real) {
    r.Ok? ==>
      var frames := r.value.frames;
      && r.value.window == AdmitAll(w, frames, now).(nextOrderIndex := w.OrderAfter(ordered, channel))
      && 0 < |frames| && |w.pending.keys| + |frames| <= w.maxPending
      && forall j | 0 <= j < |frames| ::
           && frames[j].messageIndex == (w.nextMessageIndex + j) % M24
           && frames[j].ordered == ordered && frames[j].orderChannel % 256 == channel % 256
           && frames[j].orderIndex == w.OrderIndexFor(ordered, channel)
  }

  lemma TrackShape(w: Window, payload: Octets, ordered: bool, channel: int, now: real)
    requires 0 <= w.nextMessageIndex < M24
    ensures Shape(w, Track(w, payload, ordered, channel, now), ordered, channel, now)
  {
    hide AdmitAll;
  }

  lemma TrackSplitShape(w: Window, body: Octets, maxPayload: int, ordered: bool, channel: int, splitId: int, now: real)
    requires 0 <= w.nextMessageIndex < M24
    ensures Shape(w, TrackSplit(w, body, maxPayload, ordered, channel, splitId, now), ordered, channel, now)
  {
    hide AdmitAll, Track, FragmentCount, Slice;
    TrackShape(w, body, ordered, channel, now);
  }

  lemma {:induction false} OperateKeepsInv(s: Ledger, op: Operation)
    requires LedgerInv(s)
    ensures LedgerInv(Operate(s, op))
  {
    hide WellIndexed, Track, TrackSplit, Shape;
    match op {
      case TrackOp(payload, ordered, channel, now) =>
        TrackShape(s.window, payload, ordered, channel, now);
        AcceptKeepsInv(s, Track(s.window, payload, ordered, channel, now), ordered, channel, now);
      case SplitOp(payload, maxPayload, ordered, channel, splitId, now) =>
        TrackSplitShape(s.window, payload, maxPayload, ordered, channel, splitId, now);
        AcceptKeepsInv(s, TrackSplit(s.window, payload, maxPayload, ordered, channel, splitId, now), ordered, channel,
                       now);
      case AckOp(_) =>
      case DueOp(_) =>
    }
  }

  lemma {:induction false} AcceptKeepsInv(s: Ledger, r: Result<Tracked>, ordered: bool, channel: int, now: real)
    requires LedgerInv(s)
    requires Shape(s.window, r, ordered, channel, now)
    ensures LedgerInv(Accept(s, r, ordered, channel))
  {
    hide AdmitAll;
    if r.Ok? {
      AcceptKeepsIndices(s, r.value, ordered, channel, now);
      AcceptKeepsCounters(s, r.value, ordered, channel, now);
    }
  }

  lemma {:induction false} AcceptKeepsIndices(s: Ledger, t: Tracked, ordered: bool, channel: int, now: real)
    requires LedgerInv(s)
    requires Shape(s.window, Ok(t), ordered, channel, now)
    ensures WellIndexed(Accept(s, Ok(t), ordered, channel).log)
  {
    hide IndexedAfter, Shape;
    NewMessageIndexed(s, t, ordered, channel, now);
    var log := s.log + [Message(t.frames, ordered, channel)];
    forall a | 0 <= a < |log| ensures IndexedAfter(log[..a], log[a]) {
      assert log[..a] == s.log[..a];
    }
    assert s.log[..|s.log|] == s.log;
  }

  lemma NewMessageIndexed(s: Ledger, t: Tracked, ordered: bool, channel: int, now: real)
    requires LedgerInv(s)
    requires Shape(s.window, Ok(t), ordered, channel, now)
    ensures IndexedAfter(s.log, Message(t.frames, ordered, channel))
  {
    hide AdmitAll, FramesIn, OrderedOn, WellIndexed;
    assert s.window.OrderIndexFor(ordered, channel) == if ordered then OrderedOn(s.log, channel % 256) % M24 else 0;
    forall j | 0 <= j < |t.frames| ensures t.frames[j].messageIndex == (FramesIn(s.log) + j) % M24 {
      IndexWraps(s.window.nextMessageIndex, FramesIn(s.log), j);
    }
  }

  lemma IndexWraps(next: int, total: nat, j: nat)
    requires next == total % M24
    ensures (next + j) % M24 == (total + j) % M24
  {}

  lemma {:induction false} AcceptKeepsCounters(s: Ledger, t: Tracked, ordered: bool, channel: int, now: real)
    requires LedgerInv(s)
    requires Shape(s.window, Ok(t), ordered, channel, now)
    ensures var s' := Accept(s, Ok(t), ordered, channel);
            && s'.window.nextMessageIndex == FramesIn(s'.log) % M24
            && (forall c :: Get(s'.window.nextOrderIndex, c, 0) == OrderedOn(s'.log, c) % M24)
            && |s'.window.pending.keys| <= s'.window.maxPending
  {
    hide AdmitAll, WellIndexed;
    var s' := Accept(s, Ok(t), ordered, channel);
    assert s'.log[..|s.log|] == s.log;
    AdmitAllCounts(s.window, t.frames, now);
    AdmitAllKeeps(s.window, t.frames, now);
  }

  /**
   * Over any mix of operations the n-th tracked frame has message index n mod 2^24, and every frame of the k-th
   * ordered message on a channel has order index k mod 2^24, whatever happened on the other channels.
   */
  lemma {:induction false} IndexAssignment(resendAfter: real, maxPending: int, ops: seq<Operation>)
    ensures LedgerInv(OperateAll(Ledger(NewWindow(resendAfter, maxPending), []), ops))
  {
    if ops != [] {
      IndexAssignment(resendAfter, maxPending, ops[..|ops| - 1]);
      OperateKeepsInv(OperateAll(Ledger(NewWindow(resendAfter, maxPending), []), ops[..|ops| - 1]), ops[|ops| - 1]);
    }
  }
}
