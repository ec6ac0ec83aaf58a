/**
 * The two records of the receiver that are not about messages: how many split messages were joined, and the last
 * sequence.
 */
module ReceiverCounts {
  import opened Results
  import opened Bytes
  import opened RaknetCodec
  import opened SplitReassembly
  import opened Replication
  import opened ReceiverRuns
  import opened Reception
  import FrameLayout
  import AckLayout

  /** How many of the pushes were of fragments and returned a message, empty ones included. */
  function Joined(frames: seq<Frame>, results: seq<Result<Option<Frame>>>): nat
    requires |frames| == |results|
  {
    if frames == [] then 0 else
    Joined(frames[1..], results[1..])
    + if frames[0].splitCount > 0 && results[0].Ok? && results[0].value.Some? then 1 else 0
  }

  lemma {:induction false} ResultEach(s: Groups, frames: seq<Frame>)
    ensures |PushAll(s, frames).results| == |frames|
    decreases |frames|
  {
    hide Push;
    if frames != [] { ResultEach(s, frames[..|frames| - 1]); }
  }

  lemma {:induction false} JoinedOfConcat(a: seq<Frame>, x: seq<Result<Option<Frame>>>, b: seq<Frame>,
                                          y: seq<Result<Option<Frame>>>)
    requires |a| == |x| && |b| == |y|
    ensures Joined(a + b, x + y) == Joined(a, x) + Joined(b, y)
    decreases |a|
  {
    if a == [] {
      assert a + b == b && x + y == y;
    } else {
      assert (a + b)[1..] == a[1..] + b && (x + y)[1..] == x[1..] + y;
      JoinedOfConcat(a[1..], x[1..], b, y);
    }
  }

  /** The count of joined messages in the evidence. */
  function CountOf(r: Receiver): nat {
    r.evidence.splitCompleted
  }

  lemma IdKeeps(e: Evidence, id: Byte)
    ensures ApplyId(e, id).splitCompleted == e.splitCompleted && ApplyId(e, id).lastSequence == e.lastSequence
  {
    hide Bump;
  }

  lemma BlockKeeps(e: Evidence, p: Profile, payload: Octets)
    requires IsBlock(payload)
    ensures var e' := ObserveBlock(e, p, payload);
            e'.splitCompleted == e.splitCompleted && e'.lastSequence == e.lastSequence
  {
    hide Bump;
  }

  lemma ObserveKeeps(e: Evidence, p: Profile, payload: Octets)
    requires payload != []
    ensures Observe(e, p, payload).splitCompleted == e.splitCompleted
    ensures Observe(e, p, payload).lastSequence == e.lastSequence
  {
    hide ApplyId, ObserveBlock;
    IdKeeps(e, payload[0]);
    if IsBlock(payload) { BlockKeeps(ApplyId(e, payload[0]), p, payload); }
  }

  lemma {:induction false} FrameJoins(r: Receiver, p: Profile, f: Frame)
    ensures CountOf(ApplyFrame(r, p, f).receiver) == CountOf(r) + Joined([Raw(f)], [Push(r.groups, Raw(f)).result])
  {
    hide Push, Observe;
    var result := Push(r.groups, Raw(f)).result;
    assert [Raw(f)][1..] == [] && [result][1..] == [] && Joined([], []) == 0;
    if result.Ok? && result.value.Some? && result.value.value.payload != [] {
      var e := if f.Split() then r.evidence.(splitCompleted := r.evidence.splitCompleted + 1) else r.evidence;
      ObserveKeeps(e, p, result.value.value.payload);
    }
  }

  lemma {:induction false} FramesJoin(r: Receiver, p: Profile, frames: seq<Frame>)
    ensures var pushed := PushedFrames(r.groups, frames);
            && |PushAll(r.groups, pushed).results| == |pushed|
            && CountOf(ApplyFrames(r, p, frames).receiver)
               == CountOf(r) + Joined(pushed, PushAll(r.groups, pushed).results)
    decreases |frames|
  {
    hide ApplyFrame, Push, Raw, PushAll, CountOf;
    ResultEach(r.groups, PushedFrames(r.groups, frames));
    NothingPushed(r.groups);
    if frames != [] {
      var (f, first) := (Raw(frames[0]), ApplyFrame(r, p, frames[0]));
      FramePushes(r, p, frames[0]);
      FrameJoins(r, p, frames[0]);
      PushOne(r.groups, f);
      if first.raised.None? {
        var rest := PushedFrames(first.receiver.groups, frames[1..]);
        FramesJoin(first.receiver, p, frames[1..]);
        PushAllOfConcat(r.groups, [f], rest);
        JoinedOfConcat([f], [Push(r.groups, f).result], rest, PushAll(first.receiver.groups, rest).results);
        AfterCounts(first.complete, ApplyFrames(first.receiver, p, frames[1..]));
      } else {
        assert [f] + [] == [f];
      }
    }
  }

  lemma AfterCounts(complete: seq<Replication.Complete>, a: Applied)
    ensures CountOf(After(complete, a).receiver) == CountOf(a.receiver)
  {}

  lemma {:induction false} DatagramJoins(r: Receiver, p: Profile, data: Octets)
    ensures var pushed := PushedFrames(r.groups, FramesOf(data));
            && |PushAll(r.groups, pushed).results| == |pushed|
            && CountOf(ApplyDatagram(r, p, data).receiver)
               == CountOf(r) + Joined(pushed, PushAll(r.groups, pushed).results)
  {
    hide ParseDatagram, ApplyFrames, PushAll, PushedFrames, Joined;
    var parsed := ParseDatagram(data);
    FramesJoin(r, p, []);
    if parsed.Ok? && parsed.value.DataPacket? {
      FramesJoin(r.(evidence := r.evidence.(lastSequence := Some(parsed.value.sequence))), p, parsed.value.frames);
    } else {
      NothingJoins(r, p);
    }
  }

  lemma NothingJoins(r: Receiver, p: Profile)
    ensures PushedFrames(r.groups, []) == [] && PushAll(r.groups, []).results == [] && Joined([], []) == 0
  {}

  /** Over every run, whatever raises, the count grows by one for each fragment whose push returns a message. */
  lemma {:induction false} JoinedAreCounted(r: Receiver, p: Profile, datagrams: seq<Octets>)
    ensures var pushed := PushedRun(r.groups, datagrams);
            && |PushAll(r.groups, pushed).results| == |pushed|
            && ApplyRun(r, p, datagrams).evidence.splitCompleted
               == r.evidence.splitCompleted + Joined(pushed, PushAll(r.groups, pushed).results)
    decreases |datagrams|
  {
    hide ApplyDatagram, PushAll, PushedFrames, FramesOf, Joined;
    NothingJoins(r, p);
    if datagrams != [] {
      var (front, last) := (datagrams[..|datagrams| - 1], datagrams[|datagrams| - 1]);
      var sofar := PushedRun(r.groups, front);
      var pushes := PushAll(r.groups, sofar);
      var more := PushedFrames(pushes.state, FramesOf(last));
      JoinedAreCounted(r, p, front);
      RunIsPushes(r, p, front);
      DatagramJoins(ApplyRun(r, p, front), p, last);
      PushAllOfConcat(r.groups, sofar, more);
      JoinedOfConcat(sofar, pushes.results, more, PushAll(pushes.state, more).results);
    }
  }

  // ---- the last sequence --------------------------------------------------------------------------

  /** The number in the latest datagram that is data and whole, read lowest byte first. */
  function LatestNumber(datagrams: seq<Octets>): Option<nat> {
    if datagrams == [] then None else
    var last := datagrams[|datagrams| - 1];
    if |last| >= 4 && 0x80 <= last[0] < 0xC0 && ParseFrames(last[4..]).Ok? then Some(FrameLayout.Read24(last, 1))
    else LatestNumber(datagrams[..|datagrams| - 1])
  }

  lemma {:induction false} FramesKeepSequence(r: Receiver, p: Profile, frames: seq<Frame>)
    ensures ApplyFrames(r, p, frames).receiver.evidence.lastSequence == r.evidence.lastSequence
    decreases |frames|
  {
    hide ApplyFrame, After;
    if frames != [] {
      var first := ApplyFrame(r, p, frames[0]);
      FrameKeepsSequence(r, p, frames[0]);
      if first.raised.None? {
        FramesKeepSequence(first.receiver, p, frames[1..]);
        AfterKeeps(first.complete, ApplyFrames(first.receiver, p, frames[1..]));
      }
    }
  }

  lemma FrameKeepsSequence(r: Receiver, p: Profile, f: Frame)
    ensures ApplyFrame(r, p, f).receiver.evidence.lastSequence == r.evidence.lastSequence
  {
    hide Push, Observe;
    var result := Push(r.groups, Raw(f)).result;
    if result.Ok? && result.value.Some? && result.value.value.payload != [] {
      var e := if f.Split() then r.evidence.(splitCompleted := r.evidence.splitCompleted + 1) else r.evidence;
      ObserveKeeps(e, p, result.value.value.payload);
    }
  }

  lemma AfterKeeps(complete: seq<Replication.Complete>, a: Applied)
    ensures After(complete, a).receiver == a.receiver
  {}

  /**
   * Over every run the record holds the sequence number of the latest whole data datagram, even if a push in it
   * raised.
   */
  lemma {:induction false} SequenceIsLatest(p: Profile, groups: Groups, datagrams: seq<Octets>)
    ensures ApplyRun(Receiver(NoEvidence(), groups), p, datagrams).evidence.lastSequence == LatestNumber(datagrams)
    decreases |datagrams|
  {
    hide ParseDatagram, ApplyFrames, ParseFrames, FrameLayout.Read24;
    if datagrams != [] {
      var (front, last) := (datagrams[..|datagrams| - 1], datagrams[|datagrams| - 1]);
      SequenceIsLatest(p, groups, front);
      AckLayout.DatagramKinds(last);
      var (r, parsed) := (ApplyRun(Receiver(NoEvidence(), groups), p, front), ParseDatagram(last));
      if parsed.Ok? && parsed.value.DataPacket? {
        FramesKeepSequence(r.(evidence := r.evidence.(lastSequence := Some(parsed.value.sequence))), p,
                           parsed.value.frames);
      }
    }
  }
}
