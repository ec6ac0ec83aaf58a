/**
 * What the receiver's flags say: over every run, whatever raises, the evidence is what the complete messages make of it
 * one after the other, and each flag holds exactly if some message, or the latest that decides it, says so.
 */
module EvidenceFlags {
  import opened Results
  import opened Bytes
  import opened RaknetCodec
  import opened SplitReassembly
  import opened Replication
  import opened ReceiverRuns

  // ---- the evidence is a fold -----------------------------------------------------------------

  /** What the messages make of an empty record, one after the other. */
  function Folded(p: Profile, messages: seq<Octets>): Evidence {
    if messages == [] then NoEvidence() else
    var (front, last) := (Folded(p, messages[..|messages| - 1]), messages[|messages| - 1]);
    if last == [] then front else Observe(front, p, last)
  }

  /** The evidence apart from the two fields that are not about messages. */
  function Core(e: Evidence): Evidence {
    e.(splitCompleted := 0, lastSequence := None)
  }

  lemma IdIgnores(e: Evidence, id: Byte)
    ensures Core(ApplyId(e, id)) == Core(ApplyId(Core(e), id))
  {
    hide Bump;
  }

  lemma BlockIgnores(e: Evidence, e': Evidence, p: Profile, payload: Octets)
    requires IsBlock(payload) && Core(e) == Core(e')
    ensures Core(ObserveBlock(e, p, payload)) == Core(ObserveBlock(e', p, payload))
  {
    hide Bump;
  }

  lemma ObserveIgnores(e: Evidence, p: Profile, payload: Octets)
    requires payload != []
    ensures Core(Observe(e, p, payload)) == Core(Observe(Core(e), p, payload))
  {
    hide ApplyId, ObserveBlock, Core;
    IdIgnores(e, payload[0]);
    if IsBlock(payload) { BlockIgnores(ApplyId(e, payload[0]), ApplyId(Core(e), payload[0]), p, payload); }
  }

  lemma FoldOneMore(p: Profile, messages: seq<Octets>, last: Octets)
    requires last != []
    ensures Folded(p, messages + [last]) == Observe(Folded(p, messages), p, last)
  {
    hide Observe;
    assert (messages + [last])[..|messages|] == messages;
  }

  ghost predicate IsFold(e: Evidence, p: Profile, messages: seq<Octets>) {
    Core(e) == Core(Folded(p, messages))
  }

  lemma FoldStep(e: Evidence, p: Profile, messages: seq<Octets>, payload: Octets)
    requires IsFold(e, p, messages) && payload != []
    ensures IsFold(Observe(e, p, payload), p, messages + [payload])
  {
    hide Observe, Core;
    FoldOneMore(p, messages, payload);
    ObserveIgnores(e, p, payload);
    ObserveIgnores(Folded(p, messages), p, payload);
  }

  lemma CoreIgnores(e: Evidence, e': Evidence)
    requires e' == e.(splitCompleted := e'.splitCompleted, lastSequence := e'.lastSequence)
    ensures Core(e') == Core(e)
  {}

  lemma {:induction false} FrameFolds(r: Receiver, p: Profile, f: Frame, messages: seq<Octets>)
    requires IsFold(r.evidence, p, messages)
    ensures var a := ApplyFrame(r, p, f); IsFold(a.receiver.evidence, p, messages + Payloads(a.complete))
  {
    hide Push, Observe, Folded, Core;
    var pushed := Push(r.groups, Raw(f));
    assert messages + [] == messages;
    if pushed.result.Ok? && pushed.result.value.Some? {
      var e := if f.Split() then r.evidence.(splitCompleted := r.evidence.splitCompleted + 1) else r.evidence;
      CoreIgnores(r.evidence, e);
      var payload := pushed.result.value.value.payload;
      if payload != [] {
        FoldStep(e, p, messages, payload);
        assert Payloads([CompleteOf(f, payload)]) == [payload];
      }
    }
  }

  lemma {:induction false} FramesFold(r: Receiver, p: Profile, frames: seq<Frame>, messages: seq<Octets>)
    requires IsFold(r.evidence, p, messages)
    ensures var a := ApplyFrames(r, p, frames); IsFold(a.receiver.evidence, p, messages + Payloads(a.complete))
    decreases |frames|
  {
    hide ApplyFrame, IsFold;
    assert messages + [] == messages;
    if frames != [] {
      var first := ApplyFrame(r, p, frames[0]);
      FrameFolds(r, p, frames[0], messages);
      if first.raised.None? {
        var more := messages + Payloads(first.complete);
        var rest := ApplyFrames(first.receiver, p, frames[1..]);
        FramesFold(first.receiver, p, frames[1..], more);
        assert Payloads(first.complete + rest.complete) == Payloads(first.complete) + Payloads(rest.complete);
        assert messages + (Payloads(first.complete) + Payloads(rest.complete)) == more + Payloads(rest.complete);
      }
    }
  }

  lemma {:induction false} DatagramFolds(r: Receiver, p: Profile, data: Octets, messages: seq<Octets>)
    requires IsFold(r.evidence, p, messages)
    ensures var a := ApplyDatagram(r, p, data); IsFold(a.receiver.evidence, p, messages + Payloads(a.complete))
  {
    hide ParseDatagram, ApplyFrames, Folded, Core;
    assert messages + [] == messages;
    var parsed := ParseDatagram(data);
    if parsed.Ok? && parsed.value.DataPacket? {
      var e := r.evidence.(lastSequence := Some(parsed.value.sequence));
      CoreIgnores(r.evidence, e);
      FramesFold(r.(evidence := e), p, parsed.value.frames, messages);
    }
  }

  /** Over every run, whatever arrives and raises, the evidence is the fold of the complete messages. */
  lemma {:induction false} RunIsFold(p: Profile, datagrams: seq<Octets>)
    ensures IsFold(ApplyRun(NewReceiver(), p, datagrams).evidence, p, MessagesOf(NewReceiver(), p, datagrams))
  {
    if datagrams != [] {
      hide ApplyDatagram, IsFold;
      var (front, last) := (datagrams[..|datagrams| - 1], datagrams[|datagrams| - 1]);
      RunIsFold(p, front);
      DatagramFolds(ApplyRun(NewReceiver(), p, front), p, last, MessagesOf(NewReceiver(), p, front));
    }
  }

  // ---- what each flag says -------------------------------------------------------------------------

  predicate HasId(m: Octets, id: int) {
    m != [] && m[0] == id
  }

  predicate HasAvatar(p: Profile, m: Octets) {
    HasBlock(m) && (m[1] == 4 || m[1] in p.avatar || p.scan(m).avatarMarker || p.scan(m).avatarWord)
  }

  predicate HasObserver(p: Profile, m: Octets) {
    HasBlock(m) && (m[1] in p.observer || p.scan(m).observerMarker)
  }

  /** A character is spawned by any sign of one; a new-instance block, number 2, without any takes it back. */
  function Spawned(p: Profile, messages: seq<Octets>): bool {
    if messages == [] then false else
    var (before, m) := (Spawned(p, messages[..|messages| - 1]), messages[|messages| - 1]);
    if !HasBlock(m) then before else
    || p.scan(m).identity || m[1] in p.character || p.scan(m).characterWord
    || (if m[1] == 2 then p.scan(m).characterMarker else before)
  }

  predicate Accepts(m: Octets) {
    HasId(m, 0x10) || HasId(m, 0x13)
  }

  predicate HasType(m: Octets, block: int) {
    HasBlock(m) && m[1] == block
  }

  ghost predicate Any(messages: seq<Octets>, test: Octets -> bool) {
    exists m :: m in messages && test(m)
  }

  ghost predicate Says(e: Evidence, p: Profile, messages: seq<Octets>) {
    && (e.connectionAccepted <==> Any(messages, Accepts))
    && (e.bootstrap <==> Any(messages, m => HasId(m, 0x93)))
    && (e.schema <==> Any(messages, m => HasId(m, 0x97)))
    && (e.registered <==> Any(messages, HasBlock))
    && (e.playerInstance <==> Any(messages, m => HasType(m, 2)))
    && (e.playerReady <==> Any(messages, m => HasType(m, 3)))
    && (e.avatarData <==> Any(messages, m => HasAvatar(p, m)))
    && (e.observerVisible <==> Any(messages, m => HasObserver(p, m)))
    && e.characterSpawn == Spawned(p, messages)
  }

  lemma IdSays(e: Evidence, m: Octets)
    requires m != []
    ensures var e' := ApplyId(e, m[0]);
            && e' == e.(applicationIds := e'.applicationIds, connectionAccepted := e.connectionAccepted || Accepts(m),
                        bootstrap := e.bootstrap || HasId(m, 0x93), schema := e.schema || HasId(m, 0x97),
                        physics := e'.physics)
  {
    hide Bump;
  }

  lemma BlockSays(e: Evidence, p: Profile, m: Octets)
    requires IsBlock(m)
    ensures var e' := ObserveBlock(e, p, m);
            && HasBlock(m)
            && e'.connectionAccepted == e.connectionAccepted && e'.bootstrap == e.bootstrap && e'.schema == e.schema
            && e'.registered
            && (e'.playerInstance <==> e.playerInstance || HasType(m, 2))
            && (e'.playerReady <==> e.playerReady || HasType(m, 3))
            && (e'.avatarData <==> e.avatarData || HasAvatar(p, m))
            && (e'.observerVisible <==> e.observerVisible || HasObserver(p, m))
            && e'.characterSpawn == (|| p.scan(m).identity || m[1] in p.character || p.scan(m).characterWord
                                     || (if m[1] == 2 then p.scan(m).characterMarker else e.characterSpawn))
  {
    hide Bump;
  }

  /** What one message adds to each flag. */
  lemma ObserveSays(e: Evidence, p: Profile, m: Octets)
    requires m != []
    ensures var e' := Observe(e, p, m);
            && (e'.connectionAccepted <==> e.connectionAccepted || Accepts(m))
            && (e'.bootstrap <==> e.bootstrap || HasId(m, 0x93)) && (e'.schema <==> e.schema || HasId(m, 0x97))
            && (e'.registered <==> e.registered || HasBlock(m))
            && (e'.playerInstance <==> e.playerInstance || HasType(m, 2))
            && (e'.playerReady <==> e.playerReady || HasType(m, 3))
            && (e'.avatarData <==> e.avatarData || HasAvatar(p, m))
            && (e'.observerVisible <==> e.observerVisible || HasObserver(p, m))
            && e'.characterSpawn == if !HasBlock(m) then e.characterSpawn
                                    else || p.scan(m).identity || m[1] in p.character || p.scan(m).characterWord
                                         || (if m[1] == 2 then p.scan(m).characterMarker else e.characterSpawn)
  {
    hide ApplyId, ObserveBlock, HasId, Accepts;
    IdSays(e, m);
    if IsBlock(m) { BlockSays(ApplyId(e, m[0]), p, m); }
  }

  lemma AnyMore(front: seq<Octets>, last: Octets, test: Octets -> bool)
    ensures Any(front + [last], test) <==> Any(front, test) || test(last)
  {
    if test(last) { assert last in front + [last]; }
    if m :| m in front && test(m) { assert m in front + [last]; }
  }

  lemma SpawnedMore(p: Profile, front: seq<Octets>, m: Octets)
    ensures Spawned(p, front + [m])
         == if !HasBlock(m) then Spawned(p, front)
            else || p.scan(m).identity || m[1] in p.character || p.scan(m).characterWord
                 || (if m[1] == 2 then p.scan(m).characterMarker else Spawned(p, front))
  {
    assert (front + [m])[..|front|] == front;
  }

  lemma {:induction false} SaysMore(e: Evidence, p: Profile, front: seq<Octets>, last: Octets)
    requires Says(e, p, front) && last != []
    ensures Says(Observe(e, p, last), p, front + [last])
  {
    hide Observe, HasAvatar, HasObserver, HasId, HasType, HasBlock, Accepts, Any, Spawned;
    ObserveSays(e, p, last);
    AnyMore(front, last, Accepts);
    AnyMore(front, last, m => HasId(m, 0x93));
    AnyMore(front, last, m => HasId(m, 0x97));
    AnyMore(front, last, HasBlock);
    AnyMore(front, last, m => HasType(m, 2));
    AnyMore(front, last, m => HasType(m, 3));
    AnyMore(front, last, m => HasAvatar(p, m));
    AnyMore(front, last, m => HasObserver(p, m));
    SpawnedMore(p, front, last);
  }

  lemma NothingSays(p: Profile)
    ensures Says(NoEvidence(), p, [])
  {}

  lemma {:induction false} FoldSays(p: Profile, messages: seq<Octets>)
    requires forall m | m in messages :: m != []
    ensures Says(Folded(p, messages), p, messages)
    decreases |messages|
  {
    hide Observe, Says, NoEvidence;
    if messages == [] {
      NothingSays(p);
    } else {
      var n := |messages| - 1;
      assert messages[n] in messages && messages == messages[..n] + [messages[n]];
      assert forall m | m in messages[..n] :: m in messages;
      FoldSays(p, messages[..n]);
      SaysMore(Folded(p, messages[..n]), p, messages[..n], messages[n]);
    }
  }

  lemma SaysIgnores(e: Evidence, e': Evidence, p: Profile, messages: seq<Octets>)
    requires Says(e, p, messages) && Core(e') == Core(e)
    ensures Says(e', p, messages)
  {
    hide HasAvatar, HasObserver, HasId, HasBlock, Spawned;
  }

  lemma {:induction false} MessagesAreNotEmpty(r: Receiver, p: Profile, datagrams: seq<Octets>)
    ensures forall m | m in MessagesOf(r, p, datagrams) :: m != []
    decreases |datagrams|
  {
    hide ApplyDatagram;
    if datagrams != [] {
      var n := |datagrams| - 1;
      MessagesAreNotEmpty(r, p, datagrams[..n]);
      DatagramNotEmpty(ApplyRun(r, p, datagrams[..n]), p, datagrams[n]);
    }
  }

  lemma DatagramNotEmpty(r: Receiver, p: Profile, data: Octets)
    ensures forall m | m in Payloads(ApplyDatagram(r, p, data).complete) :: m != []
  {
    hide ApplyFrames, ParseDatagram;
    var parsed := ParseDatagram(data);
    if parsed.Ok? && parsed.value.DataPacket? {
      FramesNotEmpty(r.(evidence := r.evidence.(lastSequence := Some(parsed.value.sequence))), p, parsed.value.frames);
    }
  }

  lemma {:induction false} FramesNotEmpty(r: Receiver, p: Profile, frames: seq<Frame>)
    ensures forall m | m in Payloads(ApplyFrames(r, p, frames).complete) :: m != []
    decreases |frames|
  {
    hide Push, Observe;
    if frames != [] {
      var first := ApplyFrame(r, p, frames[0]);
      if first.raised.None? {
        FramesNotEmpty(first.receiver, p, frames[1..]);
        var rest := ApplyFrames(first.receiver, p, frames[1..]);
        assert Payloads(first.complete + rest.complete) == Payloads(first.complete) + Payloads(rest.complete);
      }
    }
  }

  /** Over every run each flag says what the complete messages say. */
  lemma {:induction false} EveryRunSays(p: Profile, datagrams: seq<Octets>)
    ensures Says(ApplyRun(NewReceiver(), p, datagrams).evidence, p, MessagesOf(NewReceiver(), p, datagrams))
  {
    hide Says, Folded, Core, ApplyRun, MessagesOf;
    var messages := MessagesOf(NewReceiver(), p, datagrams);
    RunIsFold(p, datagrams);
    MessagesAreNotEmpty(NewReceiver(), p, datagrams);
    FoldSays(p, messages);
    SaysIgnores(Folded(p, messages), ApplyRun(NewReceiver(), p, datagrams).evidence, p, messages);
  }
}
