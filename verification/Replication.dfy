/** The receiving side: the replication datagram and ACK parsers, and the evidence that ReplicatorState collects. */
module Replication {
  import opened Results
  import opened Bytes
  import opened OrderedDict
  import opened RaknetCodec
  import opened SplitReassembly

  // ---- parsers -------------------------------------------------------------------

  datatype Parsed =
    | AckPacket(flags: Byte)
    | DataPacket(flags: Byte, sequence: nat, frames: seq<Frame>)

  /** What replication.parse_datagram returns. */
  function ParseDatagram(data: Octets): (r: Result<Parsed>)
    ensures r.Err? ==> r.error == ValueError
  {
    if data == [] then Err(ValueError)
    else if data[0] / 64 % 2 == 1 then Ok(AckPacket(data[0]))
    else if data[0] < 128 || |data| < 4 then Err(ValueError)
    else
      var frames :- ParseFrames(data[4..]);
      Ok(DataPacket(data[0], FromLe(data[1..4]), frames))
  }

  method ReadDatagram(data: Octets) returns (r: Result<Parsed>)
    ensures r == ParseDatagram(data)
  {
    hide FromLe, Decode;
    if data == [] {
      return Err(ValueError);
    }
    var flags := data[0];
    if flags / 64 % 2 == 1 {
      return Ok(AckPacket(flags));
    }
    if flags < 128 || |data| < 4 {
      return Err(ValueError);
    }
    var sequence := FromLe(data[1..4]);
    var offset := 4;
    var messages: seq<Frame> := [];
    assert data[4..] == data[offset..];
    while offset < |data|
      invariant 4 <= offset <= |data|
      invariant ParseFrames(data[4..]) == Prepend(messages, ParseFrames(data[offset..]))
      decreases |data| - offset
    {
      var decoded := Decode(data[offset..]);
      if decoded.Err? {
        return Err(ValueError);
      }
      var consumed := decoded.value.wireSize;
      if consumed <= 0 || offset + consumed > |data| {
        return Err(ValueError);
      }
      assert data[offset..][consumed..] == data[offset + consumed..];
      PrependTwice(messages, [decoded.value.frame], ParseFrames(data[offset + consumed..]));
      messages := messages + [decoded.value.frame];
      offset := offset + consumed;
    }
    assert data[offset..] == [] && messages + [] == messages;
    r := Ok(DataPacket(flags, sequence, messages));
  }

  /** On 0x80 to 0x8F the two datagram parsers accept the same byte strings and read the same frames. */
  lemma DatagramParsersAgree(data: Octets)
    requires data != [] && 0x80 <= data[0] <= 0x8F
    ensures ParseConnected(data).Ok? <==> ParseDatagram(data).Ok?
    ensures ParseConnected(data).Ok? ==>
              ParseDatagram(data).value
              == DataPacket(data[0], ParseConnected(data).value.sequence, ParseConnected(data).value.frames)
    ensures ParseConnected(data).Err? ==>
              ParseConnected(data) == Err(ValueError) && ParseDatagram(data) == Err(ValueError)
  {
    hide ParseFrames, FromLe;
  }

  /** What replication.parse_ack returns: the same record reader behind a range guard of 2^24 - 1. */
  function ParseAckSequences(data: Octets): Result<seq<int>> {
    ParseAckGuarded(data, 0xFF_FFFF)
  }

  method ReadAckSequences(data: Octets) returns (r: Result<seq<int>>)
    ensures r == ParseAckSequences(data)
  {
    hide FromLe, FromBe, ReadRecord, Range;
    if |data| < 4 || data[0] !in {0xC0, 0xD0, 0xA0, 0xB0} {
      return Err(ValueError);
    }
    var count := FromBe(data[1..3]);
    var offset := 3;
    var sequences: seq<int> := [];
    for done := 0 to count
      invariant 3 <= offset <= |data|
      invariant ParseRecords(data[3..], count, 0, 0xFF_FFFF)
             == PrependCut(sequences, ParseRecords(data[offset..], count - done, |sequences|, 0xFF_FFFF))
    {
      var record, next := ReadRecordAt(data, offset, 0xFF_FFFF);
      if record.Err? {
        return Err(record.error);
      }
      var (first, last) := (record.value.value.first, record.value.value.last);
      if |sequences| + (last - first + 1) > 0x1_0000 {
        return Err(ValueError);
      }
      offset := next;
      PrependCutTwice(sequences, Range(first, last),
                       ParseRecords(data[offset..], count - done - 1, |sequences| + |Range(first, last)|, 0xFF_FFFF));
      sequences := sequences + Range(first, last);
    }
    assert sequences + [] == sequences;
    if data[0] in {0xD0, 0xB0} && |data| - offset == 6 {
      offset := offset + 6;
    }
    if offset != |data| {
      return Err(ValueError);
    }
    r := Ok(sequences);
  }

  /** On every byte string the two ACK parsers both reject, or return the same list. */
  lemma {:induction false} AckParsersAgree(data: Octets)
    ensures ParseAckSequences(data) == ParseAck(data)
  {
    hide ParseRecords, FromBe;
    if |data| >= 4 {
      GuardIsRedundant(data[3..], FromBe(data[1..3]), 0, 0xFF_FFFF);
    }
  }

  // ---- evidence --------------------------------------------------------------------

  const ID_DATA := 0x83
  const ID_PHYSICS := 0x85
  const ID_CONNECTION_REQUEST_ACCEPTED := 0x10
  const ID_NEW_INCOMING_CONNECTION := 0x13
  const ID_BOOTSTRAP := 0x93
  const ID_SCHEMA := 0x97
  const BLOCK_NEW_INSTANCE := 2
  const BLOCK_PLAYER_READY := 3
  const BLOCK_AVATAR := 4
  const BLOCK_HEARTBEAT := 5
  const BLOCK_PHYSICS := 6
  const EVENT_LIMIT := 64

  /** What the search for markers, for the identity and for well-known words finds in one payload. */
  datatype Hints = Hints(
    identity: bool,
    characterMarker: bool,
    avatarMarker: bool,
    observerMarker: bool,
    avatarWord: bool,
    characterWord: bool)

  /** A fixed configuration: the block aliases of the profile, and the search. */
  datatype Profile = Profile(
    character: seq<Byte>,
    avatar: seq<Byte>,
    observer: seq<Byte>,
    heartbeat: seq<Byte>,
    physics: seq<Byte>,
    scan: Octets -> Hints)

  datatype EventRecord = EventRecord(id: Byte, block: Byte, length: nat)

  datatype Evidence = Evidence(
    connectionAccepted: bool,
    registered: bool,
    playerInstance: bool,
    avatarData: bool,
    heartbeats: nat,
    physics: nat,
    characterSpawn: bool,
    observerVisible: bool,
    playerReady: bool,
    blockCounts: map<int, nat>,
    applicationIds: map<int, nat>,
    bootstrap: bool,
    schema: bool,
    splitCompleted: nat,
    lastSequence: Option<nat>,
    events: seq<EventRecord>)

  function NoEvidence(): Evidence {
    Evidence(false, false, false, false, 0, 0, false, false, false, map[], map[], false, false, 0, None, [])
  }

  function Bump(counts: map<int, nat>, key: int): map<int, nat> {
    counts[key := Get(counts, key, 0) + 1]
  }

  /**
   * _apply_block, field by field: a new-instance block decides the character flag afresh, any other only adds to it.
   */
  function ApplyBlock(e: Evidence, block: Byte, h: Hints): Evidence {
    e.(playerInstance := e.playerInstance || block == BLOCK_NEW_INSTANCE,
       playerReady := e.playerReady || block == BLOCK_PLAYER_READY,
       avatarData := e.avatarData || block == BLOCK_AVATAR || h.avatarMarker,
       observerVisible := e.observerVisible || h.observerMarker,
       heartbeats := e.heartbeats + (if block == BLOCK_HEARTBEAT then 1 else 0),
       physics := e.physics + (if block == BLOCK_PHYSICS then 1 else 0),
       characterSpawn := (if block == BLOCK_NEW_INSTANCE then h.characterMarker else e.characterSpawn) || h.identity)
  }

  /** The profile aliases and the word search that follow it. */
  function ApplyAliases(e: Evidence, p: Profile, block: Byte, h: Hints): Evidence {
    e.(characterSpawn := e.characterSpawn || block in p.character || h.characterWord,
       avatarData := e.avatarData || block in p.avatar || h.avatarWord,
       observerVisible := e.observerVisible || block in p.observer,
       heartbeats := e.heartbeats + (if block in p.heartbeat && block != BLOCK_HEARTBEAT then 1 else 0),
       physics := e.physics + (if block in p.physics && block != BLOCK_PHYSICS then 1 else 0))
  }

  function ApplyId(e: Evidence, id: Byte): Evidence {
    e.(applicationIds := Bump(e.applicationIds, id),
       connectionAccepted := || e.connectionAccepted
                             || id == ID_CONNECTION_REQUEST_ACCEPTED || id == ID_NEW_INCOMING_CONNECTION,
       bootstrap := e.bootstrap || id == ID_BOOTSTRAP,
       schema := e.schema || id == ID_SCHEMA,
       physics := e.physics + (if id == ID_PHYSICS then 1 else 0))
  }

  predicate IsBlock(payload: Octets) {
    |payload| >= 2 && payload[0] == ID_DATA
  }

  /** The DATA message with a block type. */
  function ObserveBlock(e: Evidence, p: Profile, payload: Octets): Evidence
    requires IsBlock(payload)
  {
    var block := payload[1];
    var h := p.scan(payload);
    var counted := e.(registered := true, blockCounts := Bump(e.blockCounts, block),
                      events := if |e.events| < EVENT_LIMIT
                                then e.events + [EventRecord(payload[0], block, |payload|)] else e.events);
    ApplyAliases(ApplyBlock(counted, block, h), p, block, h)
  }

  /** One complete, nonempty application message. */
  function Observe(e: Evidence, p: Profile, payload: Octets): Evidence
    requires payload != []
  {
    var e1 := ApplyId(e, payload[0]);
    if IsBlock(payload) then ObserveBlock(e1, p, payload) else e1
  }

  datatype Receiver = Receiver(evidence: Evidence, groups: Groups)

  /** An entry of the list of complete messages: the message with its payload whole, and whether it was split. */
  datatype Complete = Complete(message: Frame, reassembled: bool)

  /** The state, the exception if one was raised, and the complete messages gathered until then. */
  datatype Applied = Applied(receiver: Receiver, raised: Option<Fault>, complete: seq<Complete>)

  /** apply rebuilds each frame without its sequencing index before pushing it. */
  function Raw(f: Frame): Frame {
    f.(sequencingIndex := 0)
  }

  function ApplyFrame(r: Receiver, p: Profile, f: Frame): Applied {
    var pushed := Push(r.groups, Raw(f));
    match pushed.result
    case Err(fault) => Applied(r.(groups := pushed.state), Some(fault), [])
    case Ok(None) => Applied(r.(groups := pushed.state), None, [])
    case Ok(Some(complete)) =>
      var e := if f.Split() then r.evidence.(splitCompleted := r.evidence.splitCompleted + 1) else r.evidence;
      if complete.payload == [] then Applied(Receiver(e, pushed.state), None, [])
      else Applied(Receiver(Observe(e, p, complete.payload), pushed.state), None, [CompleteOf(f, complete.payload)])
  }

  function CompleteOf(f: Frame, payload: Octets): Complete {
    Complete(f.(payload := payload, splitCount := 0), f.Split())
  }

  /** The message loop of apply: the first push that raises abandons the rest of the datagram. */
  function ApplyFrames(r: Receiver, p: Profile, frames: seq<Frame>): Applied
    decreases |frames|
  {
    if frames == [] then Applied(r, None, []) else
    var first := ApplyFrame(r, p, frames[0]);
    if first.raised.Some? then first else After(first.complete, ApplyFrames(first.receiver, p, frames[1..]))
  }

  function After(complete: seq<Complete>, a: Applied): Applied {
    a.(complete := complete + a.complete)
  }

  function ApplyDatagram(r: Receiver, p: Profile, data: Octets): Applied {
    match ParseDatagram(data)
    case Err(fault) => Applied(r, Some(fault), [])
    case Ok(AckPacket(_)) => Applied(r, None, [])
    case Ok(DataPacket(_, sequence, frames)) =>
      ApplyFrames(r.(evidence := r.evidence.(lastSequence := Some(sequence))), p, frames)
  }

  function ApplyRun(r: Receiver, p: Profile, datagrams: seq<Octets>): Receiver {
    if datagrams == [] then r else
    ApplyDatagram(ApplyRun(r, p, datagrams[..|datagrams| - 1]), p, datagrams[|datagrams| - 1]).receiver
  }

  // ---- accounting ---------------------------------------------------------------------

  /** The counts of the keys below n, added up. */
  function Total(counts: map<int, nat>, n: nat): nat {
    if n == 0 then 0 else Total(counts, n - 1) + Get(counts, n - 1, 0)
  }

  /** The counts of the chosen keys below n, added up. */
  function SumOf(counts: map<int, nat>, chosen: set<int>, n: nat): nat {
    if n == 0 then 0 else SumOf(counts, chosen, n - 1) + if n - 1 in chosen then Get(counts, n - 1, 0) else 0
  }

  lemma {:induction false} SumAfterBump(counts: map<int, nat>, chosen: set<int>, n: nat, key: int)
    requires key >= 0
    ensures SumOf(Bump(counts, key), chosen, n) == SumOf(counts, chosen, n) + if key < n && key in chosen then 1 else 0
    ensures Total(Bump(counts, key), n) == Total(counts, n) + if key < n then 1 else 0
  {
    if n > 0 { SumAfterBump(counts, chosen, n - 1, key); }
  }

  function HeartbeatBlocks(p: Profile): set<int> { {BLOCK_HEARTBEAT} + set b | b in p.heartbeat }
  function PhysicsBlocks(p: Profile): set<int> { {BLOCK_PHYSICS} + set b | b in p.physics }

  /** Every flag and counter is a view of the two histograms; `space` is any bound on the block numbers. */
  ghost predicate Accounting(e: Evidence, p: Profile, space: nat) {
    var total := Total(e.blockCounts, space);
    && (e.registered <==> total > 0)
    && e.heartbeats == SumOf(e.blockCounts, HeartbeatBlocks(p), space)
    && e.physics == Get(e.applicationIds, ID_PHYSICS, 0) + SumOf(e.blockCounts, PhysicsBlocks(p), space)
    && total <= Get(e.applicationIds, ID_DATA, 0)
    && |e.events| == (if total < EVENT_LIMIT then total else EVENT_LIMIT)
  }

  ghost predicate FlagsMatch(e: Evidence) {
    && (e.playerInstance <==> Get(e.blockCounts, BLOCK_NEW_INSTANCE, 0) > 0)
    && (e.playerReady <==> Get(e.blockCounts, BLOCK_PLAYER_READY, 0) > 0)
    && (Get(e.blockCounts, BLOCK_AVATAR, 0) > 0 ==> e.avatarData)
    && IdFlagsMatch(e)
  }

  lemma ApplyBlockEffect(e: Evidence, p: Profile, block: Byte, h: Hints)
    ensures var e' := ApplyAliases(ApplyBlock(e, block, h), p, block, h);
            && e' == e.(playerInstance := e'.playerInstance, playerReady := e'.playerReady, avatarData := e'.avatarData,
                        observerVisible := e'.observerVisible, heartbeats := e'.heartbeats, physics := e'.physics,
                        characterSpawn := e'.characterSpawn)
            && e'.heartbeats == e.heartbeats + (if block in HeartbeatBlocks(p) then 1 else 0)
            && e'.physics == e.physics + (if block in PhysicsBlocks(p) then 1 else 0)
            && (e'.playerInstance <==> e.playerInstance || block == BLOCK_NEW_INSTANCE)
            && (e'.playerReady <==> e.playerReady || block == BLOCK_PLAYER_READY)
            && (e.avatarData || block == BLOCK_AVATAR ==> e'.avatarData)
  {}

  /** What one message does to the histograms and to the counters that follow them. */
  lemma ObserveCounts(e: Evidence, p: Profile, payload: Octets)
    requires payload != []
    ensures var (e', id) := (Observe(e, p, payload), payload[0]);
            && e'.applicationIds == Bump(e.applicationIds, id)
            && (if IsBlock(payload) then
                  var block := payload[1];
                  && e'.blockCounts == Bump(e.blockCounts, block)
                  && e'.registered
                  && e'.heartbeats == e.heartbeats + (if block in HeartbeatBlocks(p) then 1 else 0)
                  && e'.physics == e.physics + (if block in PhysicsBlocks(p) then 1 else 0)
                  && |e'.events| == |e.events| + (if |e.events| < EVENT_LIMIT then 1 else 0)
                else
                  && e'.blockCounts == e.blockCounts
                  && e'.registered == e.registered
                  && e'.heartbeats == e.heartbeats
                  && e'.physics == e.physics + (if id == ID_PHYSICS then 1 else 0)
                  && e'.events == e.events)
  {
    hide ApplyId, ObserveBlock, Bump, HeartbeatBlocks, PhysicsBlocks;
    ApplyIdFields(e, payload[0]);
    if IsBlock(payload) { ObserveBlockEffect(ApplyId(e, payload[0]), p, payload); }
  }

  lemma ObserveBlockEffect(e: Evidence, p: Profile, payload: Octets)
    requires IsBlock(payload)
    ensures var (e', block) := (ObserveBlock(e, p, payload), payload[1]);
            && e'.blockCounts == Bump(e.blockCounts, block)
            && e'.applicationIds == e.applicationIds
            && e'.bootstrap == e.bootstrap && e'.schema == e.schema && e'.connectionAccepted == e.connectionAccepted
            && e'.registered
            && e'.heartbeats == e.heartbeats + (if block in HeartbeatBlocks(p) then 1 else 0)
            && e'.physics == e.physics + (if block in PhysicsBlocks(p) then 1 else 0)
            && |e'.events| == |e.events| + (if |e.events| < EVENT_LIMIT then 1 else 0)
            && (e'.playerInstance <==> e.playerInstance || block == BLOCK_NEW_INSTANCE)
            && (e'.playerReady <==> e.playerReady || block == BLOCK_PLAYER_READY)
            && (e.avatarData || block == BLOCK_AVATAR ==> e'.avatarData)
  {
    hide ApplyBlock, ApplyAliases, Bump, HeartbeatBlocks, PhysicsBlocks;
    var counted := e.(registered := true, blockCounts := Bump(e.blockCounts, payload[1]),
                      events := if |e.events| < EVENT_LIMIT
                                then e.events + [EventRecord(payload[0], payload[1], |payload|)] else e.events);
    ApplyBlockEffect(counted, p, payload[1], p.scan(payload));
  }

  lemma {:induction false} ObserveKeepsAccounting(e: Evidence, p: Profile, payload: Octets, space: nat)
    requires payload != [] && space >= 256 && Accounting(e, p, space)
    ensures Accounting(Observe(e, p, payload), p, space)
  {
    hide Observe, SumOf, Total, HeartbeatBlocks, PhysicsBlocks;
    ObserveCounts(e, p, payload);
    if IsBlock(payload) {
      SumAfterBump(e.blockCounts, HeartbeatBlocks(p), space, payload[1]);
      SumAfterBump(e.blockCounts, PhysicsBlocks(p), space, payload[1]);
    }
  }

  ghost predicate IdFlagsMatch(e: Evidence) {
    && (e.bootstrap <==> Get(e.applicationIds, ID_BOOTSTRAP, 0) > 0)
    && (e.schema <==> Get(e.applicationIds, ID_SCHEMA, 0) > 0)
    && (e.connectionAccepted
        <==> Get(e.applicationIds, ID_CONNECTION_REQUEST_ACCEPTED, 0)
             + Get(e.applicationIds, ID_NEW_INCOMING_CONNECTION, 0) > 0)
  }

  lemma ApplyIdKeepsFlags(e: Evidence, id: Byte)
    requires IdFlagsMatch(e)
    ensures IdFlagsMatch(ApplyId(e, id))
  {}

  lemma {:induction false} ObserveKeepsFlags(e: Evidence, p: Profile, payload: Octets)
    requires payload != [] && FlagsMatch(e)
    ensures FlagsMatch(Observe(e, p, payload))
  {
    hide ApplyId, ObserveBlock, HeartbeatBlocks, PhysicsBlocks, IdFlagsMatch;
    ApplyIdKeepsFlags(e, payload[0]);
    ApplyIdFields(e, payload[0]);
    if IsBlock(payload) {
      var e1 := ApplyId(e, payload[0]);
      ObserveBlockEffect(e1, p, payload);
      IdFlagsSame(e1, ObserveBlock(e1, p, payload));
    }
  }

  lemma IdFlagsSame(e: Evidence, e': Evidence)
    requires IdFlagsMatch(e) && e'.applicationIds == e.applicationIds
    requires e'.bootstrap == e.bootstrap && e'.schema == e.schema && e'.connectionAccepted == e.connectionAccepted
    ensures IdFlagsMatch(e')
  {}

  ghost predicate ReceiverInv(r: Receiver, p: Profile, space: nat) {
    Accounting(r.evidence, p, space) && FlagsMatch(r.evidence) && Inv(r.groups)
  }

  lemma {:induction false} ApplyFrameKeepsInv(r: Receiver, p: Profile, f: Frame, space: nat)
    requires space >= 256 && ReceiverInv(r, p, space) && WellFormed(f)
    ensures ReceiverInv(ApplyFrame(r, p, f).receiver, p, space)
  {
    hide Push, Inv, Accounting, FlagsMatch, Observe;
    PushKeepsInv(r.groups, Raw(f));
    var pushed := Push(r.groups, Raw(f));
    if pushed.result.Ok? && pushed.result.value.Some? {
      var e := if f.Split() then r.evidence.(splitCompleted := r.evidence.splitCompleted + 1) else r.evidence;
      AccountingIgnores(r.evidence, e, p, space);
      if pushed.result.value.value.payload != [] {
        ObserveKeepsAccounting(e, p, pushed.result.value.value.payload, space);
        ObserveKeepsFlags(e, p, pushed.result.value.value.payload);
      }
    }
  }

  lemma AccountingIgnores(e: Evidence, e': Evidence, p: Profile, space: nat)
    requires Accounting(e, p, space) && FlagsMatch(e)
    requires e' == e.(splitCompleted := e'.splitCompleted, lastSequence := e'.lastSequence)
    ensures Accounting(e', p, space) && FlagsMatch(e')
  {}

  lemma {:induction false} ApplyFramesKeepsInv(r: Receiver, p: Profile, frames: seq<Frame>, space: nat)
    requires space >= 256 && ReceiverInv(r, p, space) && forall f | f in frames :: WellFormed(f)
    ensures ReceiverInv(ApplyFrames(r, p, frames).receiver, p, space)
    decreases |frames|
  {
    hide ReceiverInv, ApplyFrame;
    if frames != [] {
      var f := frames[0];
      assert f in frames && WellFormed(f);
      ApplyFrameKeepsInv(r, p, f, space);
      if ApplyFrame(r, p, f).raised.None? { ApplyFramesKeepsInv(ApplyFrame(r, p, f).receiver, p, frames[1..], space); }
    }
  }

  lemma {:induction false} ParsedFramesAreWellFormed(data: Octets)
    requires ParseFrames(data).Ok?
    ensures forall f | f in ParseFrames(data).value :: WellFormed(f)
    decreases |data|
  {
    hide Decode;
    if data != [] {
      var d := Decode(data).value;
      DecodeGivesWireFrames(data);
      ParsedFramesAreWellFormed(data[d.wireSize..]);
    }
  }

  lemma {:induction false} ApplyDatagramKeepsInv(r: Receiver, p: Profile, data: Octets, space: nat)
    requires space >= 256 && ReceiverInv(r, p, space)
    ensures ReceiverInv(ApplyDatagram(r, p, data).receiver, p, space)
  {
    hide ParseFrames, Accounting, FlagsMatch, Inv, ApplyFrames, FromLe;
    var parsed := ParseDatagram(data);
    if parsed.Ok? && parsed.value.DataPacket? {
      ParsedFramesAreWellFormed(data[4..]);
      var e := r.evidence.(lastSequence := Some(parsed.value.sequence));
      AccountingIgnores(r.evidence, e, p, space);
      ApplyFramesKeepsInv(r.(evidence := e), p, parsed.value.frames, space);
    }
  }

  function NewReceiver(): Receiver {
    Receiver(NoEvidence(), NewGroups(128, 4096, 16 * 1024 * 1024))
  }

  /** In every run, whatever arrives and whatever raises, the evidence adds up. */
  lemma {:induction false} EveryRunAddsUp(p: Profile, datagrams: seq<Octets>, space: nat)
    requires space >= 256
    ensures ReceiverInv(ApplyRun(NewReceiver(), p, datagrams), p, space)
  {
    hide ApplyDatagram;
    if datagrams == [] {
      NothingAddsUp(p, space);
      EveryRunKeepsInv(128, 4096, 16 * 1024 * 1024, []);
    } else {
      hide ReceiverInv;
      EveryRunAddsUp(p, datagrams[..|datagrams| - 1], space);
      ApplyDatagramKeepsInv(ApplyRun(NewReceiver(), p, datagrams[..|datagrams| - 1]), p, datagrams[|datagrams| - 1],
                            space);
    }
  }

  lemma {:induction false} NothingAddsUp(p: Profile, space: nat)
    ensures Accounting(NoEvidence(), p, space)
  {
    if space > 0 { NothingAddsUp(p, space - 1); }
  }

  /** A message takes back the character flag exactly when it is a new-instance block without any character evidence. */
  lemma SpawnIsWithdrawn(e: Evidence, p: Profile, payload: Octets)
    requires payload != [] && e.characterSpawn
    ensures !Observe(e, p, payload).characterSpawn <==>
              && IsBlock(payload) && payload[1] == BLOCK_NEW_INSTANCE && payload[1] !in p.character
              && var h := p.scan(payload);
              !h.characterMarker && !h.identity && !h.characterWord
  {
    hide Bump;
  }

  // ---- the gathered messages ------------------------------------------------------------

  lemma AfterStep(complete: seq<Complete>, r: Receiver, p: Profile, frames: seq<Frame>)
    requires frames != []
    ensures var first := ApplyFrame(r, p, frames[0]);
            After(complete, ApplyFrames(r, p, frames))
            == if first.raised.Some? then first.(complete := complete + first.complete)
               else After(complete + first.complete, ApplyFrames(first.receiver, p, frames[1..]))
  {
    hide ApplyFrame;
    var first := ApplyFrame(r, p, frames[0]);
    if first.raised.None? {
      var rest := ApplyFrames(first.receiver, p, frames[1..]);
      assert complete + (first.complete + rest.complete) == (complete + first.complete) + rest.complete;
    }
  }

  lemma AfterNothing(a: Applied)
    ensures After([], a) == a
  {}

  lemma AfterAll(complete: seq<Complete>, r: Receiver, p: Profile, frames: seq<Frame>)
    requires frames == []
    ensures After(complete, ApplyFrames(r, p, frames)) == Applied(r, None, complete)
  {
    assert complete + [] == complete;
  }

  // ---- field by field ----------------------------------------------------------------

  lemma SameEvidence(a: Evidence, b: Evidence)
    requires a.connectionAccepted == b.connectionAccepted && a.registered == b.registered
    requires a.playerInstance == b.playerInstance && a.avatarData == b.avatarData
    requires a.heartbeats == b.heartbeats && a.physics == b.physics && a.characterSpawn == b.characterSpawn
    requires a.observerVisible == b.observerVisible && a.playerReady == b.playerReady
    requires a.blockCounts == b.blockCounts && a.applicationIds == b.applicationIds
    requires a.bootstrap == b.bootstrap && a.schema == b.schema && a.splitCompleted == b.splitCompleted
    requires a.lastSequence == b.lastSequence && a.events == b.events
    ensures a == b
  {}

  lemma ApplyIdFields(e: Evidence, id: Byte)
    ensures var r := ApplyId(e, id);
            && r == e.(applicationIds := Bump(e.applicationIds, id), connectionAccepted := r.connectionAccepted,
                       bootstrap := r.bootstrap, schema := r.schema, physics := r.physics)
            && (r.connectionAccepted
                <==> e.connectionAccepted || id == ID_CONNECTION_REQUEST_ACCEPTED || id == ID_NEW_INCOMING_CONNECTION)
            && (r.bootstrap <==> e.bootstrap || id == ID_BOOTSTRAP)
            && (r.schema <==> e.schema || id == ID_SCHEMA)
            && r.physics == e.physics + (if id == ID_PHYSICS then 1 else 0)
  {}

  lemma ApplyBlockFields(e: Evidence, block: Byte, h: Hints)
    ensures var r := ApplyBlock(e, block, h);
            && r == e.(playerInstance := r.playerInstance, playerReady := r.playerReady, avatarData := r.avatarData,
                       observerVisible := r.observerVisible, heartbeats := r.heartbeats, physics := r.physics,
                       characterSpawn := r.characterSpawn)
            && (r.playerInstance <==> e.playerInstance || block == BLOCK_NEW_INSTANCE)
            && (r.playerReady <==> e.playerReady || block == BLOCK_PLAYER_READY)
            && (r.avatarData <==> e.avatarData || block == BLOCK_AVATAR || h.avatarMarker)
            && (r.observerVisible <==> e.observerVisible || h.observerMarker)
            && r.heartbeats == e.heartbeats + (if block == BLOCK_HEARTBEAT then 1 else 0)
            && r.physics == e.physics + (if block == BLOCK_PHYSICS then 1 else 0)
            && (r.characterSpawn
                <==> (if block == BLOCK_NEW_INSTANCE then h.characterMarker else e.characterSpawn) || h.identity)
  {}

  lemma ApplyAliasesFields(e: Evidence, p: Profile, block: Byte, h: Hints)
    ensures var r := ApplyAliases(e, p, block, h);
            && r == e.(characterSpawn := r.characterSpawn, avatarData := r.avatarData,
                       observerVisible := r.observerVisible,
                       heartbeats := r.heartbeats, physics := r.physics)
            && (r.characterSpawn <==> e.characterSpawn || block in p.character || h.characterWord)
            && (r.avatarData <==> e.avatarData || block in p.avatar || h.avatarWord)
            && (r.observerVisible <==> e.observerVisible || block in p.observer)
            && r.heartbeats == e.heartbeats + (if block in p.heartbeat && block != BLOCK_HEARTBEAT then 1 else 0)
            && r.physics == e.physics + (if block in p.physics && block != BLOCK_PHYSICS then 1 else 0)
  {}

  // ---- the class ----------------------------------------------------------------------

  class ReplicatorState {
    const profile: Profile
    const reassembler: SplitReassembler
    var connectionAccepted: bool
    var registered: bool
    var playerInstance: bool
    var avatarData: bool
    var heartbeats: nat
    var physics: nat
    var characterSpawn: bool
    var observerVisible: bool
    var playerReady: bool
    var blockCounts: map<int, nat>
    var applicationIds: map<int, nat>
    var bootstrap: bool
    var schema: bool
    var splitCompleted: nat
    var lastSequence: Option<nat>
    var events: seq<EventRecord>

    ghost function Model(): Evidence
      reads this
    {
      Evidence(connectionAccepted, registered, playerInstance, avatarData, heartbeats, physics, characterSpawn,
               observerVisible, playerReady, blockCounts, applicationIds, bootstrap, schema, splitCompleted,
               lastSequence, events)
    }

    ghost function Current(): Receiver
      reads this, reassembler
    {
      Receiver(Model(), reassembler.Model())
    }

    constructor (profile: Profile)
      ensures this.profile == profile && fresh(reassembler)
      ensures Current() == NewReceiver() && Inv(reassembler.Model())
    {
      this.profile := profile;
      reassembler := new SplitReassembler();
      connectionAccepted, registered, playerInstance, avatarData := false, false, false, false;
      heartbeats, physics, splitCompleted := 0, 0, 0;
      characterSpawn, observerVisible, playerReady, bootstrap, schema := false, false, false, false, false;
      blockCounts, applicationIds, lastSequence, events := map[], map[], None, [];
    }

    /** The branches of _apply_block. */
    method NoteKind(block: Byte, h: Hints)
      modifies this`playerInstance, this`playerReady, this`avatarData, this`heartbeats, this`physics,
          this`characterSpawn
      ensures playerInstance == (old(playerInstance) || block == BLOCK_NEW_INSTANCE)
      ensures playerReady == (old(playerReady) || block == BLOCK_PLAYER_READY)
      ensures avatarData == (old(avatarData) || block == BLOCK_AVATAR)
      ensures heartbeats == old(heartbeats) + (if block == BLOCK_HEARTBEAT then 1 else 0)
      ensures physics == old(physics) + (if block == BLOCK_PHYSICS then 1 else 0)
      ensures characterSpawn == if block == BLOCK_NEW_INSTANCE then h.characterMarker || h.identity
                                else old(characterSpawn) || (block == BLOCK_PLAYER_READY && h.identity)
    {
      if block == BLOCK_NEW_INSTANCE {
        playerInstance := true;
        characterSpawn := h.characterMarker || h.identity;
      } else if block == BLOCK_PLAYER_READY {
        playerReady := true;
        characterSpawn := characterSpawn || h.identity;
      } else if block == BLOCK_AVATAR {
        avatarData := true;
      } else if block == BLOCK_HEARTBEAT {
        heartbeats := heartbeats + 1;
      } else if block == BLOCK_PHYSICS {
        physics := physics + 1;
      }
    }

    /** The marker searches that follow the branches. */
    method NoteMarkers(block: Byte, h: Hints)
      modifies this`avatarData, this`observerVisible, this`characterSpawn
      ensures avatarData == (old(avatarData) || h.avatarMarker)
      ensures observerVisible == (old(observerVisible) || h.observerMarker)
      ensures characterSpawn
           == (old(characterSpawn) || (h.identity && block != BLOCK_NEW_INSTANCE && block != BLOCK_PLAYER_READY))
    {
      if h.avatarMarker {
        avatarData := true;
      }
      if h.observerMarker {
        observerVisible := true;
      }
      if h.identity && block != BLOCK_NEW_INSTANCE && block != BLOCK_PLAYER_READY {
        characterSpawn := true;
      }
    }

    method NoteBlock(block: Byte, h: Hints)
      modifies this
      ensures Model() == ApplyBlock(old(Model()), block, h)
    {
      hide ApplyBlock;
      ApplyBlockFields(Model(), block, h);
      NoteKind(block, h);
      NoteMarkers(block, h);
      SameEvidence(Model(), ApplyBlock(old(Model()), block, h));
    }

    /** The aliases that set a flag. */
    method FlagAliases(block: Byte, h: Hints)
      modifies this`characterSpawn, this`avatarData, this`observerVisible
      ensures characterSpawn == (old(characterSpawn) || block in profile.character || h.characterWord)
      ensures avatarData == (old(avatarData) || block in profile.avatar || h.avatarWord)
      ensures observerVisible == (old(observerVisible) || block in profile.observer)
    {
      if block in profile.character || h.characterWord {
        characterSpawn := true;
      }
      if block in profile.avatar || h.avatarWord {
        avatarData := true;
      }
      if block in profile.observer {
        observerVisible := true;
      }
    }

    /** The aliases that count. */
    method CountAliases(block: Byte)
      modifies this`heartbeats, this`physics
      ensures heartbeats == old(heartbeats) + (if block in profile.heartbeat && block != BLOCK_HEARTBEAT then 1 else 0)
      ensures physics == old(physics) + (if block in profile.physics && block != BLOCK_PHYSICS then 1 else 0)
    {
      if block in profile.heartbeat && block != BLOCK_HEARTBEAT {
        heartbeats := heartbeats + 1;
      }
      if block in profile.physics && block != BLOCK_PHYSICS {
        physics := physics + 1;
      }
    }

    method NoteAliases(block: Byte, h: Hints)
      modifies this
      ensures Model() == ApplyAliases(old(Model()), profile, block, h)
    {
      hide ApplyAliases;
      ApplyAliasesFields(Model(), profile, block, h);
      FlagAliases(block, h);
      CountAliases(block);
      SameEvidence(Model(), ApplyAliases(old(Model()), profile, block, h));
    }

    method NoteId(id: Byte)
      modifies this
      ensures Model() == ApplyId(old(Model()), id)
    {
      hide Bump, ApplyId;
      ApplyIdFields(Model(), id);
      applicationIds := Bump(applicationIds, id);
      FlagId(id);
      SameEvidence(Model(), ApplyId(old(Model()), id));
    }

    method FlagId(id: Byte)
      modifies this`connectionAccepted, this`bootstrap, this`schema, this`physics
      ensures connectionAccepted
           == (old(connectionAccepted) || id == ID_CONNECTION_REQUEST_ACCEPTED || id == ID_NEW_INCOMING_CONNECTION)
      ensures bootstrap == (old(bootstrap) || id == ID_BOOTSTRAP)
      ensures schema == (old(schema) || id == ID_SCHEMA)
      ensures physics == old(physics) + (if id == ID_PHYSICS then 1 else 0)
    {
      if id == ID_CONNECTION_REQUEST_ACCEPTED || id == ID_NEW_INCOMING_CONNECTION {
        connectionAccepted := true;
      }
      if id == ID_BOOTSTRAP {
        bootstrap := true;
      }
      if id == ID_SCHEMA {
        schema := true;
      }
      if id == ID_PHYSICS {
        physics := physics + 1;
      }
    }

    method ObserveBlockPayload(payload: Octets)
      requires IsBlock(payload)
      modifies this
      ensures Model() == ObserveBlock(old(Model()), profile, payload)
    {
      hide ApplyBlock, ApplyAliases, Bump;
      var block := payload[1];
      registered := true;
      blockCounts := Bump(blockCounts, block);
      events := if |events| < EVENT_LIMIT then events + [EventRecord(payload[0], block, |payload|)] else events;
      var h := profile.scan(payload);
      NoteBlock(block, h);
      NoteAliases(block, h);
    }

    method ObservePayload(payload: Octets)
      requires payload != []
      modifies this
      ensures Model() == Observe(old(Model()), profile, payload)
    {
      hide ApplyId, ObserveBlock, Model;
      NoteId(payload[0]);
      if IsBlock(payload) {
        ObserveBlockPayload(payload);
      }
    }

    method ApplyOne(frame: Frame) returns (raised: Option<Fault>, gathered: seq<Complete>)
      requires Inv(reassembler.Model()) && WellFormed(frame)
      modifies this, reassembler
      ensures Inv(reassembler.Model())
      ensures Applied(Current(), raised, gathered) == ApplyFrame(old(Current()), profile, frame)
    {
      hide Push, Inv, Observe;
      var complete := reassembler.PushFrame(Raw(frame));
      gathered := [];
      if complete.Err? {
        return Some(complete.error), gathered;
      }
      raised := None;
      if complete.value.None? {
        return;
      }
      if frame.Split() {
        splitCompleted := splitCompleted + 1;
      }
      var payload := complete.value.value.payload;
      if payload == [] {
        return;
      }
      gathered := [CompleteOf(frame, payload)];
      ObservePayload(payload);
    }

    method ApplyPlaintext(plaintext: Octets) returns (raised: Option<Fault>, complete: seq<Complete>)
      requires Inv(reassembler.Model())
      modifies this, reassembler
      ensures Inv(reassembler.Model())
      ensures Applied(Current(), raised, complete) == ApplyDatagram(old(Current()), profile, plaintext)
    {
      hide ParseFrames, ApplyFrame, Inv, WellFormed, FromLe, After;
      complete := [];
      var parsed := ReadDatagram(plaintext);
      if parsed.Err? {
        return Some(parsed.error), complete;
      }
      raised := None;
      if parsed.value.AckPacket? {
        return;
      }
      ParsedFramesAreWellFormed(plaintext[4..]);
      lastSequence := Some(parsed.value.sequence);
      var frames := parsed.value.frames;
      ghost var start := Current();
      AfterNothing(ApplyFrames(start, profile, frames));
      assert frames[0..] == frames;
      for i := 0 to |frames|
        invariant Inv(reassembler.Model())
        invariant raised.None?
        invariant After(complete, ApplyFrames(Current(), profile, frames[i..])) == ApplyFrames(start, profile, frames)
      {
        assert frames[i..][0] == frames[i] && frames[i..][1..] == frames[i + 1..];
        var gathered: seq<Complete>;
        AfterStep(complete, Current(), profile, frames[i..]);
        raised, gathered := ApplyOne(frames[i]);
        complete := complete + gathered;
        if raised.Some? {
          return;
        }
      }
      AfterAll(complete, Current(), profile, frames[|frames|..]);
    }
  }
}
