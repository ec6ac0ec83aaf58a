# Transport model

A Dafny model of the transport of this headless client: the RakNet-style reliable layer (frames, datagrams,
acknowledgements, fragmentation, reassembly, retransmission), the receiver's evidence state machine, the established
AEAD records, the application envelope, and the arithmetic and byte codecs around them.

`dafny verify dfyconfig.toml` checks everything. Code that updates state is a class or a method with loops, proved
equal to a specification function; the properties are lemmas about those functions, over all inputs and all runs. The
modules named `...Layout`, and `HashSteps`, pin the shared definitions down with literal bytes and numbers, without the
predicates that encoder and decoder, or sender and receiver, have in common.

| module | contents |
|---|---|
| `RaknetCodec` | frame, datagram and ACK codecs |
| `FrameLayout`, `AckLayout` | the same on their bytes: each reliability mode, the split header, datagrams, which first bytes are which kind, ACK records |
| `Reliability` | the resend window: tracking, fragmenting, acknowledging, due frames, index assignment over runs |
| `Sender`, `SenderSafety` | the client's send, ACK and resend operations as a state machine with a ghost history, and its invariant |
| `SenderWindow` | the window hypothesis of the sender in terms of ages, exactly, for single events and whole runs |
| `AcknowledgedRuns`, `SenderRuns` | runs that are acknowledged often enough keep it for ever; concrete runs that keep it and one that breaks it |
| `Retransmission`, `Outgoing` | what the resend loop sends, exactly; what each other send puts on the wire, and what the datagram cache holds over runs |
| `SplitReassembly`, `Delivery` | the reassembler, and end-to-end delivery of fragmented messages |
| `PushEffects`, `Interleaving` | what a push does to the whole table of groups; two split messages whose fragments are mixed |
| `Conversation` | the two ends together: what a sender's run sent, arriving in any selection and order, delivers its split messages |
| `SplitIds` | the split ids of a run, and two split messages of one run |
| `Replication`, `ReceiverRuns` | the second datagram and ACK parsers, the evidence collected by `ReplicatorState`, and whole datagrams and runs of it |
| `Reception` | the receiver's runs as pushes of the reassembler, and delivery from a sender's run to the receiver's messages |
| `EvidenceFlags`, `ReceiverCounts` | each flag, the count of joined messages and the last sequence as what the arriving messages and datagrams say |
| `EstablishedAead` | nonces, 16-bit counter recovery, trial decryption, the transmit counter |
| `EpochRuns`, `TrialLayout` | records on their bytes, streams told apart by them, recovery over runs, and what the sender seals opened by the receiver |
| `Envelope`, `EnvelopeLayout` | block shuffle, CBC, rolling checksum, padding; the same block by block |
| `TicketHash`, `HashSteps` | XXH32 and the ticket mixer; their steps in plain arithmetic |
| `Pcg`, `PcgLayout` | PCG32, and its output and scaling in plain arithmetic |
| `Varint`, `Bootstrap` | LEB128, ZigZag, the 0x92 packet, version IDs, 0x90 and 0x93 packets |
| `VarintLayout`, `BootstrapLayout`, `TextLayout` | the bytes of varuints and of those packets, and UTF-8 as the encodings of scalar values |
| `BitStream`, `OpenRequest`, `OpenRequestLayout` | the bit writer, the RbxOpenRequest2 body, and its fields in their places |
| `Bytes`, `Bits`, `Modular`, `OrderedDict`, `Results` | byte strings, bitwise operators on naturals, arithmetic modulo powers of two, insertion-ordered dictionaries, error results |

How the program's values appear: bytes are integers below 256, byte strings and text are sequences of them; integers are
unbounded and every mask and wrap is written out; a Python `dict` is `OrderedDict.Dict`, a map with its key order; an
exception is an `Err` or a raised `Fault`; the clock is an argument; the sockets are the ghost list `History.sent` and an
arbitrary `History.link` that says which transmissions raise; random bytes are the argument `noise`; the block cipher and
the AEAD are pairs of functions with the usual laws as hypotheses, shown satisfiable in `Envelope.CipherIsPossible` and
`EstablishedAead.IdealIsPossible`.

## What the proofs found

- `mix_ticket_hash` is injective for exactly the platform keys with `key % 4 != 2`. For the others the multiplier is
  even, and two colliding digests are constructed.
- A frame comes back from the wire equal to itself, in the comparison the code uses, exactly when its flags and other
  fields agree with the mode it is sent with (`RaknetCodec.RoundTripsExactly`; that comparison leaves the reliability
  mode out, and `RaknetCodec.EveryFieldReturnsExactly` is the condition with it). An ordered frame on a channel of one
  byte does (`RaknetCodec.ReliableFrameSurvives`); a frame that is ordered but not reliable loses its order
  (`RaknetCodec.OrderIsLost`). A plain frame with bit length 65535 is decoded with any 8192-byte payload, and never
  encoded again (`RaknetCodec.OversizedFrame`); the encoder stops at 8191 bytes.
- Tracked frames equal pending plus retired frames, over a whole run, exactly when no event left a pending frame
  older than 2^24 (`SenderWindow.ConservationOverRuns`). A frame that is never acknowledged is filed over by the
  2^24-th one after it, in a run that is constructed (`SenderRuns.UnansweredRunOverwrites`).
- The dictionaries agree and ACKs are sound as long as in every event the age of every live frame plus the frames filed,
  and the age of every cached datagram plus the datagrams sent, are at most 2^24; that is exactly the condition under
  which no live index or sequence is handed out again (`SenderWindow.StepIsSafe`, `SenderWindow.RunIsSafe`). A caller
  can check it before the call with the number of datagrams the call needs; unless the call raises, that check is exact
  too (`SenderWindow.PlannedIsSafe`).
- A run stays within that condition for ever, whatever it sends, resends and acknowledges, if none of its operations
  fails halfway and no more than 4096 datagrams lie between two acknowledgements that name every cached sequence
  (`AcknowledgedRuns.AcknowledgedRunIsSafe`). One such acknowledgement after each operation is always enough
  (`AcknowledgedRuns.AnsweredRunIsSafe`), for a window of at most 4096 frames, which is the default.
- `character_spawn_observed` is no latch: a run of two datagrams sets it and takes it back
  (`ReceiverRuns.SpawnIsNoLatch`), and `Replication.SpawnIsWithdrawn` says exactly which messages take it
  back. The other evidence is a view of two histograms in every reachable state, and those count the complete messages.
- The two ACK parsers return the same result on every byte string although their range guards differ: the expansion
  limit hides the difference.
- The lenient varuint reader accepts overlong encodings that the strict one refuses; apart from those they agree.
- In ACK records a nonzero marker byte announces a single number and zero a range. The docstring at
  `src/replication.py:171-179` says the opposite; the model follows the code, and so does `build_ack`.
- A push that raises ends the processing of its datagram in `ReplicatorState.apply`: `ReceiverRuns.RaiseAbandonsTheRest`
  shows that the frames behind it change nothing, `SplitReassembly.PushRaises` and `ReceiverRuns.FramesRaise` say exactly
  when it happens, and `ReceiverRuns.AcceptanceIsLost` gives a datagram whose second frame is never observed. All
  invariants are nevertheless kept.
- A protocol-sync packet parses back exactly when its JoinData is UTF-8: the builder passes raw bytes through
  (`src/application_bootstrap.py:377-383`) that the parser refuses (`src/application_bootstrap.py:354`);
  `Bootstrap.NoTextIsRefused` is such a packet.
- A split message reaches the messages of `ReplicatorState`, although a raise there abandons the rest of a datagram,
  because fragments come first in the datagrams that a sender's run sends (`Reception.SplitMessageIsObserved`).
- Two split messages that differ in the split id, the channel, the order index or the mode never get in each other's way:
  however their fragments are mixed, each comes out at the push that brings its last missing one
  (`Interleaving.BothAreDelivered`). Split messages of one run differ as long as fewer than 2^16 lie between them
  (`SplitIds.TwoOfARun`).
- A resend pass that raises nothing sends a pending frame again exactly if it has waited for the delay and was sent fewer
  than three times, once and unchanged (`Retransmission.ResendsExactly`), and it sends nothing else.
- The first record of a new epoch is recovered whatever the counters of other epochs are (`EpochRuns.NewEpochIsRecovered`),
  and what the client seals is opened by a receiver with its key that tries the default associated data
  (`TrialLayout.SealedIsOpened`).
- In a run that reuses no live sequence number the cache lists its datagrams in the order in which they went out, so that
  eviction drops those sent first (`Outgoing.EldestAreEvicted`).
- The generator's output function is balanced: each 32-bit word comes from exactly 2^32 of the 2^64 states
  (`Pcg.OutputIsBalanced`).

## Model

| member | source | states |
|---|---|---|
| `RaknetCodec.EncodeFrame` | src/raknet_codec.py:47-70 | the step-by-step encoder yields the layout of the mode, or fails with the code's error: mode, size, split fields in that order |
| `RaknetCodec.DecodeFrame` | src/raknet_codec.py:72-110 | the offset-driven decoder yields what the structured reader yields, or a value error |
| `RaknetCodec.ReadIndexFields` | src/raknet_codec.py:86-95 | reads the index fields of the mode and ends at the offset behind them |
| `RaknetCodec.Decode` | src/raknet_codec.py:72-110 | decoding fails only with a value error, and a decoded frame consumes at least one and at most all bytes |
| `RaknetCodec.DecodeInvertsEncode` | src/raknet_codec.py:47-110 | prefix-free: for every encodable frame and any suffix, decoding reads that frame (fields cut to width) and exactly its bytes |
| `RaknetCodec.RoundTripsExactly` | src/raknet_codec.py:28-110 | an encodable frame comes back equal, in the dataclass comparison that leaves out the mode, if and only if its fields agree with the mode it is sent with and fit |
| `RaknetCodec.EveryFieldReturnsExactly` | src/raknet_codec.py:47-110 | every field comes back, the mode included, if and only if the frame carries its mode explicitly and agrees with it |
| `RaknetCodec.ReliableFrameSurvives` | src/raknet_codec.py:134-135 | a reliable frame without explicit mode comes back equal exactly when it is ordered on a one-byte channel, or unordered on channel 0 with order index 0 |
| `RaknetCodec.OrderIsLost` | src/raknet_codec.py:50-62 | a frame that is ordered but not reliable comes back unordered, with order index and channel 0 |
| `RaknetCodec.DecodeGivesWireFrames` | src/raknet_codec.py:72-110 | every decoded frame is mode-consistent and in range, and re-encodable if and only if its payload has at most 8191 bytes |
| `RaknetCodec.OversizedFrame` | src/raknet_codec.py:55-107 | every unreliable frame with bit length 65535 and 8192 payload bytes decodes to that payload and then fails to encode |
| `RaknetCodec.ParseConnectedDatagram` | src/raknet_codec.py:238-257 | the offset loop reads the sequence and all frames, terminates, or fails with a value error |
| `RaknetCodec.ParseInvertsEncodeAll` | src/raknet_codec.py:238-257 | parsing concatenated encodings returns exactly that list of frames |
| `RaknetCodec.ParseInvertsAssemble` | src/raknet_codec.py:238-257 | a datagram of coalesced frames yields its sequence number and its frames in order |
| `RaknetCodec.ReadRecordAt` | src/raknet_codec.py:284-293 | one ACK record at an offset, refused when truncated, descending or wider than the guard |
| `RaknetCodec.ReadAckList` | src/raknet_codec.py:276-302 | the ACK parser loop, with the 65536 limit, the optional six-byte trailer and no other trailing bytes |
| `RaknetCodec.AckListIsBounded` | src/raknet_codec.py:276-302 | an accepted list has at most 65536 numbers, each below 2^24 |
| `RaknetCodec.GuardIsRedundant` | src/raknet_codec.py:292-295 | any range guard of at least 65536 gives the same result, because of the expansion limit |
| `RaknetCodec.AckMeaning` | src/raknet_codec.py:276-302 | a record list, with or without metrics, is accepted exactly when no range runs backwards and it expands to at most 65536 numbers, and yields that expansion |
| `RaknetCodec.AcceptedAckIsRecords` | src/raknet_codec.py:276-302 | every accepted byte string is such a record list and yields its expansion, the empty list included |
| `RaknetCodec.EmptyAckIsAccepted` | src/raknet_codec.py:276-302 | a list of no records is accepted behind metrics and names nothing |
| `RaknetCodec.ParseInvertsBuildAck` | src/raknet_codec.py:260-273 | parsing a built ACK returns its one sequence number |
| `FrameLayout.EncodeLayout` | src/raknet_codec.py:47-70 | mode by mode, 0 to 7, for an encodable frame without split: its first byte, its 16-bit size, which bytes hold message, sequencing and order index, lowest byte first, and the channel, and where the payload starts |
| `FrameLayout.DecodeLayout` | src/raknet_codec.py:72-110 | mode by mode, 0 to 7, which bytes are read as which field, with the flags of the mode, and how many bytes are needed |
| `FrameLayout.ImpliedMode` | src/raknet_codec.py:50-52 | a frame without explicit mode is encoded as mode 3, 2 or 0 by its two flags |
| `FrameLayout.EncodableExactly` | src/raknet_codec.py:47-70 | which frames are encoded, and which error each other frame raises |
| `FrameLayout.SplitEncodeLayout` | src/raknet_codec.py:63-69 | a fragment is the unsplit frame with bit 4 of the first byte set and ten bytes behind the index fields: count, id and index, highest byte first |
| `FrameLayout.SplitDecodeLayout` | src/raknet_codec.py:96-110 | bytes with that bit are read as the bytes without it, plus those ten, and refused if the index is not below the count or bytes are missing |
| `FrameLayout.DatagramLayout` | src/rift_headless.py:683-686 | a datagram is the flag byte, the sequence number in three bytes, lowest first, and the frames one after the other |
| `AckLayout.ConnectedKinds` | src/raknet_codec.py:238-257 | exactly the datagrams of first byte 0x80 to 0x8F with whole frames are read, and the sequence number is bytes 1 to 3, lowest first |
| `AckLayout.FramesTogether` | src/raknet_codec.py:244-257 | bytes that are whole frames with more bytes behind them are those frames and then the frames of the rest, or a value error if the rest is not whole frames |
| `AckLayout.BuiltAck` | src/raknet_codec.py:260-273 | the seven bytes of a built ACK, and which numbers are refused |
| `AckLayout.OneNumber` | src/raknet_codec.py:276-302 | one record with any nonzero marker names the one number in its three bytes, under all four kinds, with metrics where those are allowed |
| `AckLayout.OneRange` | src/raknet_codec.py:276-302 | one record with marker 0 names all numbers from the first to the last, in order, and is refused if it runs down or has more than 65536 |
| `AckLayout.TrailingBytes` | src/raknet_codec.py:297-302 | bytes behind the records are refused unless there are six of them behind 0xB0 or 0xD0 |
| `Reliability.ReliabilityWindow.constructor` | src/raknet_codec.py:123-128 | an empty window with counters at zero |
| `Reliability.ReliabilityWindow.TrackFrame` | src/raknet_codec.py:130-140 | tracking files one frame under the next index, or leaves the whole state alone when the window is full |
| `Reliability.ReliabilityWindow.TrackSplitFrames` | src/raknet_codec.py:142-168 | splitting files all fragments under one order index, or leaves the whole state alone when they do not fit |
| `Reliability.ReliabilityWindow.FileFragments` | src/raknet_codec.py:157-165 | the loop cuts, numbers and files the fragments one by one |
| `Reliability.ReliabilityWindow.AcknowledgeFrame` | src/raknet_codec.py:170-171 | removes the entry under the masked index and says whether there was one |
| `Reliability.ReliabilityWindow.DueFrames` | src/raknet_codec.py:173-181 | refreshes and returns exactly the entries that are due, in dictionary order |
| `Reliability.CeilingDivision` | src/raknet_codec.py:148 | the fragment count covers the payload and one less would not |
| `Reliability.FragmentsJoin` | src/raknet_codec.py:148-163 | the fragments, each of 1 to max_payload bytes, are the payload end to end |
| `Reliability.OperateKeepsInv` | src/raknet_codec.py:130-181 | tracking, splitting, acknowledging and the due pass keep the index bookkeeping right |
| `Reliability.IndexAssignment` | src/raknet_codec.py:130-181 | over any run the n-th frame has index n mod 2^24, the fragments of the k-th ordered message of a channel carry k mod 2^24, and the window stays within max_pending |
| `Sender.RakNetClient.constructor` | src/rift_headless.py:404-415 | the initial state of the sender, for any random split id and any environment |
| `Sender.RakNetClient.EmitDatagram` | src/rift_headless.py:683-689 | consumes one sequence number, encodes and sends; whatever raises leaves both dictionaries alone, a tracked datagram that went out is in both |
| `Sender.RakNetClient.CountDatagram` | src/rift_headless.py:683-684 | the sequence number advances before anything is encoded |
| `Sender.RakNetClient.CacheDatagram` | src/rift_headless.py:688-689 | bytes and message index go under one sequence |
| `Sender.RakNetClient.SendReliablePayload` | src/rift_headless.py:660-695 | the whole new state of a reliable send: split or not, tracked or not, failing or not, followed by eviction |
| `Sender.RakNetClient.EmitFrames` | src/rift_headless.py:682-689 | sends the frames one datagram each and stops at the first that raises |
| `Sender.RakNetClient.EvictOld` | src/rift_headless.py:691-694 | the eviction loop |
| `Sender.RakNetClient.ForgetSequence` | src/rift_headless.py:692-694 | a sequence leaves both dictionaries |
| `Sender.RakNetClient.SendUnreliablePayload` | src/rift_headless.py:697-704 | consumes a sequence number and touches neither the window nor the cache |
| `Sender.RakNetClient.SendCoalescedPayload` | src/rift_headless.py:714-728 | what the three coalesced sends share: one tracked frame with untracked ones behind it, cached under one sequence |
| `Sender.RakNetClient.SendNewIncomingConnection` | src/rift_headless.py:706-730 | sent at most once, given its payloads, and remembered as sent exactly if nothing raised |
| `Sender.RakNetClient.SendConnectionRequest` | src/rift_headless.py:1113-1149 | caches the encrypted packet in place of the datagram, and passes on only the exceptions it does not expect |
| `Sender.RakNetClient.SendPingPair` | src/rift_headless.py:1194-1221 | a tracked ping item with an untracked one behind it |
| `Sender.RakNetClient.ApplyAckDatagram` | src/rift_headless.py:732-745 | an unparsable ACK changes nothing, any other takes out what it names |
| `Sender.RakNetClient.AckSequence` | src/rift_headless.py:738-741 | one acknowledged sequence leaves both dictionaries and its message leaves the window |
| `Sender.RakNetClient.ResendDueFrames` | src/rift_headless.py:747-759 | resends every due frame that is not exhausted, under a fresh sequence |
| `SenderSafety.StepKeepsInv` | src/rift_headless.py:660-759 | every operation keeps the sender invariant, at whatever point encoding or transmission raises |
| `SenderSafety.EveryRunKeepsInv` | src/rift_headless.py:660-759 | every reachable state satisfies the sender invariant, for every clock and every pattern of failing transmissions |
| `SenderSafety.SendReliableKeepsInv` | src/rift_headless.py:660-695 | the reliable send keeps the invariant on all its paths |
| `SenderSafety.SendCoalescedKeepsInv` | src/rift_headless.py:706-730 | so do the connection request, the new incoming connection and the ping pair |
| `SenderSafety.ResendAllKeepsInv` | src/rift_headless.py:749-758 | the resend loop pays back one allowance for each entry that became due |
| `SenderSafety.AckAllKeepsInv` | src/rift_headless.py:737-741 | so does the ACK loop |
| `SenderSafety.EvictKeepsInv` | src/rift_headless.py:691-694 | and the eviction loop |
| `SenderSafety.DictionariesAgree` | src/rift_headless.py:660-695 | cache and sequence map have one key set, pending frames sit under their own index and within max_pending, and a cached sequence whose message is pending was sent carrying that very frame |
| `SenderSafety.Conservation` | src/rift_headless.py:732-759 | tracked frames are the pending, the retired and the overwritten ones, so conservation fails exactly by what was filed over a pending frame |
| `SenderSafety.ReuseIsAFullSpan` | src/raknet_codec.py:134-139 | the next index or sequence is still live if and only if some live entry is exactly 2^24 old |
| `SenderSafety.EvictKeepsNewest` | src/rift_headless.py:691-694 | eviction leaves exactly the newest 4096 cached datagrams, in order |
| `SenderSafety.BoundedRetransmission` | src/rift_headless.py:747-759 | in every run each tracked frame is sent at most three times, always as the same frame with its own message index, the d-th datagram under sequence d mod 2^24, so that no two transmissions less than 2^24 datagrams apart share one |
| `SenderSafety.AckEffect` | src/rift_headless.py:732-741 | an ACK list removes exactly the cache entries it names and the pending frames they stand for |
| `SenderSafety.AckIsIdempotent` | src/rift_headless.py:732-741 | applying the same list again changes nothing |
| `SenderSafety.AckSoundness` | src/rift_headless.py:732-741 | a pending frame is retired if and only if the list names a cached datagram that carried it, whichever of its transmissions that was |
| `Retransmission.ResendsExactly` | src/rift_headless.py:747-759 | in every reachable state a resend pass that raises nothing sends the frame of a pending entry again, exactly once, unchanged and under its own serial, if and only if `now - sentAt >= resendAfter` and `attempts < 3`; entries that waited get the present time and one more attempt, all others stay as they are |
| `Retransmission.ResendsNothingElse` | src/rift_headless.py:749-758 | and every datagram of that pass is one of those |
| `Outgoing.UnreliableGoesOut` | src/rift_headless.py:697-704 | one datagram more, with the payload in a lone frame of mode 0 and the flag cut to its top bit and its low four; nothing else of the client changes |
| `Outgoing.UntrackedGoesOut` | src/rift_headless.py:674-694 | a reliable send without tracking takes both indices from the datagram sequence and leaves the window alone |
| `Outgoing.TrackedGoesOut` | src/rift_headless.py:660-694 | a tracked send puts each of the tracked frames in a datagram of its own, flag 0x80, under serials that count on, and leaves at most 4096 datagrams cached |
| `Outgoing.TrackedFrame` | src/raknet_codec.py:130-140 | the frame of an unsplit payload: the next message index, the channel's next order index, no explicit mode |
| `Outgoing.TrackedExactly` | src/raknet_codec.py:131-132 | a frame is tracked if and only if fewer than max_pending wait; otherwise a buffer error |
| `Outgoing.SplitExactly` | src/raknet_codec.py:146-152 | a message is cut if and only if max_payload is positive and its fragments fit beside what waits, into no more of them than needed |
| `Outgoing.TrackedWaits` | src/raknet_codec.py:134-140 | the new frame waits under the next index, sent now for the first time; the index and the order counter of its channel move on by one |
| `Outgoing.FragmentsWait` | src/raknet_codec.py:153-168 | each fragment waits under an index of its own, sent now for the first time, what waits under other indices is as it was, and one order counter moves on by one |
| `Outgoing.AcknowledgedIs` | src/raknet_codec.py:170-171 | an acknowledgement takes away what waits under the index modulo 2^24, and nothing else |
| `Outgoing.CoalescedGoesOut` | src/rift_headless.py:714-728 | a coalesced send puts its tracked frame first and the others behind it as given, and caches that datagram, or the given bytes, under its sequence |
| `Outgoing.CachedWentOut` | src/rift_headless.py:683-695 | over every run, a cached sequence stands for a datagram whose transmission raised nothing, sent under that very number, and the cached bytes are that datagram |
| `Outgoing.EldestAreEvicted` | src/rift_headless.py:691-694 | in a run that reuses no live number, every datagram that eviction drops went out before every datagram it keeps |
| `SenderWindow.StepFiles` | src/rift_headless.py:660-759 | which frames an event files, read off the state before it, and that it sends at most the planned number of datagrams, and exactly that many unless it raises |
| `SenderWindow.StepIsSafe` | src/rift_headless.py:660-759 | an event hands out a live index or sequence if and only if some live frame or datagram grows older than 2^24 in it, and overwrites a pending frame if and only if one of those does |
| `SenderWindow.PlannedIsSafe` | src/rift_headless.py:660-759 | checking the ages against the planned numbers before the call is enough, and for a call that raises nothing it is also necessary |
| `SenderWindow.RunIsSafe` | src/rift_headless.py:660-759 | the same over whole runs: no reuse if and only if every event keeps every live entry young |
| `SenderWindow.ConservationOverRuns` | src/raknet_codec.py:130-171 | over every run tracked frames equal pending plus retired ones if and only if every event kept the pending frames young |
| `SenderWindow.SafeRunsAreSparing` | src/raknet_codec.py:130-171 | a safe run conserves its frames |
| `SenderWindow.DictionariesAgreeOverRuns` | src/rift_headless.py:660-695 | in a safe run a cached sequence whose message is pending went out under that number carrying that very frame, and the cached bytes are that datagram |
| `SenderWindow.NumbersAreFreshOverRuns` | src/rift_headless.py:683-684 | in a safe run no sequence number is consumed while a cached datagram carries it |
| `SenderWindow.AckSoundnessOverRuns` | src/rift_headless.py:732-741 | in a safe run an ACK list retires a pending frame if and only if it names a cached datagram sent for that frame |
| `AcknowledgedRuns.StepHolds` | src/rift_headless.py:660-759 | an event that completes keeps every pending frame carried by a cached datagram, and nothing live grows older than its own frames and datagrams |
| `AcknowledgedRuns.FullAckEmpties` | src/rift_headless.py:732-745 | an acknowledgement that names every cached sequence leaves no frame pending and nothing cached |
| `AcknowledgedRuns.AcknowledgedRunIsSafe` | src/rift_headless.py:660-759 | every run whose operations complete and that never sends more than 4096 datagrams between full acknowledgements is safe, past every wrap of the counters |
| `AcknowledgedRuns.AnsweredRunIsSafe` | src/rift_headless.py:660-759 | with a window of at most 4096 frames, any operations with a full acknowledgement after each make a safe run |
| `SenderRuns.RepeatedExchangeIsSafe` | src/rift_headless.py:660-745 | an instance of any length: one small message and its acknowledgement, n times over |
| `SenderRuns.UnansweredRunOverwrites` | src/raknet_codec.py:134-139 | a run with one unacknowledged message that is filed over after 2^24 others, so that frames are lost from the account |
| `SplitReassembly.SplitReassembler.constructor` | src/raknet_codec.py:187-194 | an empty reassembler satisfies the invariant |
| `SplitReassembly.SplitReassembler.PushFrame` | src/raknet_codec.py:196-235 | the whole new state and result of a push of any frame, raising or not, and that a well-formed frame keeps the invariant |
| `SplitReassembly.SplitReassembler.FillGroup` | src/raknet_codec.py:209-235 | conflict, store, byte limit, completeness and delivery in that order |
| `SplitReassembly.SplitReassembler.StorePart` | src/raknet_codec.py:214-217 | the first part under an index and the first template of a group win |
| `SplitReassembly.SplitReassembler.DropGroup` | src/raknet_codec.py:206-208 | a dropped group leaves all three maps |
| `SplitReassembly.SplitReassembler.MeasureParts` | src/raknet_codec.py:218 | the byte count of a group |
| `SplitReassembly.SplitReassembler.JoinParts` | src/raknet_codec.py:225-228 | joins the parts in index order, or reports a missing one |
| `SplitReassembly.FullGroupHasEveryIndex` | src/raknet_codec.py:223-228 | pigeonhole: as many distinct indices below the count as the count are all of them, so the missing-key fallback is dead |
| `SplitReassembly.PushKeepsInv` | src/raknet_codec.py:196-235 | any push keeps one key set of at most max_groups, unfinished groups, indices in range and bytes within max_bytes; with a positive max_groups eviction always finds a group |
| `SplitReassembly.PushRaises` | src/raknet_codec.py:199-222 | a push raises if and only if the frame is split and has too many parts, finds a table that admits no group, changes the count of its group, or brings the group over the byte limit; and which exception it raises |
| `SplitReassembly.WaitingMeansIncomplete` | src/raknet_codec.py:223-224 | when a split frame yields nothing, its group is retained and still misses a part |
| `SplitReassembly.EveryRunKeepsInv` | src/raknet_codec.py:187-235 | the invariant holds after any sequence of pushes, including those that raise |
| `PushEffects.PushLeaves` | src/raknet_codec.py:196-235 | every push on every path: which groups are left and in which order, that no other group changes, what the fragment's own group holds while it waits, and that a complete message has the header of the fragment that opened its group |
| `Delivery.FragmentsEncode` | src/raknet_codec.py:142-168 | every fragment is encodable when max_payload is at most 8191 |
| `Delivery.ArrivalOfWire` | src/raknet_codec.py:238-257 | the receiver reads from any datagrams exactly the frames packed into them |
| `Delivery.TrackedIsMessage` | src/raknet_codec.py:142-168 | the fragments arrive with split id, channel when ordered, order index and mode 3 or 2 as `track_split`'s arguments give them, in their places, and join to the payload |
| `Delivery.PushSame` | src/raknet_codec.py:196-235 | a fragment is stored and waits, or completes the message and leaves no group behind |
| `Delivery.PushOther` | src/raknet_codec.py:196-235 | a frame of another group leaves the message alone unless it opens one group too many |
| `Delivery.Waiting` | src/raknet_codec.py:196-235 | until all fragments are in, the group holds exactly the supplied ones, under any order, duplicates and interleaving |
| `Delivery.Delivered` | src/raknet_codec.py:196-235 | the push that supplies the last missing fragment returns the payload, and none before does |
| `Delivery.EndToEnd` | src/raknet_codec.py:142-257 | split, coalesced, reordered, duplicated and interleaved, the payload comes out whole at exactly the completing push; conflicts are counted among the frames whose split id, channel, order index and mode are those of `track_split`'s arguments, cut to width |
| `Delivery.PlainDelivery` | src/raknet_codec.py:142-257 | with a fresh reassembler and one datagram per fragment all hypotheses of the end-to-end theorem hold |
| `Interleaving.BothAreDelivered` | src/raknet_codec.py:196-235 | two split messages that differ in at least one of split id, channel, order index and mode, any mix of exactly their fragments, duplicates included, within the limits: both payloads come out, each at the push that brings its last missing fragment and at none of its pushes before |
| `Interleaving.TwoMessages` | src/raknet_codec.py:142-235 | the same for two messages as track_split cuts them: split ids different modulo 2^16, or different channels modulo 256 when ordered, order indices or order flags |
| `SplitIds.StepTakesId` | src/rift_headless.py:660-671 | an event takes the next split id if and only if it cuts a message, whatever raises afterwards |
| `SplitIds.IdsCount` | src/rift_headless.py:660-671 | over every run the split id is the first one plus the number of messages cut, modulo 2^16 |
| `SplitIds.TwoOfARun` | src/rift_headless.py:660-671 | two split messages of a run, fewer than 2^16 cuts apart, both come out whole of any mix of their fragments |
| `Conversation.FragmentsAreTracked` | src/raknet_codec.py:157-165 | the fragments of a message take the next serials of the run and keep them |
| `Conversation.ArrivalsAreWire` | src/rift_headless.py:683-686 | what a run sent is the datagrams of its frames under their sequences |
| `Conversation.SplitMessageArrives` | src/rift_headless.py:660-759 | in any run of the sender, whichever of its datagrams arrive, in any order and number, the reassembler returns a split message whole at the completing push once one transmission of each fragment has arrived |
| `Delivery.Unsplit` | src/raknet_codec.py:149-150 | a message that is not split comes back from the push of its one frame |
| `Replication.ReadDatagram` | src/replication.py:132-168 | the parser loop: ACK kinds, data, or a value error |
| `Replication.DatagramParsersAgree` | src/replication.py:132-168 | on 0x80 to 0x8F both datagram parsers accept the same byte strings and read the same frames |
| `AckLayout.DatagramKinds` | src/replication.py:132-168 | by the first byte: 0x40 to 0x7F and from 0xC0 on acknowledgements, 0x80 to 0xBF data with the sequence number in bytes 1 to 3 and whole frames behind, anything else a value error |
| `Replication.ReadAckSequences` | src/replication.py:171-211 | the second ACK parser loop, with its own range guard |
| `Replication.AckParsersAgree` | src/replication.py:171-211 | on every byte string both ACK parsers reject or return the same list |
| `Replication.ReplicatorState.constructor` | src/replication.py:215-250 | no evidence and an empty reassembler |
| `Replication.ReplicatorState.NoteKind` | src/replication.py:317-335 | what the block type alone does to flags and counters; a new-instance block assigns the character flag |
| `Replication.ReplicatorState.NoteMarkers` | src/replication.py:336-342 | what the marker and identity searches add |
| `Replication.ReplicatorState.NoteBlock` | src/replication.py:315-342 | the whole block handler |
| `Replication.ReplicatorState.NoteAliases` | src/replication.py:394-420 | the profile aliases and the word search, counting each block at most once |
| `Replication.ReplicatorState.NoteId` | src/replication.py:376-385 | the application-id histogram and its flags |
| `Replication.ReplicatorState.ObserveBlockPayload` | src/replication.py:386-422 | one DATA message with a block type, with the event limit |
| `Replication.ReplicatorState.ObservePayload` | src/replication.py:376-422 | one complete message |
| `Replication.ReplicatorState.ApplyOne` | src/replication.py:350-366 | one frame: pushed, and observed if it completes a nonempty message |
| `Replication.ReplicatorState.ApplyPlaintext` | src/replication.py:344-425 | one datagram: the frames in order, abandoned at the first push that raises, what was recorded before kept, and the list of complete messages |
| `Replication.ObserveCounts` | src/replication.py:376-422 | what one message adds to each histogram and counter |
| `Replication.ObserveKeepsAccounting` | src/replication.py:315-422 | one message keeps every counter equal to its view of the histograms |
| `Replication.EveryRunAddsUp` | src/replication.py:344-425 | over every run, raising or not: registered iff blocks were seen; heartbeats and physics equal their histogram sums; instance, ready, bootstrap, schema and connection flags iff their counts are positive; blocks at most DATA messages; events the number of blocks up to 64 |
| `Replication.SpawnIsWithdrawn` | src/replication.py:317-323 | exactly the messages that take the character flag back |
| `ReceiverRuns.SpawnIsNoLatch` | src/replication.py:318-323 | a run of two datagrams, under a one-byte character marker, that sets the flag and clears it |
| `ReceiverRuns.RaiseAbandonsTheRest` | src/replication.py:350-366 | frames behind one whose push raises change nothing, whatever they are |
| `ReceiverRuns.FramesRaise` | src/replication.py:350-366 | a list of frames raises if and only if the reassembler refuses one of them at its turn, and then only the frames up to it count |
| `ReceiverRuns.AcceptanceIsLost` | src/replication.py:350-377 | a datagram of an oversplit fragment and an acceptance that leaves no evidence, while the acceptance alone does |
| `ReceiverRuns.DatagramArrives` | src/replication.py:344-366 | a datagram of encodable frames reaches the message loop as those frames |
| `Reception.RunIsPushes` | src/replication.py:344-377 | over every run of datagrams, whatever raises, the receiver's groups and messages are those of the reassembler over the frames it pushed |
| `Reception.RunsAlike` | src/replication.py:350-361 | when only first frames are fragments, the receiver opens the groups that pushing every frame would open |
| `Reception.PushedSplitMessage` | src/replication.py:344-377 | in any run of the sender, once one transmission of each fragment has arrived, the payload is among the receiver's messages, as long as the pushed frames meet the reassembler's limits |
| `Reception.SplitMessageIsObserved` | src/replication.py:344-377 | the same under limits on the frames that arrive, when the frames behind a tracked one are not fragments |
| `ReceiverRuns.EvidenceCountsMessages` | src/replication.py:344-425 | over every run, raising or not, the histograms count the complete messages by id and block, heartbeats and physics count those of their blocks, and the events are the first 64 block messages |
| `EvidenceFlags.RunIsFold` | src/replication.py:344-425 | over every run, whatever raises, the evidence is what the complete messages make of an empty record one after the other |
| `EvidenceFlags.EveryRunSays` | src/replication.py:315-422 | over every run each flag holds if and only if some complete message says so, by its first two bytes, the profile or the search; the character flag is decided by the latest new-instance block and whatever confirmed it since |
| `ReceiverCounts.JoinedAreCounted` | src/replication.py:359-363 | over every run, whatever raises, the count of split messages grows by one for each fragment whose push returns a message, empty ones included |
| `ReceiverCounts.SequenceIsLatest` | src/replication.py:345-348 | over every run the last sequence is the number in the latest datagram that is data and whole, even if a push in it raised |
| `PushEffects.EntryKeepsFields` | src/replication.py:364-373 | an entry of the list of messages keeps the fields of the frame that completed it, but for the payload, the split count and the mark of reassembly |
| `EstablishedAead.NonceIsInjective` | src/established_aead.py:19-20 | different counters have different nonces |
| `EstablishedAead.YieldCandidates` | src/established_aead.py:23-61 | the generator yields the candidates in order, each once |
| `EstablishedAead.YieldAnchors` | src/established_aead.py:23-61 | the fresh-epoch loop drops every candidate already seen |
| `EstablishedAead.NearestIsUnique` | src/established_aead.py:23-61 | the first candidate is the only counter with the hinted low bits in the half-open window of 2^15 around the last one |
| `EstablishedAead.CandidatesAre` | src/established_aead.py:23-61 | candidates are distinct and finite, and these are exactly the counters tried |
| `EstablishedAead.ParseInvertsEncrypt` | src/established_aead.py:76-147 | parsing a built record returns its header, the counter's low 16 bits and the sealed body |
| `EstablishedAead.DecryptEstablished` | src/established_aead.py:112-133 | the cipher is selected by name, an unknown one refused, and the nested trial loops return the first combination that authenticates |
| `EstablishedAead.ScanCounters` | src/established_aead.py:124-132 | the loop over counters and associated data for one key |
| `EstablishedAead.TryKeysIs` | src/established_aead.py:122-133 | failure means no combination opens; success comes from a listed key, counter and associated data |
| `EstablishedAead.GenuineIsRecovered` | src/established_aead.py:112-133 | with an ideal AEAD a genuine record whose counter is a candidate yields its plaintext and full counter |
| `EstablishedAead.LastCounterIsRemembered` | src/rift_headless.py:1000-1037 | over every run, however streams and epochs interleave, each stream remembers the counter of its own last genuine record, noise notwithstanding |
| `EstablishedAead.EveryGenuineIsRecovered` | src/rift_headless.py:986-1037 | in every run whose counters stay, stream by stream, within half a wrap of the previous one, each genuine record is recovered exactly |
| `EstablishedAead.FreshEpochIsCovered` | src/established_aead.py:23-61 | without a last counter, every counter in the scanned blocks above the base is a candidate |
| `EstablishedAead.IdealIsPossible` | src/established_aead.py:112-147 | the ideal-AEAD hypothesis is satisfiable for any lists of keys and associated data with up to 2^32 pairs |
| `EstablishedAead.EstablishedSender.Send` | src/rift_headless.py:1168-1182 | the transmit counter advances when a record is sealed and stays put when sealing raises or the datagram goes out in the clear |
| `EstablishedAead.NoncesNeverRepeat` | src/rift_headless.py:1168-1176 | no two sealed datagrams share a nonce, under whatever headers and keys they go out, the connection request included |
| `EstablishedAead.SealedExactly` | src/rift_headless.py:1129-1136 | a datagram is sealed if and only if its header and key call for it, the key has 32 bytes and the counter is below 2^64 |
| `EpochRuns.RecordLayout` | src/established_aead.py:136-149 | the bytes of a built record: prefix, header size, header, ciphertext, two bytes of the counter, lowest first, and the 16-byte tag |
| `EpochRuns.NonceLayout` | src/established_aead.py:19-20 | the twelve bytes of a nonce |
| `EpochRuns.StreamsByBytes` | src/rift_headless.py:994-1001 | two packets that parse belong to one stream if and only if they agree in packet[3] and packet[7..23] |
| `EpochRuns.RecoveredByBytes` | src/rift_headless.py:986-1040 | over every run in which each genuine record lies within half a wrap of the last one that agrees with it in those bytes, or is the first and a fresh candidate, every genuine record yields its plaintext and full counter |
| `EpochRuns.NewEpochIsRecovered` | src/rift_headless.py:994-1001 | the first record of an epoch is recovered from its fresh candidates, whatever the last counters of other epochs are |
| `TrialLayout.RecordRead` | src/established_aead.py:76-87 | exactly which byte strings are records, and where header, ciphertext, counter bits and tag are read |
| `TrialLayout.KnownCandidates` | src/established_aead.py:48-60 | on a known stream: the counter with these 16 bits within half a wrap first, then its neighbours, lower before upper, up to 32 of each |
| `TrialLayout.FreshCandidates` | src/established_aead.py:31-47 | on a fresh stream: exactly the 16 bits and the base's block with them, counted on from by 1 and by 2^16 |
| `TrialLayout.FreshStart` | src/established_aead.py:31-41 | the 16 bits alone are tried first and then those within the base's block |
| `TrialLayout.FreshGrows` | src/established_aead.py:42-47 | a wider span adds its two last candidates behind the others, each unless it is there already |
| `TrialLayout.AssociatedData` | src/established_aead.py:90-109 | without a list from the caller: none, the header, and the header behind the four bytes before it |
| `TrialLayout.OpenedExactly` | src/established_aead.py:112-133 | a record is opened if and only if there is a key, all keys have 32 bytes, and some key, candidate and associated data open it, and the result is that of such a combination |
| `TrialLayout.SealsBy` | src/rift_headless.py:1129-1171 | which headers and keys are sealed, by their first three bytes and sizes |
| `TrialLayout.SealedIsOpened` | src/established_aead.py:112-149 | whatever the n-th sealed datagram of the sender is, a receiver with its key and no associated data given opens it to the same plaintext and full counter, if it knows a counter of the stream within half a wrap or scans far enough |
| `Envelope.ShuffleTwice` | src/application_crypto.py:21-27 | the block shuffle undoes itself |
| `Envelope.ApplicationChecksum` | src/application_crypto.py:30-38 | the accumulator loop computes the recursive checksum |
| `Envelope.CbcInverts` | src/application_crypto.py:41-87 | CBC decryption undoes CBC encryption, block by block (section 6.2 of NIST SP 800-38A) |
| `Envelope.CbcInvertsBack` | src/application_crypto.py:41-87 | and the other way round |
| `Envelope.FillClear` | src/application_crypto.py:60-87 | filling the buffer in place gives header, noise and payload in whole blocks |
| `Envelope.EncryptApplicationEnvelope` | src/application_crypto.py:60-87 | the encryptor, with the code's key check and length checks |
| `Envelope.CipherIsPossible` | src/application_crypto.py:41-87 | the block-cipher hypothesis is satisfiable by a keyed, non-trivial permutation |
| `Envelope.DecryptInvertsEncrypt` | src/application_crypto.py:41-87 | encryption succeeds exactly for a 16-byte key and noise of the requested length, and decryption then returns the payload |
| `Envelope.AcceptedIsEncrypted` | src/application_crypto.py:41-87 | whatever decryption accepts is the encryption of its payload under some noise |
| `EnvelopeLayout.ShuffleAt` | src/application_crypto.py:21-27 | of n blocks block 0 stays and block i is block n - i |
| `EnvelopeLayout.CbcAt` | src/application_crypto.py:85-87 | each encrypted block is E of the clear block xored with the encrypted block before it, the first with the zero IV |
| `EnvelopeLayout.WireBlocks` | src/application_crypto.py:60-87 | of n blocks, wire block 0 is E of clear block 0, and for i from 1 on wire block n - i is E of clear block n - i xored with the cipher block chained before it |
| `EnvelopeLayout.ClearLayout` | src/application_crypto.py:72-84 | the clear bytes: checksum lowest byte first, noise, the padding length in the low half of byte 5, padding, payload |
| `EnvelopeLayout.ChecksumIsSum` | src/application_crypto.py:30-38 | the checksum is the sum of the bytes, each xored with the upper half of the rolling state before it, modulo 2^32 |
| `TicketHash.RolInverse` | src/application_crypto.py:108-111 | rotating on by the complementary count undoes a rotation |
| `TicketHash.RolSwapsParts` | src/application_crypto.py:108-111 | a rotation swaps the two parts of the word |
| `TicketHash.XorShiftInverse` | src/application_crypto.py:142-144 | the xor-shift is a bijection of words, with its inverse |
| `TicketHash.ProgramIsBijective` | src/application_crypto.py:147-167 | any sequence of invertible word steps is a bijection |
| `TicketHash.HashStripes` | src/application_crypto.py:123-131 | the four-lane loop is the stripe recursion and leaves fewer than 16 bytes |
| `TicketHash.HashRemainder` | src/application_crypto.py:135-141 | the word and byte loops consume the rest, each byte once |
| `TicketHash.XxHash32Loops` | src/application_crypto.py:114-144 | the loops compute XXH32 for all lengths and seeds |
| `TicketHash.StripesConsume` | src/application_crypto.py:126-130 | the stripes consume exactly the whole multiples of 16 bytes |
| `TicketHash.StripesOfConcat` | src/application_crypto.py:126-130 | stripes can be hashed piece by piece |
| `TicketHash.AvalancheIsBijective` | src/application_crypto.py:142-144 | the final avalanche is a bijection of 32-bit words |
| `TicketHash.MixerFollowsPlan` | src/application_crypto.py:147-167 | the mixer is a program of sixteen invertible steps and one multiplication, on every branch combination |
| `TicketHash.FactorIsOdd` | src/application_crypto.py:149-154 | the chosen multiplier is odd if and only if the key is not 2 modulo 4 |
| `TicketHash.OddFactorBijection` | src/application_crypto.py:147-167 | for those keys the mixer is a bijection of the digest |
| `TicketHash.EvenFactorCollision` | src/application_crypto.py:147-167 | for the others two digests collide |
| `TicketHash.MixerIsInjectiveExactly` | src/application_crypto.py:147-167 | the mixer is injective if and only if the key is not 2 modulo 4 |
| `TicketHash.TicketHashKeepsDigests` | src/application_crypto.py:170-172 | under those keys ticket hashes collide only where the XXH32 digests do |
| `HashSteps.RoundIs` | src/application_crypto.py:120-121 | one lane step with its two primes and its rotation in plain arithmetic |
| `HashSteps.StripeIs` | src/application_crypto.py:126-130 | a stripe feeds its four words, lowest byte first, to the four accumulators in order |
| `HashSteps.ConvergeIs` | src/application_crypto.py:131 | the four accumulators rotated by 1, 7, 12 and 18 and added |
| `HashSteps.RestStepsAre` | src/application_crypto.py:135-141 | the word step and the byte step behind the stripes, with their primes and rotations |
| `HashSteps.AvalancheIs` | src/application_crypto.py:142-144 | the three xor-shifts by 15, 13 and 16 and the two primes between them |
| `HashSteps.DigestIs` | src/application_crypto.py:114-144 | short inputs start from the fifth prime, others from the stripes; then length, rest and avalanche |
| `HashSteps.SwitchesAre` | src/application_crypto.py:147-150 | the sixteen switches of the mixer are the low bits of the key times a constant |
| `HashSteps.PlanIs` | src/application_crypto.py:152-155 | the steps of the mixer up to the multiplication, with the word that each switch chooses |
| `HashSteps.StepsBehind` | src/application_crypto.py:156-167 | and the thirteen steps behind it |
| `HashSteps.StepsAre` | src/application_crypto.py:147-167 | what each kind of step does to a word, in plain arithmetic |
| `Pcg.SeedingIsReference` | src/application_challenge.py:392-394 | seeding is one reference step from zero, the seed added, and another step |
| `Pcg.StepIsInjective` | src/application_challenge.py:396-398 | the state transition loses nothing |
| `Pcg.SeedsStayApart` | src/application_challenge.py:392-398 | two seeds have equal states after n steps if and only if they are equal modulo 2^64 |
| `Pcg.ScaleInRange` | src/application_challenge.py:403-411 | every result lies between the two bounds, inclusive |
| `Pcg.NearlyUniform` | src/application_challenge.py:403-411 | every value of the range is hit by the floor or the ceiling of 2^32 over the span of the 32-bit outputs |
| `Pcg.OutputRotates` | src/application_challenge.py:399-401 | the output is the middle word of the xor-shifted state, rotated right by the top five bits |
| `Pcg.StateForIsInverse` | src/application_challenge.py:396-401 | for each output, rotation and low part there is exactly one state, and it is computed |
| `Pcg.OutputIsBalanced` | src/application_challenge.py:396-401 | every 32-bit output comes from exactly 2^32 of the 2^64 states |
| `Pcg.Pcg32.constructor` | src/application_challenge.py:392-394 | the seeded state |
| `Pcg.Pcg32.NextU32` | src/application_challenge.py:396-401 | the output that `Pcg.OutputRotates` describes, of the old state, and one step |
| `Pcg.Pcg32.NextInteger` | src/application_challenge.py:403-411 | a scaled output in range, or a value error that leaves the state alone |
| `PcgLayout.StepIs` | src/application_challenge.py:396-398 | the state step with the reference multiplier and the increment 105 |
| `PcgLayout.OutputIs` | src/application_challenge.py:399-401 | the output in quotients and remainders: 32 bits of the mixed state above the lowest 27, rotated right by the top five bits |
| `PcgLayout.ScaleIsMonotone` | src/application_challenge.py:403-411 | output 0 gives the lower bound, a greater output never a smaller number |
| `Varint.BootstrapEncode` | src/application_bootstrap.py:50-60 | the loop emits the unsigned LEB128 form of any 64-bit number and refuses others |
| `Varint.ChallengeEncode` | src/application_challenge.py:137-151 | so does the other encoder: equal on all inputs |
| `Varint.ScanGroups` | src/application_bootstrap.py:100-109 | the shift-and-or loop reads at most ten groups below 2^64 |
| `Varint.DecodeStrict` | src/application_challenge.py:154-172 | the strict decoder from any offset |
| `Varint.StrictIsInverse` | src/application_challenge.py:137-172 | the strict decoder accepts v before rest if and only if the bytes are the encoding of v followed by rest |
| `Varint.StrictIsLenientWithoutPadding` | src/application_bootstrap.py:100-109 | the strict decoder accepts what the lenient one accepts and is not padded, with the same result |
| `Varint.LenientAcceptsPadding` | src/application_bootstrap.py:100-109 | a padded zero that only the lenient reader accepts |
| `Varint.VarsintRange` | src/application_bootstrap.py:63-67 | encode_varsint accepts exactly the signed 64-bit numbers |
| `Varint.ZigzagsAgree` | src/application_challenge.py:175-187 | the bit-pattern and the signed ZigZag are the same maps |
| `Varint.ZigzagExpressions` | src/application_bootstrap.py:63-67 | the signed maps are the source expressions with exclusive or on signed integers |
| `Varint.XorSignedStep` | src/application_bootstrap.py:67 | that exclusive or works bit by bit on unlimited two's complement |
| `Varint.ZigzagIsBijective` | src/application_challenge.py:175-187 | encoding and decoding are inverse on all 64-bit patterns |
| `Varint.BuildersAgree` | src/application_bootstrap.py:406-417 | both 0x92 builders emit identical bytes for every word pair and refuse the same arguments |
| `Varint.ParsersInvertBuilders` | src/application_challenge.py:190-228 | both 0x92 parsers read back both words |
| `Varint.StrictImpliesLenient` | src/application_bootstrap.py:390-403 | whatever the strict 0x92 parser accepts the other reads alike |
| `VarintLayout.LebLayout` | src/application_bootstrap.py:50-60 | the varuint of v: seven bits a byte, lowest first, 128 or more on all bytes but the last, and no zero byte at the end of a longer one |
| `VarintLayout.ScanLayout` | src/application_bootstrap.py:100-109 | which byte strings are read as a varuint, as which number and how far |
| `VarintLayout.PlaceLayout` | src/application_challenge.py:190-208 | the 0x92 packet: its first byte, then the varuint of twice the packed number as an int64, or of twice its size less 1 if that is negative |
| `VarintLayout.PlaceExactly` | src/application_challenge.py:211-228 | the strict 0x92 parser accepts a packet if and only if it is built from two words, and returns those |
| `Bootstrap.SignedIsRepresentative` | src/application_crypto.py:90-92 | the cast gives the one congruent int32 |
| `Bootstrap.VersionIdsRoundTrip` | src/application_bootstrap.py:295-333 | bytes are read as five words before a rest if and only if they are those words written before that rest |
| `Bootstrap.VersionIdsLength` | src/application_bootstrap.py:315-333 | 20 bytes and four more per mask of word 0 that is clear, at most 36 |
| `Bootstrap.WriteVersionIds` | src/application_bootstrap.py:315-333 | the appending writer produces that layout for any five integers cut to 32 bits |
| `Bootstrap.ReadVersionIds` | src/application_bootstrap.py:295-312 | the reader consumes exactly that layout and refuses a wrong repeat |
| `BootstrapLayout.MasksLookAt` | src/application_bootstrap.py:315-333 | which two bits of word 0 each of the four masks tests |
| `BootstrapLayout.VersionIdsLayout` | src/application_bootstrap.py:315-333 | the five words in order, lowest byte first, with word 0 repeated behind each of the first four exactly when its two bits are clear |
| `BootstrapLayout.SyncLayout` | src/application_bootstrap.py:377-384 | the clear bytes of a 0x90 packet, field by field |
| `BootstrapLayout.BuildableMeans` | src/application_bootstrap.py:371-376 | which fields of a 0x90 packet are accepted |
| `BootstrapLayout.SyncTrailing` | src/application_bootstrap.py:347 | bytes behind the version IDs make a 0x90 packet unreadable |
| `BootstrapLayout.FitsMeans` | src/application_bootstrap.py:283-287 | which dictionaries are accepted |
| `BootstrapLayout.DictionaryLayout` | src/application_bootstrap.py:288-292 | the first four bytes of a 0x93 packet and the entries behind them |
| `BootstrapLayout.EntryLayout` | src/application_bootstrap.py:290-291 | an entry: two 16-bit sizes, lowest byte first, each before its bytes |
| `TextLayout.TextIsAccepted` | src/application_bootstrap.py:336-358 | the encodings of any scalar values, one after the other, are accepted as text |
| `TextLayout.AcceptedIsText` | src/application_bootstrap.py:336-358 | and every byte string accepted as text is the encoding of some scalar values |
| `Bootstrap.ParseInvertsBuildSync` | src/application_bootstrap.py:336-387 | parsing a built 0x90 packet returns every field, through the envelope, if its JoinData is UTF-8, and a value error if not; version IDs as signed words beside their raw form |
| `Bootstrap.NoTextIsRefused` | src/application_bootstrap.py:350-387 | under every cipher and key a packet whose JoinData is the byte 0xFF is built, and refused with a value error when parsed |
| `Bootstrap.BuildProtocolSync` | src/application_bootstrap.py:361-387 | the appending builder, with its checks and the flag loop |
| `Bootstrap.ParseSyncBody` | src/application_bootstrap.py:336-347 | the reader-driven parser of the opened envelope, text decoding included |
| `Bootstrap.DictionaryRoundTrip` | src/application_bootstrap.py:254-292 | a packet parses as a dictionary if and only if building that dictionary gives the packet |
| `Bootstrap.BuildDictionaryFormat` | src/application_bootstrap.py:272-292 | the appending builder, with its length checks |
| `Bootstrap.ParseDictionaryFormat` | src/application_bootstrap.py:254-269 | the reader-driven parser, text decoding included |
| `Bootstrap.EncodeVarbytes` | src/application_bootstrap.py:70-72 | length as varuint, then the bytes |
| `Bootstrap.Reader.constructor` | src/application_bootstrap.py:78-80 | the reader starts at the front |
| `Bootstrap.Reader.Take` | src/application_bootstrap.py:82-89 | returns the next bytes and moves past them, or fails and stays where it was |
| `Bootstrap.Reader.Number` | src/application_bootstrap.py:91-98 | a little-endian number of the given width, or a failure that moves nothing |
| `Bootstrap.Reader.Varuint` | src/application_bootstrap.py:100-109 | the lenient varuint at the reader's position |
| `Bootstrap.Reader.VarSpan` | src/application_bootstrap.py:115-116 | a span behind its varuint length |
| `BitStream.BitWriter.constructor` | src/rbx_protocol.py:38-40 | an empty writer |
| `BitStream.BitWriter.Align` | src/rbx_protocol.py:42-48 | appends zero bits up to the boundary, or refuses one that is not a power of two and changes nothing |
| `BitStream.BitWriter.WriteBits` | src/rbx_protocol.py:50-61 | appends exactly the bits of the value, lowest first, keeping the buffer as long as its bits need and zero behind them |
| `BitStream.BitWriter.PaintBits` | src/rbx_protocol.py:58-60 | the bit loop puts the value's bits in place of zeros |
| `BitStream.BitWriter.WriteBytes` | src/rbx_protocol.py:63-67 | appends padding if asked and the bytes; on a byte boundary plain concatenation |
| `BitStream.BitWriter.WriteUintBe` | src/rbx_protocol.py:69-72 | appends the big-endian bytes, or fails by width first and then by range |
| `BitStream.BitWriter.Bytes` | src/rbx_protocol.py:74-75 | exactly the bytes the written bits need |
| `BitStream.OctetBitsDetermine` | src/rbx_protocol.py:50-61 | the bits determine the bytes, so the writer's bit contracts fix its buffer |
| `BitStream.PowerOfTwoTest` | src/rbx_protocol.py:43-44 | the masking test accepts exactly the powers of two |
| `BitStream.AndLowBits` | src/rbx_protocol.py:45 | masking below a power of two is the remainder, so the alignment step rounds up |
| `OpenRequest.BuildParts` | src/rbx_protocol.py:78-136 | the bit-writer-driven builder equals plain byte concatenation, with the code's errors in the code's order |
| `OpenRequest.RequestsAreToldApart` | src/rbx_protocol.py:78-147 | two accepted requests with the same clear bytes are the same request |
| `OpenRequestLayout.PrefixLayout` | src/rbx_protocol.py:78-136 | the eighteen clear bytes in front |
| `OpenRequestLayout.RefusedExactly` | src/rbx_protocol.py:78-110 | which requests are accepted, and whether a refused one raises a value or an overflow error |
| `OpenRequestLayout.HeadLayout` | src/rbx_protocol.py:78-136 | the first 37 bytes of the body, field by field |
| `OpenRequestLayout.TailLayout` | src/rbx_protocol.py:78-136 | the bytes behind them, field by field, the counted spans included |
| `Bits.Bitwise` | src/application_challenge.py:175-187 | the model's exclusive or, and, and or work on each bit by itself |

## Left out

- Sockets, threads, the handshake and run loops, reports and configuration loading of `src/rift_headless.py`: only the bookkeeping of the send, ACK and resend operations is modelled.
- Sender.RakNetClient.EmitDatagram: which transmissions raise is an arbitrary function of the datagram's number, so every pattern of failing encryption and sockets is covered, but not why one fails.
- Sender.RakNetClient.SendNewIncomingConnection, `SendConnectionRequest` and `SendPingPair`: their payloads, and the encrypted packet of the connection request, are arguments.
- Sender.RakNetClient.ResendDueFrames: `due` returns the live entries in the code and copies of them here, which nothing in between can change.
- Statistics counters, `first_sequence` and other return values that only feed reports.
- Progress: exhausted frames stay pending for ever in the code, so nothing is claimed about eventual delivery, and nothing about order or exactly-once delivery, which the receiver does not enforce.
- Conversation.SplitMessageArrives: is about the reassembler alone, and assumes of the arriving stream what the line on Delivery.EndToEnd says; `Reception.SplitMessageIsObserved` is about the loop that abandons a datagram at a raise.
- Reception.SplitMessageIsObserved: assumes the same of the stream, and that frames coalesced behind a tracked one are not fragments, which the model's events leave open and the code's own coalesced frames meet (`src/rift_headless.py:715` and `src/rift_headless.py:1216`); `Reception.PushedSplitMessage` does without the second.
- AcknowledgedRuns.AcknowledgedRunIsSafe: sufficient, not necessary; the exact condition is `SenderWindow.RunIsSafe`. An operation that raises after part of its work is outside it.
- Delivery.EndToEnd: assumes that no frame with the message's split id, channel, order index and mode conflicts with it, and that the groups with other such fields that are opened beside it, each counted once, are fewer than max_groups, as the code needs; both are stated on the stream.
- `ReplicatorState` timestamps, `observe_control`, `snapshot` and `configure`; the marker, identity and word searches are one function of the payload, `Profile.scan`, which can affect only the avatar, observer and character flags. An identity number outside 64 bits is not modelled.
- EstablishedAead.GenuineIsRecovered: the AEAD is ideal for the keys and associated data tried; how the configuration assembles the keys of a stream is the function `Keyring`.
- EstablishedAead.IdealIsPossible: covers finitely many keys and associated data; no finite tag can meet the hypothesis for all of them at once.
- Block cipher, AEAD, key exchange and key derivation internals, `src/session_crypto.py`, and the ticket key and packet, whose text formatting is outside the model.
- JSON JoinData and its projection; text is the byte sequence of its UTF-8 encoding, and a decoding error counts as the value error that it is.
- Bootstrap.Reader.Varuint: where a multi-byte read fails the position afterwards is not stated; every caller gives up then.
- Challenge packets, the RSB1 container, the challenge evaluator and the Luau runner of `src/application_challenge.py`.
- `build_rbx_open_request2_clear_0738`, `src/early_ping.py`, `src/lifecycle_codec.py`, `src/udmux_codec.py`, `src/request2_adapter.py`, `src/session_material.py`, `src/protocol_profile.py`: fixed layouts or configuration that would add only easy members.
- Floating-point times: the clock is a real number.
