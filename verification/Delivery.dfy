/**
 * End to end: what track_split cuts, the wire carries in any datagrams, and the reassembler is pushed in any order,
 * with duplicates and other traffic in between, comes out as the original payload at the push that completes it.
 */
module Delivery {
  import opened Results
  import opened Bytes
  import opened OrderedDict
  import opened RaknetCodec
  import opened Reliability
  import opened SplitReassembly

  /** The fragments of one message, all under one key. */
  ghost predicate IsMessage(fs: seq<Frame>, key: Key) {
    && fs != []
    && forall i | 0 <= i < |fs| :: Of(fs[i], key) && fs[i].splitCount == |fs| && fs[i].splitIndex == i
  }

  /** A fragment whose four identifying fields are those of the key. */
  predicate Of(f: Frame, key: Key) {
    && f.splitCount > 0 && f.splitId == key.splitId
    && f.orderChannel == key.channel && f.orderIndex == key.order && f.EffectiveMode() == key.mode
  }

  /** The reassembler files a fragment under exactly those fields. */
  lemma OfIsKey(f: Frame, key: Key)
    ensures Of(f, key) <==> f.Split() && KeyOf(f) == key
  {}

  /** A frame under the key is one of the fragments; its header may differ, its place and payload may not. */
  predicate Agrees(f: Frame, fs: seq<Frame>, key: Key) {
    Of(f, key) ==>
      f.splitCount == |fs| && 0 <= f.splitIndex < |fs| && f.payload == fs[f.splitIndex].payload
  }

  /** The fragments of the message that a stream has supplied. */
  function Have(stream: seq<Frame>, key: Key): set<int> {
    set f | f in stream && Of(f, key) :: f.splitIndex
  }

  function FirstOf(stream: seq<Frame>, key: Key): Option<Frame> {
    if stream == [] then None else
    var first := FirstOf(stream[..|stream| - 1], key);
    if first.Some? then first else if Of(stream[|stream| - 1], key) then Some(stream[|stream| - 1]) else None
  }

  /** The fields of a frame as a key. */
  function FieldsOf(f: Frame): Key {
    Key(f.splitId, f.orderChannel, f.orderIndex, f.EffectiveMode())
  }

  /** Pushing f would open a group beside the one under `key`. */
  predicate OpensOther(s: Groups, f: Frame, key: Key) {
    && key in s.groups.at
    && f.Split() && f.splitCount <= s.maxParts
    && FieldsOf(f) !in s.groups.at
  }

  function OpenedBy(s: Groups, f: Frame, key: Key): set<Key> {
    if OpensOther(s, f, key) then {FieldsOf(f)} else {}
  }

  /** Which groups a stream opens while the one under `key` is waiting. */
  function OpenedBeside(s: Groups, stream: seq<Frame>, key: Key): set<Key> {
    if stream == [] then {} else
    var front := stream[..|stream| - 1];
    OpenedBeside(s, front, key) + OpenedBy(PushAll(s, front).state, stream[|stream| - 1], key)
  }

  /** The keys that come after `key` in dictionary order. */
  function After(keys: seq<Key>, key: Key): set<Key> {
    if keys == [] then {} else if keys[0] == key then set k | k in keys[1..] else After(keys[1..], key)
  }

  lemma {:induction false} AfterWithout(keys: seq<Key>, x: Key, key: Key)
    requires key in keys && x != key
    ensures key in Without(keys, x)
    ensures After(Without(keys, x), key) <= After(keys, key)
  {
    if keys[0] == x {
    } else if keys[0] == key {
      assert After(Without(keys, x), key) == set k | k in Without(keys[1..], x);
    } else {
      AfterWithout(keys[1..], x, key);
    }
  }

  lemma {:induction false} AfterAppend(keys: seq<Key>, x: Key, key: Key)
    ensures key in keys ==> After(keys + [x], key) == After(keys, key) + {x}
    ensures key !in keys && x == key ==> After(keys + [x], key) == {}
  {
    if keys == [] {
      assert (keys + [x])[1..] == [];
    } else {
      assert (keys + [x])[1..] == keys[1..] + [x];
      AfterAppend(keys[1..], x, key);
    }
  }

  lemma {:induction false} AfterIsListed(keys: seq<Key>, key: Key)
    ensures forall k | k in After(keys, key) :: k in keys
  {
    if keys != [] { AfterIsListed(keys[1..], key); }
  }

  lemma AfterEldest(keys: seq<Key>, key: Key)
    requires Distinct(keys) && keys != [] && keys[0] == key
    ensures |After(keys, key)| == |keys| - 1
  {
    DistinctCount(keys[1..]);
  }

  /** The reassembler holds exactly the given fragments of the message. */
  ghost predicate Holding(s: Groups, fs: seq<Frame>, key: Key, have: set<int>, template: Option<Frame>) {
    if have == {} then key !in s.groups.at && template == None else
    && key in s.groups.at && key in s.counts && key in s.templates
    && s.counts[key] == |fs| && Some(s.templates[key]) == template
    && var parts := s.groups.at[key];
    && parts.at.Keys == have
    && forall i | i in have :: 0 <= i < |fs| && parts.at[i] == fs[i].payload
  }

  // ---- other traffic ------------------------------------------------------------------

  lemma {:induction false} DropOther(s: Groups, fs: seq<Frame>, key: Key, have: set<int>, template: Option<Frame>,
                                     other: Key)
    requires Holding(s, fs, key, have, template) && other != key
    ensures Holding(Drop(s, other), fs, key, have, template)
    ensures have != {} ==> After(Drop(s, other).groups.keys, key) <= After(s.groups.keys, key)
  {
    if have != {} { AfterWithout(s.groups.keys, other, key); }
  }

  lemma {:induction false} StoreOther(s: Groups, fs: seq<Frame>, key: Key, have: set<int>, template: Option<Frame>,
                                      f: Frame)
    requires Holding(s, fs, key, have, template) && KeyOf(f) != key
    ensures Holding(Store(s, KeyOf(f), f), fs, key, have, template)
    ensures have != {} ==>
              After(Store(s, KeyOf(f), f).groups.keys, key)
              == After(s.groups.keys, key) + if KeyOf(f) in s.groups.at then {} else {KeyOf(f)}
  {
    if have != {} { AfterAppend(s.groups.keys, KeyOf(f), key); }
  }

  lemma {:induction false} FillOther(s: Groups, fs: seq<Frame>, key: Key, have: set<int>, template: Option<Frame>,
                                     f: Frame)
    requires Holding(s, fs, key, have, template) && KeyOf(f) != key
    ensures var s' := Fill(s, KeyOf(f), f).state;
            && Holding(s', fs, key, have, template)
            && (have != {} ==>
                  After(s'.groups.keys, key)
                  <= After(s.groups.keys, key) + if KeyOf(f) in s.groups.at then {} else {KeyOf(f)})
  {
    hide Holding, Drop, Store, TotalSize, Join, KeyOf, After;
    var other := KeyOf(f);
    if other in s.counts && s.counts[other] != f.splitCount {
      DropOther(s, fs, key, have, template, other);
    } else {
      StoreOther(s, fs, key, have, template, f);
      DropOther(Store(s, other, f), fs, key, have, template, other);
    }
  }

  /** The group waits at the front of a full table only behind so many others. */
  lemma EldestHasOthers(s: Groups, f: Frame, key: Key)
    requires key in s.groups.at && s.groups.keys != [] && s.groups.keys[0] == key && FieldsOf(f) !in s.groups.at
    ensures |After(s.groups.keys, key) + {FieldsOf(f)}| == |s.groups.keys|
  {
    hide FieldsOf;
    AfterEldest(s.groups.keys, key);
    AfterIsListed(s.groups.keys, key);
  }

  /** A frame of another group, or of none, leaves the message alone unless it opens one group too many. */
  lemma {:induction false} PushOther(s: Groups, fs: seq<Frame>, key: Key, have: set<int>, template: Option<Frame>,
                                     f: Frame)
    requires Inv(s) && WellFormed(f) && !Of(f, key)
    requires Holding(s, fs, key, have, template)
    requires have != {} && OpensOther(s, f, key) ==> |After(s.groups.keys, key) + {FieldsOf(f)}| < s.maxGroups
    ensures var s' := Push(s, f).state;
            && Holding(s', fs, key, have, template)
            && (have != {} ==> After(s'.groups.keys, key) <= After(s.groups.keys, key) + OpenedBy(s, f, key))
  {
    hide Drop, Fill, KeyOf, FieldsOf, Of, After, GroupInv;
    var other := KeyOf(f);
    OfIsKey(f, key);
    KeyIsFields(f);
    if f.Split() && f.splitCount <= s.maxParts && MakeRoom(s, other).Ok? {
      var s1 := MakeRoom(s, other).value;
      if s1 != s {
        if s.groups.keys[0] == key { EldestHasOthers(s, f, key); }
        DropOther(s, fs, key, have, template, s.groups.keys[0]);
      }
      assert other in s1.groups.at ==> other in s.groups.at by { MakeRoomAddsNothing(s, other); }
      FillOther(s1, fs, key, have, template, f);
    }
  }

  lemma KeyIsFields(f: Frame)
    ensures KeyOf(f) == FieldsOf(f)
  {}

  lemma MakeRoomAddsNothing(s: Groups, key: Key)
    requires MakeRoom(s, key).Ok?
    ensures forall k | k in MakeRoom(s, key).value.groups.at :: k in s.groups.at
    ensures key in s.groups.at ==> MakeRoom(s, key).value == s
  {}

  // ---- the message's own frames -------------------------------------------------------

  lemma {:induction false} SizeOfWithout(keys: seq<int>, at: map<int, Octets>, k: int)
    requires k in keys
    ensures SizeOf(keys, at) == |Get(at, k, [])| + SizeOf(Without(keys, k), at)
  {
    if keys[0] != k { SizeOfWithout(keys[1..], at, k); }
  }

  /** Distinct fragments never hold more bytes than the message. */
  lemma {:induction false} FragmentsFit(keys: seq<int>, at: map<int, Octets>, fs: seq<Frame>, n: nat)
    requires n <= |fs| && Distinct(keys)
    requires forall k | k in keys :: 0 <= k < n
    requires forall k | k in keys :: k in at && at[k] == fs[k].payload
    ensures SizeOf(keys, at) <= |JoinPayloads(fs[..n])|
    decreases n
  {
    hide JoinPayloads;
    if keys != [] {
      var k := keys[0];
      assert k in keys;
      JoinPayloadsSnoc(fs[..n - 1], fs[n - 1]);
      assert fs[..n] == fs[..n - 1] + [fs[n - 1]];
      WithoutDropsOne(keys, n - 1);
      FragmentsFit(Without(keys, n - 1), at, fs, n - 1);
      if n - 1 in keys { SizeOfWithout(keys, at, n - 1); }
    }
  }

  lemma {:induction false} JoinPayloadsSnoc(fs: seq<Frame>, f: Frame)
    ensures JoinPayloads(fs + [f]) == JoinPayloads(fs) + f.payload
  {
    if fs == [] {
      assert (fs + [f])[1..] == [];
    } else {
      assert (fs + [f])[1..] == fs[1..] + [f];
      JoinPayloadsSnoc(fs[1..], f);
    }
  }

  lemma {:induction false} JoinIsMessage(parts: map<int, Octets>, fs: seq<Frame>, i: nat)
    requires i <= |fs|
    requires forall j | 0 <= j < |fs| :: j in parts && parts[j] == fs[j].payload
    ensures Join(parts, i, |fs|) == Some(JoinPayloads(fs[i..]))
    decreases |fs| - i
  {
    if i < |fs| {
      JoinIsMessage(parts, fs, i + 1);
      assert fs[i..][1..] == fs[i + 1..];
    }
  }

  lemma {:induction false} StoreAt(s: Groups, fs: seq<Frame>, key: Key, have: set<int>, template: Option<Frame>,
                                   f: Frame)
    requires s.templates.Keys == s.groups.at.Keys && Holding(s, fs, key, have, template)
    requires f.splitCount == |fs| && 0 <= f.splitIndex < |fs| && f.payload == fs[f.splitIndex].payload
    ensures Holding(Store(s, key, f), fs, key, have + {f.splitIndex}, if template.Some? then template else Some(f))
  {
    if have == {} {
      assert key !in s.templates.Keys;
    }
  }

  lemma StoreAfter(s: Groups, key: Key, f: Frame)
    ensures After(Store(s, key, f).groups.keys, key) == if key in s.groups.at then After(s.groups.keys, key) else {}
  {
    hide After;
    if key !in s.groups.at { AfterAppend(s.groups.keys, key, key); }
  }

  lemma {:induction false} StoreSame(s: Groups, fs: seq<Frame>, key: Key, have: set<int>, template: Option<Frame>,
                                     f: Frame)
    requires Inv(s) && IsMessage(fs, key) && Of(f, key) && Agrees(f, fs, key)
    requires Holding(s, fs, key, have, template)
    ensures Holding(Store(s, key, f), fs, key, have + {f.splitIndex}, if template.Some? then template else Some(f))
    ensures have != {} ==> After(Store(s, key, f).groups.keys, key) == After(s.groups.keys, key)
    ensures have == {} ==> After(Store(s, key, f).groups.keys, key) == {}
  {
    hide GroupInv, Of, After, Store;
    StoreAt(s, fs, key, have, template, f);
    StoreAfter(s, key, f);
  }

  lemma {:induction false} HeldSize(s: Groups, fs: seq<Frame>, key: Key, have: set<int>, template: Option<Frame>)
    requires Holding(s, fs, key, have, template) && have != {}
    ensures TotalSize(s.groups.at[key]) <= |JoinPayloads(fs)|
    ensures |s.groups.at[key].keys| == |have|
    ensures have == Below(|fs|) ==> Join(s.groups.at[key].at, 0, |fs|) == Some(JoinPayloads(fs))
  {
    var parts := s.groups.at[key];
    FragmentsFit(parts.keys, parts.at, fs, |fs|);
    assert fs[..|fs|] == fs;
    KeysOfDict(parts);
    if have == Below(|fs|) {
      JoinIsMessage(parts.at, fs, 0);
      assert fs[0..] == fs;
    }
  }

  /** A fragment is stored and waits, or completes the message. */
  lemma {:induction false} FillSame(s: Groups, fs: seq<Frame>, key: Key, have: set<int>, template: Option<Frame>,
                                    f: Frame)
    requires Inv(s) && IsMessage(fs, key) && Of(f, key) && Agrees(f, fs, key)
    requires Holding(s, fs, key, have, template) && have < Below(|fs|)
    requires |JoinPayloads(fs)| <= s.maxBytes
    ensures var (p, have') := (Fill(s, key, f), have + {f.splitIndex});
            var template' := if template.Some? then template else Some(f);
            if have' == Below(|fs|)
            then p.result == Ok(Some(Rebuilt(JoinPayloads(fs), template'.value))) && key !in p.state.groups.at
            else
              && p.result == Ok(None) && Holding(p.state, fs, key, have', template')
              && After(p.state.groups.keys, key) <= if have == {} then {} else After(s.groups.keys, key)
  {
    hide After, KeyOf, TotalSize, Join, Store, GroupInv, JoinPayloads;
    var have' := have + {f.splitIndex};
    var template' := if template.Some? then template else Some(f);
    StoreSame(s, fs, key, have, template, f);
    HeldSize(Store(s, key, f), fs, key, have', template');
    NothingCounted(s, key);
    assert have' <= Below(|fs|);
    if |have'| == |fs| { SubsetOfEqualSize(have', Below(|fs|)); }
  }

  lemma NothingCounted(s: Groups, key: Key)
    requires Inv(s)
    ensures key in s.counts <==> key in s.groups.at
  {
    hide GroupInv;
    assert key in s.counts.Keys <==> key in s.counts;
  }

  lemma {:induction false} PushSame(s: Groups, fs: seq<Frame>, key: Key, have: set<int>, template: Option<Frame>,
                                    f: Frame)
    requires Inv(s) && IsMessage(fs, key) && Of(f, key) && Agrees(f, fs, key)
    requires Holding(s, fs, key, have, template) && have < Below(|fs|)
    requires s.maxGroups >= 1 && |fs| <= s.maxParts && |JoinPayloads(fs)| <= s.maxBytes
    ensures var (p, have') := (Push(s, f), have + {f.splitIndex});
            var template' := if template.Some? then template else Some(f);
            if have' == Below(|fs|)
            then p.result == Ok(Some(Rebuilt(JoinPayloads(fs), template'.value))) && key !in p.state.groups.at
            else
              && p.result == Ok(None) && Holding(p.state, fs, key, have', template')
              && After(p.state.groups.keys, key) <= if have == {} then {} else After(s.groups.keys, key)
  {
    hide After, Fill, KeyOf, Of, GroupInv, JoinPayloads;
    OfIsKey(f, key);
    assert MakeRoom(s, key).Ok?;
    MakeRoomKeepsInv(s, key);
    var s1 := MakeRoom(s, key).value;
    if s1 != s { DropOther(s, fs, key, have, template, s.groups.keys[0]); }
    FillSame(s1, fs, key, have, template, f);
  }

  // ---- whole streams --------------------------------------------------------------------

  /** The limits are met, and nothing in the stream conflicts with the message. */
  ghost predicate Deliverable(s: Groups, stream: seq<Frame>, fs: seq<Frame>, key: Key) {
    && Inv(s) && key !in s.groups.at
    && IsMessage(fs, key)
    && |fs| <= s.maxParts && |JoinPayloads(fs)| <= s.maxBytes
    && (forall f | f in stream :: WellFormed(f) && Agrees(f, fs, key))
    && |OpenedBeside(s, stream, key)| < s.maxGroups
  }

  ghost predicate Complete(stream: seq<Frame>, fs: seq<Frame>, key: Key) {
    Have(stream, key) == Below(|fs|)
  }

  /** No push of the stream so far delivered the message. */
  ghost predicate SilentSoFar(s: Groups, stream: seq<Frame>, key: Key) {
    forall i | 0 <= i < |stream| && Of(stream[i], key) :: PushAll(s, stream).results[i] == Ok(None)
  }

  lemma HaveGrows(stream: seq<Frame>, key: Key)
    requires stream != []
    ensures var (front, last) := (stream[..|stream| - 1], stream[|stream| - 1]);
            Have(stream, key) == if Of(last, key) then Have(front, key) + {last.splitIndex} else Have(front, key)
  {
    var (front, last) := (stream[..|stream| - 1], stream[|stream| - 1]);
    assert stream == front + [last];
  }

  lemma HaveBounded(stream: seq<Frame>, fs: seq<Frame>, key: Key)
    requires forall f | f in stream :: Agrees(f, fs, key)
    ensures Have(stream, key) <= Below(|fs|)
    ensures Have(stream, key) == {} <==> FirstOf(stream, key) == None
  {
    if stream != [] {
      HaveGrows(stream, key);
      HaveBounded(stream[..|stream| - 1], fs, key);
      assert stream[|stream| - 1] in stream;
    }
  }

  lemma PushKeepsLimits(s: Groups, f: Frame)
    ensures var s' := Push(s, f).state;
            s'.maxGroups == s.maxGroups && s'.maxParts == s.maxParts && s'.maxBytes == s.maxBytes
  {
    hide Fill, MakeRoom;
    if f.Split() && f.splitCount <= s.maxParts {
      var room := MakeRoom(s, KeyOf(f));
      RoomKeepsLimits(s, KeyOf(f));
      if room.Ok? { FillKeepsLimits(room.value, KeyOf(f), f); }
    }
  }

  lemma RoomKeepsLimits(s: Groups, key: Key)
    ensures var room := MakeRoom(s, key);
            room.Ok? ==>
              && room.value.maxGroups == s.maxGroups
              && room.value.maxParts == s.maxParts && room.value.maxBytes == s.maxBytes
  {
    hide Pop;
  }

  lemma FillKeepsLimits(s: Groups, key: Key, f: Frame)
    ensures var s' := Fill(s, key, f).state;
            s'.maxGroups == s.maxGroups && s'.maxParts == s.maxParts && s'.maxBytes == s.maxBytes
  {
    hide Pop, TotalSize, Join, Set, Get, Rebuilt;
  }

  /** The state s' reached from s while fragments are missing: exactly what was supplied is held. */
  ghost predicate Waits(s: Groups, s': Groups, fs: seq<Frame>, key: Key, have: set<int>, first: Option<Frame>,
                        beside: set<Key>) {
    && Inv(s') && s'.maxGroups == s.maxGroups && s'.maxParts == s.maxParts && s'.maxBytes == s.maxBytes
    && Holding(s', fs, key, have, first)
    && (have != {} ==> After(s'.groups.keys, key) <= beside)
  }

  lemma {:induction false} WaitsStep(s: Groups, s1: Groups, fs: seq<Frame>, key: Key, have: set<int>,
                                     first: Option<Frame>, beside: set<Key>, f: Frame)
    requires Waits(s, s1, fs, key, have, first, beside) && WellFormed(f) && Agrees(f, fs, key)
    requires IsMessage(fs, key) && |fs| <= s.maxParts && |JoinPayloads(fs)| <= s.maxBytes
    requires have < Below(|fs|) && |beside + OpenedBy(s1, f, key)| < s.maxGroups
    ensures var have' := if Of(f, key) then have + {f.splitIndex} else have;
            have' != Below(|fs|) ==>
              && Waits(s, Push(s1, f).state, fs, key, have', if first.None? && Of(f, key) then Some(f) else first,
                       beside + OpenedBy(s1, f, key))
              && (Of(f, key) ==> Push(s1, f).result == Ok(None))
  {
    hide Push, Holding, Inv, After, KeyOf, FieldsOf, Of, WellFormed, JoinPayloads, IsMessage;
    PushKeepsInv(s1, f);
    PushKeepsLimits(s1, f);
    if Of(f, key) {
      PushSame(s1, fs, key, have, first, f);
    } else {
      if have != {} && OpensOther(s1, f, key) {
        FewerMembers(After(s1.groups.keys, key) + {FieldsOf(f)}, beside + OpenedBy(s1, f, key));
      }
      PushOther(s1, fs, key, have, first, f);
    }
  }

  lemma FewerMembers<T>(a: set<T>, b: set<T>)
    requires a <= b
    ensures |a| <= |b|
  {
    assert b == a + (b - a);
  }

  lemma DeliverableFront(s: Groups, stream: seq<Frame>, fs: seq<Frame>, key: Key)
    requires Deliverable(s, stream, fs, key) && stream != []
    ensures Deliverable(s, stream[..|stream| - 1], fs, key)
    ensures WellFormed(stream[|stream| - 1]) && Agrees(stream[|stream| - 1], fs, key)
    ensures Have(stream[..|stream| - 1], key) <= Have(stream, key) <= Below(|fs|)
  {
    hide Inv, KeyOf, WellFormed, JoinPayloads, IsMessage, OpensOther, Agrees;
    assert stream[|stream| - 1] in stream;
    FewerMembers(OpenedBeside(s, stream[..|stream| - 1], key), OpenedBeside(s, stream, key));
    HaveGrows(stream, key);
    HaveBounded(stream, fs, key);
  }

  lemma WaitsAtFirst(s: Groups, fs: seq<Frame>, key: Key)
    requires Inv(s) && key !in s.groups.at
    ensures Waits(s, PushAll(s, []).state, fs, key, Have([], key), FirstOf([], key), OpenedBeside(s, [], key))
  {
    hide Inv;
  }

  /** While a fragment is missing, the reassembler holds exactly what was supplied. */
  lemma {:induction false} Waiting(s: Groups, stream: seq<Frame>, fs: seq<Frame>, key: Key)
    requires Deliverable(s, stream, fs, key) && !Complete(stream, fs, key)
    ensures Waits(s, PushAll(s, stream).state, fs, key, Have(stream, key), FirstOf(stream, key),
                  OpenedBeside(s, stream, key))
  {
    hide Push, Inv, KeyOf, WellFormed, JoinPayloads, OpensOther, IsMessage, Agrees, Of, Have, Waits;
    if stream == [] {
      WaitsAtFirst(s, fs, key);
    } else {
      var (front, last) := (stream[..|stream| - 1], stream[|stream| - 1]);
      DeliverableFront(s, stream, fs, key);
      HaveGrows(stream, key);
      Waiting(s, front, fs, key);
      WaitsStep(s, PushAll(s, front).state, fs, key, Have(front, key), FirstOf(front, key),
                OpenedBeside(s, front, key), last);
    }
  }

  lemma SilentStep(s: Groups, stream: seq<Frame>, key: Key)
    requires stream != [] && SilentSoFar(s, stream[..|stream| - 1], key)
    requires var (front, last) := (stream[..|stream| - 1], stream[|stream| - 1]);
             Of(last, key) ==> Push(PushAll(s, front).state, last).result == Ok(None)
    ensures SilentSoFar(s, stream, key)
  {
    hide Push, Of;
    assert forall i | 0 <= i < |stream| - 1 :: stream[i] == stream[..|stream| - 1][i];
  }

  lemma {:induction false} Silence(s: Groups, stream: seq<Frame>, fs: seq<Frame>, key: Key)
    requires Deliverable(s, stream, fs, key) && !Complete(stream, fs, key)
    ensures SilentSoFar(s, stream, key)
  {
    if stream != [] {
      hide Push, Waits, Inv, KeyOf, WellFormed, JoinPayloads, OpensOther, IsMessage, Agrees, Of, Have, FirstOf,
           SilentSoFar;
      var (front, last) := (stream[..|stream| - 1], stream[|stream| - 1]);
      DeliverableFront(s, stream, fs, key);
      HaveGrows(stream, key);
      Silence(s, front, fs, key);
      Waiting(s, front, fs, key);
      WaitsStep(s, PushAll(s, front).state, fs, key, Have(front, key), FirstOf(front, key),
                OpenedBeside(s, front, key), last);
      SilentStep(s, stream, key);
    }
  }

  /**
   * Delivery: the push that supplies the last missing fragment, and no earlier one, returns the whole payload, under
   * the header of the first fragment that came.
   */
  lemma {:induction false} Delivered(s: Groups, front: seq<Frame>, last: Frame, fs: seq<Frame>, key: Key)
    requires Deliverable(s, front + [last], fs, key)
    requires !Complete(front, fs, key) && Complete(front + [last], fs, key)
    ensures var stream := front + [last];
            && FirstOf(stream, key).Some?
            && PushAll(s, stream).results[|front|] == Ok(Some(Rebuilt(JoinPayloads(fs), FirstOf(stream, key).value)))
    ensures SilentSoFar(s, front, key)
  {
    hide Push, Holding, Inv, After, KeyOf, WellFormed, JoinPayloads, SilentSoFar, IsMessage, OpensOther, Have, Agrees;
    var stream := front + [last];
    assert stream[..|front|] == front && last in stream && forall f | f in front :: f in stream;
    HaveGrows(stream, key);
    HaveBounded(front, fs, key);
    DeliverableFront(s, stream, fs, key);
    Silence(s, front, fs, key);
    Waiting(s, front, fs, key);
    PushSame(PushAll(s, front).state, fs, key, Have(front, key), FirstOf(front, key), last);
  }

  lemma {:induction false} PrefixOfRun(s: Groups, stream: seq<Frame>, n: nat)
    requires n <= |stream|
    ensures PushAll(s, stream[..n]).results == PushAll(s, stream).results[..n]
    decreases |stream|
  {
    if n == |stream| {
      assert stream[..n] == stream;
    } else {
      var front := stream[..|stream| - 1];
      PrefixOfRun(s, front, n);
      assert front[..n] == stream[..n];
      hide Push;
      assert PushAll(s, stream).results[..|front|] == PushAll(s, front).results;
    }
  }

  lemma {:induction false} PrefixDeliverable(s: Groups, stream: seq<Frame>, fs: seq<Frame>, key: Key, n: nat)
    requires Deliverable(s, stream, fs, key) && n <= |stream|
    ensures Deliverable(s, stream[..n], fs, key)
    decreases |stream|
  {
    hide Deliverable;
    if n == |stream| {
      assert stream[..n] == stream;
    } else {
      var front := stream[..|stream| - 1];
      DeliverableFront(s, stream, fs, key);
      PrefixDeliverable(s, front, fs, key, n);
      assert front[..n] == stream[..n];
    }
  }

  /** In any deliverable stream that supplies every fragment, the first push that completes the set delivers. */
  lemma {:induction false} DeliveringPush(s: Groups, stream: seq<Frame>, fs: seq<Frame>, key: Key) returns (i: nat)
    requires Deliverable(s, stream, fs, key) && Complete(stream, fs, key)
    ensures i < |stream| && !Complete(stream[..i], fs, key) && Complete(stream[..i + 1], fs, key)
    ensures FirstOf(stream[..i + 1], key).Some? && FirstOf(stream[..i + 1], key).value in stream
    ensures Of(FirstOf(stream[..i + 1], key).value, key)
    ensures PushAll(s, stream).results[i] == Ok(Some(Rebuilt(JoinPayloads(fs), FirstOf(stream[..i + 1], key).value)))
    ensures forall j | 0 <= j < i && Of(stream[j], key) :: PushAll(s, stream).results[j] == Ok(None)
  {
    hide Deliverable, PushAll, Complete, FirstOf, Of, Rebuilt;
    i := FirstComplete(s, stream, fs, key);
    PrefixDeliverable(s, stream, fs, key, i + 1);
    assert stream[..i + 1] == stream[..i] + [stream[i]];
    Delivered(s, stream[..i], stream[i], fs, key);
    PrefixOfRun(s, stream, i + 1);
    PrefixOfRun(s, stream, i);
    FirstIsOne(stream[..i + 1], key);
    forall j | 0 <= j < i && Of(stream[j], key) ensures PushAll(s, stream).results[j] == Ok(None) {
      assert stream[..i][j] == stream[j];
    }
  }

  lemma NothingIsNotComplete(s: Groups, stream: seq<Frame>, fs: seq<Frame>, key: Key)
    requires Deliverable(s, stream, fs, key)
    ensures !Complete([], fs, key)
  {
    hide Inv, OpenedBeside;
    assert 0 in Below(|fs|);
  }

  lemma {:induction false} FirstComplete(s: Groups, stream: seq<Frame>, fs: seq<Frame>, key: Key) returns (i: nat)
    requires Deliverable(s, stream, fs, key) && Complete(stream, fs, key)
    ensures i < |stream| && !Complete(stream[..i], fs, key) && Complete(stream[..i + 1], fs, key)
  {
    hide Deliverable, Complete;
    NothingIsNotComplete(s, stream, fs, key);
    if stream == [] {
      assert false;
    } else {
      var n := |stream| - 1;
      assert stream[..n + 1] == stream;
      if Complete(stream[..n], fs, key) {
        DeliverableFront(s, stream, fs, key);
        i := FirstComplete(s, stream[..n], fs, key);
        assert stream[..n][..i] == stream[..i] && stream[..n][..i + 1] == stream[..i + 1];
      } else {
        i := n;
      }
    }
  }

  lemma {:induction false} FirstIsOne(stream: seq<Frame>, key: Key)
    requires FirstOf(stream, key).Some?
    ensures FirstOf(stream, key).value in stream && Of(FirstOf(stream, key).value, key)
  {
    hide Of;
    var n := |stream| - 1;
    if FirstOf(stream[..n], key).Some? { FirstIsOne(stream[..n], key); }
  }

  // ---- from the window to the payload -------------------------------------------------------

  /** Frames coalesced into one connected datagram. */
  datatype Packed = Packed(flag: Byte, sequence: nat, frames: seq<Frame>) {
    ghost predicate Sendable() {
      0x80 <= flag <= 0x8F && sequence < M24 && Assemble(flag, sequence, frames).Ok?
    }
  }

  ghost function Wire(packed: seq<Packed>): (r: seq<Octets>)
    requires forall p | p in packed :: p.Sendable()
    ensures |r| == |packed|
  {
    if packed == [] then [] else
    var p := packed[0];
    assert p in packed && p.Sendable();
    [Assemble(p.flag, p.sequence, p.frames).value] + Wire(packed[1..])
  }

  function Flatten(packed: seq<Packed>): seq<Frame> {
    if packed == [] then [] else packed[0].frames + Flatten(packed[1..])
  }

  /** Every frame that the receiver reads from the datagrams, in order of arrival. */
  function Arrival(datagrams: seq<Octets>): seq<Frame> {
    if datagrams == [] then [] else
    var d := ParseConnected(datagrams[0]);
    (if d.Ok? then d.value.frames else []) + Arrival(datagrams[1..])
  }

  lemma {:induction false} ArrivalOfWire(packed: seq<Packed>)
    requires forall p | p in packed :: p.Sendable()
    ensures Arrival(Wire(packed)) == NormalAll(Flatten(packed))
  {
    hide Normal, ParseConnected, Assemble;
    if packed != [] {
      var p := packed[0];
      assert p in packed;
      ParseInvertsAssemble(p.flag, p.sequence, p.frames);
      ArrivalOfWire(packed[1..]);
      assert NormalAll(Flatten(packed)) == NormalAll(p.frames) + NormalAll(Flatten(packed[1..]));
    }
  }

  /** The four fields with which the fragments of a message arrive, from what track_split is given. */
  function WireKey(w: Window, ordered: bool, channel: int, splitId: int): Key {
    Key(splitId % 0x1_0000, if ordered then channel % 256 else 0, w.OrderIndexFor(ordered, channel) % M24,
        if ordered then 3 else 2)
  }

  lemma {:induction false} NormalKeepsPayloads(fs: seq<Frame>)
    ensures JoinPayloads(NormalAll(fs)) == JoinPayloads(fs)
  {
    if fs != [] {
      NormalKeepsPayloads(fs[1..]);
      assert NormalAll(fs)[1..] == NormalAll(fs[1..]);
    }
  }

  /** Every fragment fits the frame encoding when max_payload does. */
  lemma {:induction false} FragmentsEncode(w: Window, payload: Octets, m: nat, ordered: bool, channel: int,
                                           splitId: int, now: real)
    requires 1 <= m <= 8191 && 1 < FragmentCount(|payload|, m) <= 0xFFFF_FFFF
    requires TrackSplit(w, payload, m, ordered, channel, splitId, now).Ok?
    ensures forall f | f in TrackSplit(w, payload, m, ordered, channel, splitId, now).value.frames :: Encode(f).Ok?
  {
    hide AdmitAll;
    var t := TrackSplit(w, payload, m, ordered, channel, splitId, now).value;
    FragmentsJoin(t.frames, payload, m, ordered, w.nextMessageIndex, w.OrderIndexFor(ordered, channel), channel % 256,
                  splitId % 0x1_0000);
  }

  lemma ArrivesUnderKey(w: Window, payload: Octets, m: nat, ordered: bool, channel: int, splitId: int, count: nat,
                        i: nat)
    requires i < count
    ensures var f := Normal(Fragment(payload, m, ordered, w.nextMessageIndex, w.OrderIndexFor(ordered, channel),
                                     channel % 256, splitId % 0x1_0000, count, i));
            Of(f, WireKey(w, ordered, channel, splitId)) && f.splitCount == count && f.splitIndex == i
  {
    hide Slice;
  }

  lemma {:induction false} TrackedIsMessage(w: Window, payload: Octets, m: nat, ordered: bool, channel: int,
                                            splitId: int, now: real)
    requires m >= 1 && 1 < FragmentCount(|payload|, m)
    requires TrackSplit(w, payload, m, ordered, channel, splitId, now).Ok?
    ensures var t := TrackSplit(w, payload, m, ordered, channel, splitId, now).value;
            && t.frames != []
            && IsMessage(NormalAll(t.frames), WireKey(w, ordered, channel, splitId))
            && JoinPayloads(NormalAll(t.frames)) == payload
  {
    hide AdmitAll, Slice, FragmentCount, Fragment, Normal, Of, WireKey;
    var t := TrackSplit(w, payload, m, ordered, channel, splitId, now).value;
    forall i | 0 <= i < |t.frames|
      ensures var f := NormalAll(t.frames)[i];
              Of(f, WireKey(w, ordered, channel, splitId)) && f.splitCount == |t.frames| && f.splitIndex == i
    {
      ArrivesUnderKey(w, payload, m, ordered, channel, splitId, |t.frames|, i);
    }
    FragmentsJoin(t.frames, payload, m, ordered, w.nextMessageIndex, w.OrderIndexFor(ordered, channel), channel % 256,
                  splitId % 0x1_0000);
    NormalKeepsPayloads(t.frames);
  }

  /**
   * End to end. A payload is split, its fragments are coalesced with other frames into any datagrams, reordered and
   * duplicated at will. If limits are met, nothing conflicts and fewer than max_groups groups open beside it, the
   * payload comes out whole, at the push that supplies its last missing fragment and at none before.
   */
  lemma {:induction false} EndToEnd(w: Window, payload: Octets, m: nat, ordered: bool, channel: int, splitId: int,
                                    now: real, packed: seq<Packed>, s: Groups) returns (i: nat)
    requires m >= 1 && 1 < FragmentCount(|payload|, m)
    requires TrackSplit(w, payload, m, ordered, channel, splitId, now).Ok?
    requires forall p | p in packed :: p.Sendable()
    requires var t := TrackSplit(w, payload, m, ordered, channel, splitId, now).value;
             && t.frames != []
             && Deliverable(s, Arrival(Wire(packed)), NormalAll(t.frames), WireKey(w, ordered, channel, splitId))
             && (forall f | f in t.frames :: f in Flatten(packed))
    ensures var t := TrackSplit(w, payload, m, ordered, channel, splitId, now).value;
            var (stream, key) := (Arrival(Wire(packed)), WireKey(w, ordered, channel, splitId));
            var results := PushAll(s, stream).results;
            && i < |stream|
            && results[i].Ok? && results[i].value.Some?
            && results[i].value.value.payload == payload
            && results[i].value.value.splitCount == 0
            && results[i].value.value.orderIndex == key.order && results[i].value.value.orderChannel == key.channel
            && Have(stream[..i], key) < Have(stream[..i + 1], key) == Have(stream, key)
            && forall j | 0 <= j < i && Of(stream[j], key) :: results[j] == Ok(None)
  {
    hide TrackSplit, Deliverable, Normal, PushAll;
    var t := TrackSplit(w, payload, m, ordered, channel, splitId, now).value;
    var (stream, fs, key) := (Arrival(Wire(packed)), NormalAll(t.frames), WireKey(w, ordered, channel, splitId));
    TrackedIsMessage(w, payload, m, ordered, channel, splitId, now);
    ArrivalOfWire(packed);
    AllSupplied(s, stream, t.frames, Flatten(packed), key);
    i := DeliveringPush(s, stream, fs, key);
    PrefixDeliverable(s, stream, fs, key, i);
    SuppliedBelow(s, stream[..i], fs, key);
  }

  lemma {:induction false} SuppliedBelow(s: Groups, stream: seq<Frame>, fs: seq<Frame>, key: Key)
    requires Deliverable(s, stream, fs, key)
    ensures Have(stream, key) <= Below(|fs|)
  {
    HaveBounded(stream, fs, key);
  }

  lemma {:induction false} AllSupplied(s: Groups, stream: seq<Frame>, frames: seq<Frame>, all: seq<Frame>, key: Key)
    requires Deliverable(s, stream, NormalAll(frames), key)
    requires stream == NormalAll(all) && forall f | f in frames :: f in all
    ensures Complete(stream, NormalAll(frames), key)
  {
    hide Normal;
    var fs := NormalAll(frames);
    SuppliedBelow(s, stream, fs, key);
    forall i | 0 <= i < |fs| ensures i in Have(stream, key) {
      var f := frames[i];
      assert f in frames;
      var j :| 0 <= j < |all| && all[j] == f;
      assert stream[j] == fs[i] && stream[j] in stream;
    }
  }

  /** One datagram for each frame, numbered from `first`. */
  function OneEach(first: nat, frames: seq<Frame>): (packed: seq<Packed>)
    ensures |packed| == |frames|
    ensures forall i | 0 <= i < |frames| :: packed[i] == Packed(0x80, (first + i) % M24, [frames[i]])
  {
    seq(|frames|, i requires 0 <= i < |frames| => Packed(0x80, (first + i) % M24, [frames[i]]))
  }

  lemma {:induction false} FlattenOneEach(first: nat, frames: seq<Frame>)
    ensures Flatten(OneEach(first, frames)) == frames
    decreases |frames|
  {
    if frames != [] {
      var packed := OneEach(first, frames);
      assert packed[1..] == OneEach(first + 1, frames[1..]);
      FlattenOneEach(first + 1, frames[1..]);
      assert frames == [frames[0]] + frames[1..];
    }
  }

  lemma {:induction false} NothingBeside(s: Groups, stream: seq<Frame>, key: Key)
    requires forall f | f in stream :: Of(f, key)
    ensures OpenedBeside(s, stream, key) == {}
  {
    hide PushAll;
    if stream != [] {
      var n := |stream| - 1;
      assert Of(stream[n], key);
      NothingBeside(s, stream[..n], key);
    }
  }

  lemma OnlyItsFrames(s: Groups, fs: seq<Frame>, key: Key)
    requires Inv(s) && key !in s.groups.at && s.maxGroups >= 1
    requires IsMessage(fs, key) && |fs| <= s.maxParts && |JoinPayloads(fs)| <= s.maxBytes
    ensures Deliverable(s, fs, fs, key)
  {
    hide Inv, OpenedBeside, Of;
    forall f | f in fs ensures WellFormed(f) && Of(f, key) && Agrees(f, fs, key) {
      var i :| 0 <= i < |fs| && fs[i] == f;
      assert Of(fs[i], key);
    }
    NothingBeside(s, fs, key);
  }

  /** The plain case: a fresh reassembler, one datagram per fragment, in order. Every hypothesis of EndToEnd holds. */
  lemma {:induction false} PlainDelivery(w: Window, payload: Octets, m: nat, ordered: bool, channel: int, splitId: int,
                                         now: real,
                                         first: nat, maxGroups: nat, maxParts: nat, maxBytes: nat) returns (i: nat)
    requires 1 <= m <= 8191 && 1 < FragmentCount(|payload|, m) <= 0xFFFF_FFFF
    requires TrackSplit(w, payload, m, ordered, channel, splitId, now).Ok?
    requires maxGroups >= 1 && FragmentCount(|payload|, m) <= maxParts && |payload| <= maxBytes
    ensures var t := TrackSplit(w, payload, m, ordered, channel, splitId, now).value;
            var packed := OneEach(first, t.frames);
            && (forall p | p in packed :: p.Sendable())
            && var results := PushAll(NewGroups(maxGroups, maxParts, maxBytes), Arrival(Wire(packed))).results;
            i < |results| && results[i].Ok? && results[i].value.Some? && results[i].value.value.payload == payload
  {
    hide TrackSplit, Normal, PushAll, Deliverable, IsMessage, FragmentCount, Wire, Arrival, Flatten;
    var t := TrackSplit(w, payload, m, ordered, channel, splitId, now).value;
    var (s, packed) := (NewGroups(maxGroups, maxParts, maxBytes), OneEach(first, t.frames));
    FragmentsEncode(w, payload, m, ordered, channel, splitId, now);
    OneEachIsSendable(first, t.frames);
    TrackedIsMessage(w, payload, m, ordered, channel, splitId, now);
    TrackedCount(w, payload, m, ordered, channel, splitId, now);
    OnlyItsFrames(s, NormalAll(t.frames), WireKey(w, ordered, channel, splitId));
    ArrivalOfWire(packed);
    FlattenOneEach(first, t.frames);
    i := EndToEnd(w, payload, m, ordered, channel, splitId, now, packed, s);
  }

  lemma OneEachIsSendable(first: nat, frames: seq<Frame>)
    requires forall f | f in frames :: Encode(f).Ok?
    ensures forall p | p in OneEach(first, frames) :: p.Sendable()
  {
    hide Encode;
    forall p | p in OneEach(first, frames) ensures p.Sendable() {
      var i :| 0 <= i < |frames| && OneEach(first, frames)[i] == p;
      assert frames[i] in frames && p.frames == [frames[i]] && p.frames[1..] == [];
      assert Encode(p.frames[0]).Ok? && EncodeAll(p.frames[1..]) == Ok([]);
      assert EncodeAll(p.frames).Ok?;
    }
  }

  lemma TrackedCount(w: Window, payload: Octets, m: nat, ordered: bool, channel: int, splitId: int, now: real)
    requires m >= 1 && 1 < FragmentCount(|payload|, m)
    requires TrackSplit(w, payload, m, ordered, channel, splitId, now).Ok?
    ensures |TrackSplit(w, payload, m, ordered, channel, splitId, now).value.frames| == FragmentCount(|payload|, m)
  {
    hide AdmitAll, Slice, FragmentCount;
  }

  /** A message that was not split is returned by every push, with the same payload. */
  lemma {:induction false} Unsplit(w: Window, payload: Octets, ordered: bool, channel: int, now: real, suffix: Octets,
                                   s: Groups)
    requires Track(w, payload, ordered, channel, now).Ok? && |payload| <= 8191
    ensures var f := Track(w, payload, ordered, channel, now).value.frames[0];
            && Encode(f).Ok?
            && var d := Decode(Encode(f).value + suffix);
            && d.Ok? && d.value.frame.payload == payload
            && Push(s, d.value.frame) == Pushed(s, Ok(Some(d.value.frame)))
  {
    var f := Track(w, payload, ordered, channel, now).value.frames[0];
    hide AdmitAll, Decode;
    DecodeInvertsEncode(f, suffix);
  }
}
