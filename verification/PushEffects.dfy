/**
 * What a push does to the whole reassembler: which groups are left in which order, what the group of the fragment
 * holds, and the header of a message that is complete.
 */
module PushEffects {
  import opened Results
  import opened Bytes
  import opened OrderedDict
  import opened RaknetCodec
  import opened SplitReassembly
  import opened Replication

  /** The four fields that tell groups apart; without an explicit mode, the one its flags imply. */
  function Fields(f: Frame): Key {
    Key(f.splitId, f.orderChannel, f.orderIndex,
        if f.mode.Some? then f.mode.value else if f.reliable && f.ordered then 3 else if f.reliable then 2 else 0)
  }

  /**
   * The keys of the groups once room is made for this one: the eldest goes when the table is full and this one is
   * new.
   */
  function Roomy(s: Groups, key: Key): seq<Key> {
    if key !in s.groups.keys && |s.groups.keys| >= s.maxGroups && s.groups.keys != [] then s.groups.keys[1..]
    else s.groups.keys
  }

  /** The push touches nothing: no fragment, too many parts, or no room at all. */
  predicate Untouching(s: Groups, f: Frame) {
    f.splitCount <= 0 || f.splitCount > s.maxParts || (s.groups.keys == [] && s.maxGroups <= 0)
  }

  lemma KeyIs(f: Frame)
    ensures KeyOf(f) == Fields(f)
  {}

  lemma InKeys(s: Groups, key: Key)
    ensures key in s.groups.at <==> key in s.groups.keys
  {}

  lemma PushUnfolds(s: Groups, f: Frame)
    requires Inv(s)
    ensures Untouching(s, f) ==>
              Push(s, f) == Pushed(s, if f.splitCount <= 0 then Ok(Some(f))
                                      else if f.splitCount > s.maxParts then Err(ValueError) else Err(StopIteration))
    ensures !Untouching(s, f) ==> MakeRoom(s, Fields(f)).Ok? && Push(s, f) == Fill(MakeRoom(s, Fields(f)).value,
                                                                                   Fields(f), f)
  {
    hide Fill, Drop, GroupInv;
    KeyIs(f);
    InKeys(s, Fields(f));
  }

  lemma {:induction false} RoomIs(s: Groups, key: Key)
    requires Inv(s) && MakeRoom(s, key).Ok?
    ensures var r := MakeRoom(s, key).value;
            && Inv(r) && r.groups.keys == Roomy(s, key)
            && r.maxGroups == s.maxGroups && r.maxParts == s.maxParts && r.maxBytes == s.maxBytes
            && (forall k | k in r.groups.at :: SameGroup(s, r, k))
  {
    hide GroupInv, Without;
    MakeRoomKeepsInv(s, key);
    InKeys(s, key);
    if key !in s.groups.keys && |s.groups.keys| >= s.maxGroups {
      DroppedKeys(s, s.groups.keys[0]);
      FirstGone(s.groups.keys);
    }
  }

  lemma FirstGone<T>(keys: seq<T>)
    requires keys != []
    ensures Without(keys, keys[0]) == keys[1..]
  {}

  /** The group under a key is as it was: its parts, its count and the fragment it opened with. */
  ghost predicate SameGroup(s: Groups, s': Groups, k: Key) {
    && k in s.groups.at && k in s'.groups.at && s'.groups.at[k] == s.groups.at[k]
    && k in s.counts && k in s'.counts && s'.counts[k] == s.counts[k]
    && k in s.templates && k in s'.templates && s'.templates[k] == s.templates[k]
  }

  lemma DroppedKeys(s: Groups, key: Key)
    requires Inv(s)
    ensures var d := Drop(s, key);
            && d.groups.keys == Without(s.groups.keys, key) && key !in d.groups.keys
            && (forall k | k in s.groups.at && k != key :: SameGroup(s, d, k))
            && (forall k | k in d.groups.at :: k != key && SameGroup(s, d, k))
  {
    hide GroupInv, Without, SameGroup, Inv, Drop;
    PopIs(s.groups, key);
    DropFields(s, key);
    WithoutDropsOne(s.groups.keys, key);
    forall k | k in s.groups.at && k != key ensures SameGroup(s, Drop(s, key), k) { DroppedElsewhere(s, key, k); }
  }

  lemma DropFields(s: Groups, key: Key)
    ensures Drop(s, key).groups == Pop(s.groups, key)
  {}

  lemma DroppedElsewhere(s: Groups, key: Key, k: Key)
    requires Inv(s) && k in s.groups.at && k != key
    ensures SameGroup(s, Drop(s, key), k)
  {
    hide GroupInv;
    assert k in s.counts.Keys && k in s.templates.Keys;
  }

  /**
   * The group of the fragment after it was stored: one part more unless its place is taken, the given count, the
   * first header.
   */
  ghost predicate StoredIn(s: Groups, s': Groups, key: Key, f: Frame) {
    && key in s'.groups.at && key in s'.counts && key in s'.templates
    && s'.counts[key] == f.splitCount && s'.templates[key] == Opener(s, key, f)
    && s'.groups.at[key].at == if key !in s.groups.at then map[f.splitIndex := f.payload]
                               else if f.splitIndex in s.groups.at[key].at then s.groups.at[key].at
                               else s.groups.at[key].at[f.splitIndex := f.payload]
  }

  /** The fragment that opened the group, if need be this one. */
  function Opener(s: Groups, key: Key, f: Frame): Frame {
    if key in s.groups.at && key in s.templates then s.templates[key] else f
  }

  /** Stored at the end of the table if the group is new. */
  function WithKey(keys: seq<Key>, key: Key): seq<Key> {
    if key in keys then keys else keys + [key]
  }

  lemma StoredOwn(s: Groups, key: Key, f: Frame)
    requires Inv(s)
    ensures StoredIn(s, Store(s, key, f), key, f)
  {
    hide GroupInv;
    assert key in s.templates.Keys <==> key in s.groups.at.Keys;
    assert Empty<int, Octets>().at == map[];
  }

  lemma StoredOrder(s: Groups, key: Key, f: Frame)
    ensures Store(s, key, f).groups.keys == WithKey(s.groups.keys, key)
  {
    InKeys(s, key);
  }

  lemma StoredElsewhere(s: Groups, key: Key, f: Frame, k: Key)
    requires Inv(s) && k != key
    ensures k in s.groups.at <==> k in Store(s, key, f).groups.at
    ensures k in s.groups.at ==> SameGroup(s, Store(s, key, f), k)
  {
    hide GroupInv, Set;
    if k in s.groups.at { assert k in s.counts.Keys && k in s.templates.Keys; }
  }

  /** All groups but the fragment's own. */
  ghost predicate OthersSame(s: Groups, s': Groups, key: Key) {
    forall k | k in s'.groups.at && k != key :: SameGroup(s, s', k)
  }

  lemma StoredOthers(s: Groups, key: Key, f: Frame)
    requires Inv(s)
    ensures OthersSame(s, Store(s, key, f), key)
  {
    hide Inv, Store, SameGroup;
    forall k | k in Store(s, key, f).groups.at && k != key ensures SameGroup(s, Store(s, key, f), k) {
      StoredElsewhere(s, key, f, k);
    }
  }

  /** The message is the joined payload under the header of the fragment that opened its group. */
  predicate HeadedBy(message: Frame, t: Frame) {
    message == Frame(message.payload, t.reliable, t.ordered, t.messageIndex, t.orderIndex, t.orderChannel,
                     t.sequencingIndex, 0, 0, 0, t.mode)
  }

  /** What is left after a push of a fragment, by its result: waiting, refused, or complete. */
  ghost predicate Left(s: Groups, room: seq<Key>, key: Key, f: Frame, p: Pushed) {
    && OthersSame(s, p.state, key)
    && (p.result == Ok(None) ==> p.state.groups.keys == WithKey(room, key) && StoredIn(s, p.state, key, f))
    && (p.result != Ok(None) ==> p.state.groups.keys == Without(room, key))
    && (p.result.Ok? && p.result.value.Some? ==> HeadedBy(p.result.value.value, Opener(s, key, f)))
  }

  lemma {:induction false} FillLeaves(s: Groups, key: Key, f: Frame)
    requires Inv(s)
    ensures Left(s, s.groups.keys, key, f, Fill(s, key, f))
  {
    hide Inv, Fill, Store, Drop, Without, SameGroup, WithKey, Opener, HeadedBy, OthersSame;
    var stored := Store(s, key, f);
    FillIs(s, key, f);
    StoredOwn(s, key, f);
    StoredOrder(s, key, f);
    StoredOthers(s, key, f);
    DropStored(s, key, f);
    DropOwn(s, key);
  }

  lemma DropOwn(s: Groups, key: Key)
    requires Inv(s)
    ensures Drop(s, key).groups.keys == Without(s.groups.keys, key) && OthersSame(s, Drop(s, key), key)
  {
    hide Inv, Drop, Without, SameGroup;
    DroppedKeys(s, key);
  }

  /** The three ends of filling: dropped as it was, stored, or stored and dropped. */
  lemma FillIs(s: Groups, key: Key, f: Frame)
    ensures var (p, stored) := (Fill(s, key, f), Store(s, key, f));
            || p == Pushed(Drop(s, key), Err(ValueError))
            || p == Pushed(Drop(stored, key), Err(ValueError))
            || p == Pushed(stored, Ok(None))
            || (p.state == Drop(stored, key) && p.result.Ok? && p.result.value.Some? && key in stored.templates
                && HeadedBy(p.result.value.value, stored.templates[key]))
  {
    hide Store, Drop, TotalSize, Join;
    StoredHas(s, key, f);
  }

  lemma StoredHas(s: Groups, key: Key, f: Frame)
    ensures key in Store(s, key, f).groups.at && key in Store(s, key, f).templates
  {
    hide Set;
  }

  lemma {:induction false} DropStored(s: Groups, key: Key, f: Frame)
    requires Inv(s)
    ensures var d := Drop(Store(s, key, f), key);
            d.groups.keys == Without(s.groups.keys, key) && OthersSame(s, d, key)
  {
    hide Inv, Store, Without, SameGroup, Drop;
    var stored := Store(s, key, f);
    StoredOrder(s, key, f);
    PopLast(s.groups.keys, key);
    PopIs(stored.groups, key);
    DropFields(stored, key);
    forall k | k in Drop(stored, key).groups.at && k != key ensures SameGroup(s, Drop(stored, key), k) {
      DroppedStored(s, key, f, k);
    }
  }

  lemma DroppedStored(s: Groups, key: Key, f: Frame, k: Key)
    requires Inv(s) && k != key && k in Drop(Store(s, key, f), key).groups.at
    ensures SameGroup(s, Drop(Store(s, key, f), key), k)
  {
    hide Inv, Store;
    assert k in Store(s, key, f).groups.at;
    StoredElsewhere(s, key, f, k);
  }

  lemma PopIs(d: Dict<Key, Parts>, key: Key)
    ensures Pop(d, key).keys == Without(d.keys, key)
  {}

  lemma {:induction false} PopLast(keys: seq<Key>, key: Key)
    ensures Without(WithKey(keys, key), key) == Without(keys, key)
    decreases |keys|
  {
    if key !in keys {
      WithoutAppended(keys, key);
    }
  }

  lemma {:induction false} WithoutAppended(keys: seq<Key>, key: Key)
    requires key !in keys
    ensures Without(keys + [key], key) == keys
    decreases |keys|
  {
    if keys != [] {
      assert (keys + [key])[1..] == keys[1..] + [key];
      WithoutAppended(keys[1..], key);
    }
  }

  /**
   * Every push, on every path: it leaves the table alone, or makes room by its eldest group and then stores the
   * fragment and waits, or takes the fragment's own group away; no other group changes.
   */
  lemma {:induction false} PushLeaves(s: Groups, f: Frame)
    requires Inv(s)
    ensures if Untouching(s, f) then
              Push(s, f) == Pushed(s, if f.splitCount <= 0 then Ok(Some(f))
                                      else if f.splitCount > s.maxParts then Err(ValueError) else Err(StopIteration))
            else Left(s, Roomy(s, Fields(f)), Fields(f), f, Push(s, f))
  {
    hide Inv, Fill, StoredIn, SameGroup, MakeRoom, Fields, HeadedBy, Left, Roomy, Push, Untouching;
    PushUnfolds(s, f);
    if !Untouching(s, f) {
      RoomIs(s, Fields(f));
      FillLeaves(MakeRoom(s, Fields(f)).value, Fields(f), f);
      LeftAlike(s, MakeRoom(s, Fields(f)).value, Fields(f), f, Push(s, f));
    }
  }

  lemma LeftAlike(s: Groups, room: Groups, key: Key, f: Frame, p: Pushed)
    requires Inv(s) && room.groups.keys == Roomy(s, key) && forall k | k in room.groups.at :: SameGroup(s, room, k)
    requires Left(room, room.groups.keys, key, f, p)
    ensures Left(s, Roomy(s, key), key, f, p)
  {
    hide Inv, Without, WithKey, SameGroup, HeadedBy, Roomy, OthersSame;
    RoomyOwn(s, room, key);
    SameTwice(s, room, p.state, key);
    if key in s.groups.at { SharedFields(s, room, key); }
  }

  lemma SharedFields(s: Groups, room: Groups, key: Key)
    requires SameGroup(s, room, key)
    ensures key in s.templates && key in room.templates && s.templates[key] == room.templates[key]
    ensures key in s.groups.at && key in room.groups.at && s.groups.at[key] == room.groups.at[key]
  {}

  lemma RoomyOwn(s: Groups, room: Groups, key: Key)
    requires room.groups.keys == Roomy(s, key) && forall k | k in room.groups.at :: SameGroup(s, room, k)
    ensures key in room.groups.at <==> key in s.groups.at
    ensures key in s.groups.at ==> SameGroup(s, room, key)
  {
    hide SameGroup;
    InKeys(s, key);
    InKeys(room, key);
  }

  lemma SameTwice(s: Groups, room: Groups, s': Groups, key: Key)
    requires (forall k | k in room.groups.at :: SameGroup(s, room, k)) && OthersSame(room, s', key)
    ensures OthersSame(s, s', key)
  {}

  // ---- the messages handed on -------------------------------------------------------------------

  /**
   * An entry of the list of messages keeps the fields of the frame that completed it, but for payload and split
   * count.
   */
  lemma {:induction false} EntryKeepsFields(r: Receiver, p: Profile, f: Frame)
    ensures var complete := ApplyFrame(r, p, f).complete;
            && |complete| <= 1
            && forall c | c in complete ::
                 && c.reassembled == (f.splitCount > 0) && c.message.payload != []
                 && c.message == Frame(c.message.payload, f.reliable, f.ordered, f.messageIndex, f.orderIndex,
                                       f.orderChannel, f.sequencingIndex, 0, f.splitId, f.splitIndex, f.mode)
  {
    hide Push, Observe;
  }
}
