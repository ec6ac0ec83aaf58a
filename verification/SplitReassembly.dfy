/** SplitReassembler: bounded reassembly of split frames, keyed by stream and order identity. */
module SplitReassembly {
  import opened Results
  import opened Bytes
  import opened OrderedDict
  import opened RaknetCodec

  datatype Key = Key(splitId: int, channel: int, order: int, mode: int)

  function KeyOf(f: Frame): Key {
    Key(f.splitId, f.orderChannel, f.orderIndex, f.EffectiveMode())
  }

  type Parts = Dict<int, Octets>

  datatype Groups = Groups(
    maxGroups: int,
    maxParts: int,
    maxBytes: int,
    groups: Dict<Key, Parts>,
    counts: map<Key, int>,
    templates: map<Key, Frame>)

  function NewGroups(maxGroups: int, maxParts: int, maxBytes: int): Groups {
    Groups(maxGroups, maxParts, maxBytes, Empty(), map[], map[])
  }

  /** The stored bytes of the parts with the given keys. */
  function SizeOf(keys: seq<int>, at: map<int, Octets>): nat {
    if keys == [] then 0 else |Get(at, keys[0], [])| + SizeOf(keys[1..], at)
  }

  function TotalSize(parts: Parts): nat {
    SizeOf(parts.keys, parts.at)
  }

  /** parts[i] + ... + parts[count - 1], or None at the first index that is missing. */
  function Join(parts: map<int, Octets>, i: nat, count: int): Option<Octets>
    decreases count - i
  {
    if i >= count then Some([])
    else if i !in parts then None
    else
      match Join(parts, i + 1, count)
      case None => None
      case Some(rest) => Some(parts[i] + rest)
  }

  function Drop(s: Groups, key: Key): Groups {
    s.(groups := Pop(s.groups, key), counts := s.counts - {key}, templates := s.templates - {key})
  }

  /** setdefault of the group, its count and template, and of the part; the first part under an index wins. */
  function Store(s: Groups, key: Key, f: Frame): Groups {
    var parts: Parts := Get(s.groups.at, key, Empty());
    var parts' := if f.splitIndex in parts.at then parts else Set(parts, f.splitIndex, f.payload);
    s.(groups := Set(s.groups, key, parts'),
       counts := s.counts[key := f.splitCount],
       templates := if key in s.templates then s.templates else s.templates[key := f])
  }

  /** The whole message, under the header of the first fragment that arrived. */
  function Rebuilt(payload: Octets, template: Frame): Frame {
    Frame(payload, template.reliable, template.ordered, template.messageIndex, template.orderIndex,
          template.orderChannel, template.sequencingIndex, 0, 0, 0, template.mode)
  }

  datatype Pushed = Pushed(state: Groups, result: Result<Option<Frame>>)

  /** A full table makes room by dropping the group that was opened first. */
  function MakeRoom(s: Groups, key: Key): Result<Groups> {
    if key in s.groups.at || |s.groups.keys| < s.maxGroups then Ok(s)
    else if s.groups.keys == [] then Err(StopIteration)
    else Ok(Drop(s, s.groups.keys[0]))
  }

  function Push(s: Groups, f: Frame): Pushed {
    if !f.Split() then Pushed(s, Ok(Some(f)))
    else if f.splitCount > s.maxParts then Pushed(s, Err(ValueError))
    else
      var key := KeyOf(f);
      var room := MakeRoom(s, key);
      if room.Err? then Pushed(s, Err(room.error)) else Fill(room.value, key, f)
  }

  function Fill(s: Groups, key: Key, f: Frame): Pushed {
    if key in s.counts && s.counts[key] != f.splitCount then Pushed(Drop(s, key), Err(ValueError)) else
    var stored := Store(s, key, f);
    var parts := stored.groups.at[key];
    if TotalSize(parts) > s.maxBytes then Pushed(Drop(stored, key), Err(ValueError))
    else if |parts.keys| != f.splitCount then Pushed(stored, Ok(None))
    else
      match Join(parts.at, 0, f.splitCount)
      case None => Pushed(stored, Ok(None))
      case Some(payload) => Pushed(Drop(stored, key), Ok(Some(Rebuilt(payload, stored.templates[key]))))
  }

  // ---- the invariant ------------------------------------------------------------

  /** A retained group: unfinished, within its bounds, and filed under the key of its template. */
  ghost predicate GroupInv(s: Groups, key: Key) {
    && key in s.groups.at && key in s.counts && key in s.templates
    && var parts := s.groups.at[key];
    && |parts.keys| < s.counts[key] <= s.maxParts
    && (forall i | i in parts.at :: 0 <= i < s.counts[key])
    && TotalSize(parts) <= s.maxBytes
    && s.templates[key].Split() && KeyOf(s.templates[key]) == key
  }

  ghost predicate Inv(s: Groups) {
    && s.counts.Keys == s.groups.at.Keys
    && s.templates.Keys == s.groups.at.Keys
    && |s.groups.keys| <= (if s.maxGroups > 0 then s.maxGroups else 0)
    && forall key | key in s.groups.at :: GroupInv(s, key)
  }

  /** What decoding guarantees of a split frame. */
  predicate WellFormed(f: Frame) {
    f.Split() ==> 0 <= f.splitIndex < f.splitCount
  }

  ghost function Below(n: nat): (r: set<int>)
    ensures forall i :: i in r <==> 0 <= i < n
    ensures |r| == n
  {
    if n == 0 then {} else Below(n - 1) + {n - 1}
  }

  /** Pigeonhole: n distinct indices below n are all the indices below n. */
  lemma {:induction false} FullGroupHasEveryIndex(parts: Parts, count: nat)
    requires |parts.keys| == count
    requires forall i | i in parts.at :: 0 <= i < count
    ensures forall i | 0 <= i < count :: i in parts.at
  {
    KeysOfDict(parts);
    assert parts.at.Keys <= Below(count);
    SubsetOfEqualSize(parts.at.Keys, Below(count));
  }

  lemma SubsetOfEqualSize<T>(a: set<T>, b: set<T>)
    requires a <= b && |a| == |b|
    ensures a == b
  {
    assert b == a + (b - a);
    assert |b - a| == 0;
  }

  lemma {:induction false} JoinFinds(parts: map<int, Octets>, i: nat, count: int)
    requires forall j | i <= j < count :: j in parts
    ensures Join(parts, i, count).Some?
    decreases count - i
  {
    if i < count { JoinFinds(parts, i + 1, count); }
  }

  lemma {:induction false} DropKeepsInv(s: Groups, key: Key)
    requires s.counts.Keys == s.groups.at.Keys && s.templates.Keys == s.groups.at.Keys
    requires |s.groups.keys| <= (if s.maxGroups > 0 then s.maxGroups else 0)
    requires forall k | k in s.groups.at && k != key :: GroupInv(s, k)
    ensures Inv(Drop(s, key))
  {
    var s' := Drop(s, key);
    assert s'.counts.Keys == s.counts.Keys - {key};
    assert s'.templates.Keys == s.templates.Keys - {key};
    assert s'.groups.at.Keys == s.groups.at.Keys - {key};
    forall k | k in s'.groups.at ensures GroupInv(s', k) {
      assert GroupInv(s, k);
    }
  }

  lemma {:induction false} MakeRoomKeepsInv(s: Groups, key: Key)
    requires Inv(s) && MakeRoom(s, key).Ok?
    ensures var r := MakeRoom(s, key).value;
            && Inv(r) && r.maxParts == s.maxParts && r.maxBytes == s.maxBytes && r.maxGroups == s.maxGroups
            && (key !in r.groups.at ==> |r.groups.keys| < r.maxGroups)
  {
    hide GroupInv, Pop;
    if !(key in s.groups.at || |s.groups.keys| < s.maxGroups) {
      assert s.groups.keys[0] in s.groups.keys;
      DropKeepsInv(s, s.groups.keys[0]);
    }
  }

  lemma {:induction false} StoreKeys(s: Groups, key: Key, f: Frame)
    ensures var s' := Store(s, key, f);
            && s'.groups.at.Keys == s.groups.at.Keys + {key}
            && s'.counts.Keys == s.counts.Keys + {key}
            && s'.templates.Keys == s.templates.Keys + {key}
            && |s'.groups.keys| == |s.groups.keys| + (if key in s.groups.at then 0 else 1)
  {
    hide Set, Get;
  }

  lemma {:induction false} StoreElsewhere(s: Groups, key: Key, f: Frame, k: Key)
    requires GroupInv(s, k) && k != key
    ensures GroupInv(Store(s, key, f), k)
  {
    hide SizeOf;
  }

  /** After a part is stored, all other groups are as before and the map of counts still mirrors the groups. */
  lemma {:induction false} StoreFacts(s: Groups, key: Key, f: Frame)
    requires Inv(s) && (key !in s.groups.at ==> |s.groups.keys| < s.maxGroups)
    ensures var s' := Store(s, key, f);
            && s'.counts.Keys == s'.groups.at.Keys && s'.templates.Keys == s'.groups.at.Keys
            && |s'.groups.keys| <= s'.maxGroups
            && key in s'.groups.at
            && forall k | k in s'.groups.at && k != key :: GroupInv(s', k)
  {
    hide GroupInv;
    StoreKeys(s, key, f);
    forall k | k in s.groups.at && k != key ensures GroupInv(Store(s, key, f), k) {
      StoreElsewhere(s, key, f, k);
    }
  }

  lemma {:induction false} FillKeepsInv(s: Groups, key: Key, f: Frame)
    requires Inv(s) && (key !in s.groups.at ==> |s.groups.keys| < s.maxGroups)
    requires f.Split() && WellFormed(f) && f.splitCount <= s.maxParts && key == KeyOf(f)
    ensures Inv(Fill(s, key, f).state)
    ensures Fill(s, key, f).result == Ok(None) ==> key in Fill(s, key, f).state.groups.at
  {
    if key in s.counts && s.counts[key] != f.splitCount {
      hide GroupInv;
      DropKeepsInv(s, key);
    } else {
      var stored := Store(s, key, f);
      StoreFacts(s, key, f);
      StoredGroup(s, key, f);
      hide Store, GroupInv, Drop, TotalSize, Join;
      DropKeepsInv(stored, key);
      if |stored.groups.at[key].keys| == f.splitCount {
        FullGroupHasEveryIndex(stored.groups.at[key], f.splitCount);
        JoinFinds(stored.groups.at[key].at, 0, f.splitCount);
      }
    }
  }

  lemma {:induction false} StoredGroup(s: Groups, key: Key, f: Frame)
    requires Inv(s) && (key in s.counts ==> s.counts[key] == f.splitCount)
    requires f.Split() && WellFormed(f) && f.splitCount <= s.maxParts && key == KeyOf(f)
    ensures var s' := Store(s, key, f);
            && key in s'.groups.at
            && var parts := s'.groups.at[key];
            && |parts.keys| <= f.splitCount
            && (forall i | i in parts.at :: 0 <= i < f.splitCount)
            && (|parts.keys| < f.splitCount && TotalSize(parts) <= s.maxBytes ==> GroupInv(s', key))
  {
    hide SizeOf;
    if key in s.groups.at { assert GroupInv(s, key); }
  }

  /**
   * Every push, raising or not, keeps the bounds: one key set of at most max_groups groups, every stored index below
   * its group's count, at most max_bytes per group, and no finished group.
   */
  lemma {:induction false} PushKeepsInv(s: Groups, f: Frame)
    requires Inv(s) && WellFormed(f)
    ensures Inv(Push(s, f).state)
    ensures s.maxGroups >= 1 ==> Push(s, f).result != Err(StopIteration)
  {
    hide Fill, Drop, GroupInv, KeyOf;
    if f.Split() && f.splitCount <= s.maxParts && MakeRoom(s, KeyOf(f)).Ok? {
      MakeRoomKeepsInv(s, KeyOf(f));
      FillKeepsInv(MakeRoom(s, KeyOf(f)).value, KeyOf(f), f);
      FillErrors(MakeRoom(s, KeyOf(f)).value, KeyOf(f), f);
    }
  }

  // ---- when a push raises -------------------------------------------------------------

  /** The bytes that the group of a frame holds already. */
  function HeldBytes(s: Groups, key: Key): nat {
    if key in s.groups.at then TotalSize(s.groups.at[key]) else 0
  }

  /** A part under a new index adds its bytes; a duplicate adds none. */
  function AddedBytes(s: Groups, f: Frame): nat {
    if KeyOf(f) in s.groups.at && f.splitIndex in s.groups.at[KeyOf(f)].at then 0 else |f.payload|
  }

  predicate NoRoom(s: Groups, f: Frame) {
    s.maxGroups <= 0 && KeyOf(f) !in s.groups.at
  }

  predicate CountChanges(s: Groups, f: Frame) {
    KeyOf(f) in s.counts && s.counts[KeyOf(f)] != f.splitCount
  }

  /** What the caller can see before the push of a split frame that makes it raise. */
  predicate Refused(s: Groups, f: Frame) {
    && f.Split()
    && (|| f.splitCount > s.maxParts
        || NoRoom(s, f)
        || CountChanges(s, f)
        || HeldBytes(s, KeyOf(f)) + AddedBytes(s, f) > s.maxBytes)
  }

  /** A push raises in exactly these cases, and StopIteration only where the table admits no group at all. */
  lemma {:induction false} PushRaises(s: Groups, f: Frame)
    requires Inv(s)
    ensures Push(s, f).result.Err? <==> Refused(s, f)
    ensures Push(s, f).result.Err? ==>
              Push(s, f).result == Err(if f.splitCount <= s.maxParts && NoRoom(s, f) then StopIteration else ValueError)
  {
    hide Fill, Drop, KeyOf, TotalSize, GroupInv;
    var key := KeyOf(f);
    if f.Split() && f.splitCount <= s.maxParts && MakeRoom(s, key).Ok? {
      RoomForTheKey(s, key);
      FillRaises(MakeRoom(s, key).value, key, f);
    }
  }

  lemma RoomForTheKey(s: Groups, key: Key)
    requires Inv(s) && MakeRoom(s, key).Ok?
    ensures var r := MakeRoom(s, key).value;
            && (key in r.groups.at <==> key in s.groups.at)
            && (key in r.groups.at ==> r.groups.at[key] == s.groups.at[key])
            && (key in r.counts <==> key in s.counts) && (key in r.counts ==> r.counts[key] == s.counts[key])
            && r.maxParts == s.maxParts && r.maxBytes == s.maxBytes
  {
    hide GroupInv;
  }

  lemma FillRaises(s: Groups, key: Key, f: Frame)
    requires key == KeyOf(f)
    ensures Fill(s, key, f).result.Err? <==> CountChanges(s, f) || HeldBytes(s, key) + AddedBytes(s, f) > s.maxBytes
    ensures Fill(s, key, f).result.Err? ==> Fill(s, key, f).result == Err(ValueError)
  {
    hide Drop, KeyOf, TotalSize;
    StoredBytes(s, key, f);
  }

  lemma StoredBytes(s: Groups, key: Key, f: Frame)
    requires key == KeyOf(f)
    ensures key in Store(s, key, f).groups.at
    ensures TotalSize(Store(s, key, f).groups.at[key]) == HeldBytes(s, key) + AddedBytes(s, f)
  {
    hide KeyOf;
    var parts: Parts := Get(s.groups.at, key, Empty());
    if f.splitIndex !in parts.at {
      var parts' := Set(parts, f.splitIndex, f.payload);
      SizeOfAppend(parts.keys, parts'.at, f.splitIndex);
      SizeIgnores(parts.keys, parts.at, f.splitIndex, f.payload);
    }
  }

  lemma {:induction false} SizeOfAppend(keys: seq<int>, at: map<int, Octets>, k: int)
    ensures SizeOf(keys + [k], at) == SizeOf(keys, at) + |Get(at, k, [])|
  {
    if keys == [] {
      assert (keys + [k])[1..] == [];
    } else {
      assert (keys + [k])[1..] == keys[1..] + [k];
      SizeOfAppend(keys[1..], at, k);
    }
  }

  lemma {:induction false} SizeIgnores(keys: seq<int>, at: map<int, Octets>, k: int, payload: Octets)
    requires k !in keys
    ensures SizeOf(keys, at[k := payload]) == SizeOf(keys, at)
  {
    if keys != [] { SizeIgnores(keys[1..], at, k, payload); }
  }

  lemma FillErrors(s: Groups, key: Key, f: Frame)
    ensures Fill(s, key, f).result != Err(StopIteration)
  {}

  /**
   * The KeyError fallback is dead: a push that leaves a group waiting leaves it with fewer parts than its count,
   * so it never waits for a part it already has.
   */
  lemma {:induction false} WaitingMeansIncomplete(s: Groups, f: Frame)
    requires Inv(s) && WellFormed(f) && f.Split() && Push(s, f).result == Ok(None)
    ensures var s' := Push(s, f).state;
            KeyOf(f) in s'.groups.at && KeyOf(f) in s'.counts && |s'.groups.at[KeyOf(f)].keys| < s'.counts[KeyOf(f)]
  {
    PushKeepsInv(s, f);
    hide Fill, Drop, KeyOf;
    MakeRoomKeepsInv(s, KeyOf(f));
    FillKeepsInv(MakeRoom(s, KeyOf(f)).value, KeyOf(f), f);
    assert GroupInv(Push(s, f).state, KeyOf(f));
  }

  // ---- runs -------------------------------------------------------------------------

  datatype Pushes = Pushes(state: Groups, results: seq<Result<Option<Frame>>>)

  /** Pushes a stream of frames; a push that raises is followed by the next one. */
  function PushAll(s: Groups, stream: seq<Frame>): (r: Pushes)
    ensures |r.results| == |stream|
  {
    if stream == [] then Pushes(s, []) else
    var before := PushAll(s, stream[..|stream| - 1]);
    var last := Push(before.state, stream[|stream| - 1]);
    Pushes(last.state, before.results + [last.result])
  }

  lemma {:induction false} EveryRunKeepsInv(maxGroups: int, maxParts: int, maxBytes: int, stream: seq<Frame>)
    requires forall f | f in stream :: WellFormed(f)
    ensures Inv(PushAll(NewGroups(maxGroups, maxParts, maxBytes), stream).state)
  {
    if stream != [] {
      EveryRunKeepsInv(maxGroups, maxParts, maxBytes, stream[..|stream| - 1]);
      assert stream[|stream| - 1] in stream;
      PushKeepsInv(PushAll(NewGroups(maxGroups, maxParts, maxBytes), stream[..|stream| - 1]).state,
                   stream[|stream| - 1]);
    } else {
      var s := NewGroups(maxGroups, maxParts, maxBytes);
      assert s.counts.Keys == {} == s.groups.at.Keys && s.templates.Keys == {};
    }
  }

  // ---- the class --------------------------------------------------------------------

  class SplitReassembler {
    const maxGroups: int
    const maxParts: int
    const maxBytes: int
    var groups: Dict<Key, Parts>
    var counts: map<Key, int>
    var templates: map<Key, Frame>

    ghost function Model(): Groups
      reads this
    {
      Groups(maxGroups, maxParts, maxBytes, groups, counts, templates)
    }

    constructor (maxGroups: int := 128, maxParts: int := 4096, maxBytes: int := 16 * 1024 * 1024)
      ensures Model() == NewGroups(maxGroups, maxParts, maxBytes)
      ensures Inv(Model())
    {
      this.maxGroups, this.maxParts, this.maxBytes := maxGroups, maxParts, maxBytes;
      groups, counts, templates := Empty(), map[], map[];
      new;
      EveryRunKeepsInv(maxGroups, maxParts, maxBytes, []);
    }

    method DropGroup(key: Key)
      modifies this
      ensures Model() == Drop(old(Model()), key)
    {
      groups := Pop(groups, key);
      counts := counts - {key};
      templates := templates - {key};
    }

    method StorePart(key: Key, f: Frame)
      modifies this
      ensures Model() == Store(old(Model()), key, f)
    {
      var parts: Parts := Get(groups.at, key, Empty());
      if f.splitIndex !in parts.at {
        parts := Set(parts, f.splitIndex, f.payload);
      }
      groups := Set(groups, key, parts);
      counts := counts[key := f.splitCount];
      if key !in templates {
        templates := templates[key := f];
      }
    }

    method PushFrame(f: Frame) returns (r: Result<Option<Frame>>)
      modifies this
      ensures Pushed(Model(), r) == Push(old(Model()), f)
      ensures old(Inv(Model())) && WellFormed(f) ==> Inv(Model())
    {
      hide Drop, Store, Inv, KeyOf;
      if Inv(Model()) && WellFormed(f) { PushKeepsInv(Model(), f); }
      if !f.Split() {
        return Ok(Some(f));
      }
      if f.splitCount > maxParts {
        return Err(ValueError);
      }
      var key := KeyOf(f);
      if key !in groups.at && |groups.keys| >= maxGroups {
        if groups.keys == [] {
          return Err(StopIteration);
        }
        DropGroup(groups.keys[0]);
      }
      r := FillGroup(key, f);
    }

    method FillGroup(key: Key, f: Frame) returns (r: Result<Option<Frame>>)
      requires f.Split()
      modifies this
      ensures Pushed(Model(), r) == Fill(old(Model()), key, f)
    {
      hide Drop, TotalSize, Join;
      if key in counts && counts[key] != f.splitCount {
        DropGroup(key);
        return Err(ValueError);
      }
      StorePart(key, f);
      var parts := groups.at[key];
      var size := MeasureParts(parts);
      if size > maxBytes {
        DropGroup(key);
        return Err(ValueError);
      }
      if |parts.keys| != f.splitCount {
        return Ok(None);
      }
      var payload := JoinParts(parts, f.splitCount);
      if payload.None? {
        return Ok(None);
      }
      var template := templates[key];
      DropGroup(key);
      r := Ok(Some(Rebuilt(payload.value, template)));
    }

    method MeasureParts(parts: Parts) returns (size: nat)
      ensures size == TotalSize(parts)
    {
      size := 0;
      for i := 0 to |parts.keys|
        invariant size + SizeOf(parts.keys[i..], parts.at) == TotalSize(parts)
      {
        assert parts.keys[i] in parts.keys && parts.keys[i..][1..] == parts.keys[i + 1..];
        size := size + |parts.at[parts.keys[i]]|;
      }
    }

    method JoinParts(parts: Parts, count: int) returns (payload: Option<Octets>)
      requires count >= 0
      ensures payload == Join(parts.at, 0, count)
    {
      var joined: Octets := [];
      for index := 0 to count
        invariant Join(parts.at, 0, count) == AppendTo(joined, Join(parts.at, index, count))
      {
        if index !in parts.at {
          return None;
        }
        AppendTwice(joined, parts.at[index], Join(parts.at, index + 1, count));
        joined := joined + parts.at[index];
      }
      assert joined + [] == joined;
      payload := Some(joined);
    }
  }

  function AppendTo(front: Octets, rest: Option<Octets>): Option<Octets> {
    match rest
    case None => None
    case Some(s) => if front == [] then rest else Some(front + s)
  }

  lemma AppendTwice(a: Octets, b: Octets, rest: Option<Octets>)
    ensures rest.Some? ==> AppendTo(a, Some(b + rest.value)) == AppendTo(a + b, rest)
  {
    if rest.Some? {
      assert a + (b + rest.value) == (a + b) + rest.value;
      assert a == [] ==> a + b == b;
      assert b == [] ==> b + rest.value == rest.value;
    }
  }
}
