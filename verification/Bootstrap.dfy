/** Bootstrap packets: version IDs with data-dependent repeats, protocol sync 0x90 and dictionary format 0x93. */
module Bootstrap {
  import opened Results
  import opened Bytes
  import Bits
  import Varint
  import Envelope

  function AsSignedInt32(v: int): int {
    (v + 0x8000_0000) % M32 - 0x8000_0000
  }

  /** The signed cast picks the one representative of v modulo 2^32 in the int32 range. */
  lemma SignedIsRepresentative(v: int)
    ensures -0x8000_0000 <= AsSignedInt32(v) < 0x8000_0000
    ensures AsSignedInt32(v) % M32 == v % M32
    ensures -0x8000_0000 <= v < 0x8000_0000 ==> AsSignedInt32(v) == v
    ensures AsSignedInt32(v % M32) == AsSignedInt32(v)
  {}

  // ---- version IDs --------------------------------------------------------------------

  /** After the words 0 to 3, word 0 is repeated when its bits under these masks are clear. */
  const MASKS := [0x0C, 0x50, 0xA0, 0x900]

  predicate AreWords(words: seq<int>) {
    forall w | w in words :: IsWord(w)
  }

  function Repeat(first: nat, mask: nat): Octets {
    if Bits.And(first, mask) == 0 then Le(first, 4) else []
  }

  function SkipRepeat(first: nat, mask: nat, data: Octets): Result<Octets> {
    if Bits.And(first, mask) != 0 then Ok(data) else
    var again :- TakeLe(data, 4);
    if again.value != first then Err(ValueError) else Ok(again.rest)
  }

  function WriteTail(first: nat, masks: seq<nat>, words: seq<int>): Octets
    requires |words| == |masks| && AreWords(words)
  {
    if masks == [] then [] else
    var w := words[0];
    assert w in words;
    Repeat(first, masks[0]) + (Le(w, 4) + WriteTail(first, masks[1..], words[1..]))
  }

  function ReadTail(first: nat, masks: seq<nat>, data: Octets): Result<Cut<seq<int>>>
    decreases |masks|
  {
    if masks == [] then Ok(Cut([], data)) else
    var rest :- SkipRepeat(first, masks[0], data);
    var word :- TakeLe(rest, 4);
    var more :- ReadTail(first, masks[1..], word.rest);
    Ok(Cut([word.value] + more.value, more.rest))
  }

  /** The five raw words of _write_version_ids. */
  function WriteWords(words: seq<int>): Octets
    requires |words| == 5 && AreWords(words)
  {
    var first := words[0];
    assert first in words;
    Le(first, 4) + WriteTail(first, MASKS, words[1..])
  }

  function ReadWords(data: Octets): Result<Cut<seq<int>>> {
    var first :- TakeLe(data, 4);
    var more :- ReadTail(first.value, MASKS, first.rest);
    Ok(Cut([first.value] + more.value, more.rest))
  }

  lemma {:induction false} SkipInvertsRepeat(first: nat, mask: nat, rest: Octets)
    requires IsWord(first)
    ensures SkipRepeat(first, mask, Repeat(first, mask) + rest) == Ok(rest)
  {
    hide Le, FromLe, Bits.And;
    Pow256Values();
    TakeLeOfConcat(first, 4, rest);
    assert [] + rest == rest;
  }

  lemma {:induction false} ReadInvertsWriteTail(first: nat, masks: seq<nat>, words: seq<int>, suffix: Octets)
    requires IsWord(first) && |words| == |masks| && AreWords(words)
    ensures ReadTail(first, masks, WriteTail(first, masks, words) + suffix) == Ok(Cut(words, suffix))
    decreases |masks|
  {
    hide Le, FromLe, Repeat, SkipRepeat;
    var data := WriteTail(first, masks, words) + suffix;
    if masks == [] {
      assert data == suffix;
    } else {
      var w := words[0];
      assert w in words;
      var rest := WriteTail(first, masks[1..], words[1..]) + suffix;
      assert data == Repeat(first, masks[0]) + (Le(w, 4) + rest);
      SkipInvertsRepeat(first, masks[0], Le(w, 4) + rest);
      Pow256Values();
      TakeLeOfConcat(w, 4, rest);
      ReadInvertsWriteTail(first, masks[1..], words[1..], suffix);
      assert [w] + words[1..] == words;
    }
  }

  lemma {:induction false} TakenLeIsPrefix(data: Octets, n: nat)
    requires TakeLe(data, n).Ok?
    ensures TakeLe(data, n).value.value < Pow256(n)
    ensures data == Le(TakeLe(data, n).value.value, n) + TakeLe(data, n).value.rest
  {
    FromLeThenLe(data[..n]);
    assert data == data[..n] + data[n..];
  }

  lemma {:induction false} WriteInvertsReadTail(first: nat, masks: seq<nat>, data: Octets)
    requires IsWord(first) && ReadTail(first, masks, data).Ok?
    ensures var r := ReadTail(first, masks, data).value;
            && |r.value| == |masks| && AreWords(r.value)
            && data == WriteTail(first, masks, r.value) + r.rest
    decreases |masks|
  {
    hide Le, FromLe, Pow256;
    if masks != [] {
      Pow256Values();
      if Bits.And(first, masks[0]) == 0 { TakenLeIsPrefix(data, 4); }
      var rest := SkipRepeat(first, masks[0], data).value;
      TakenLeIsPrefix(rest, 4);
      var word := TakeLe(rest, 4).value;
      WriteInvertsReadTail(first, masks[1..], word.rest);
      var more := ReadTail(first, masks[1..], word.rest).value;
      assert ([word.value] + more.value)[1..] == more.value;
      assert data == Repeat(first, masks[0]) + rest;
    }
  }

  /**
   * Reading and writing are mutually inverse: a byte string reads as five words exactly when it starts with their
   * writing.
   */
  lemma {:induction false} VersionIdsRoundTrip(data: Octets, words: seq<int>, rest: Octets)
    ensures ReadWords(data) == Ok(Cut(words, rest))
       <==> |words| == 5 && AreWords(words) && data == WriteWords(words) + rest
  {
    hide Le, FromLe, Pow256, ReadTail, WriteTail;
    Pow256Values();
    if |words| == 5 && AreWords(words) && data == WriteWords(words) + rest {
      var first := words[0];
      assert first in words && words == [first] + words[1..];
      var tail := WriteTail(first, MASKS, words[1..]) + rest;
      assert data == Le(first, 4) + tail;
      TakeLeOfConcat(first, 4, tail);
      ReadInvertsWriteTail(first, MASKS, words[1..], rest);
    }
    if ReadWords(data) == Ok(Cut(words, rest)) {
      TakenLeIsPrefix(data, 4);
      var first := TakeLe(data, 4).value;
      WriteInvertsReadTail(first.value, MASKS, first.rest);
      assert words[1..] == ReadTail(first.value, MASKS, first.rest).value.value;
    }
  }

  /** How many repeats a first word calls for. */
  function Repeats(first: nat, masks: seq<nat>): nat {
    if masks == [] then 0 else (if Bits.And(first, masks[0]) == 0 then 1 else 0) + Repeats(first, masks[1..])
  }

  lemma {:induction false} TailLength(first: nat, masks: seq<nat>, words: seq<int>)
    requires |words| == |masks| && AreWords(words)
    ensures |WriteTail(first, masks, words)| == 4 * |masks| + 4 * Repeats(first, masks)
    ensures Repeats(first, masks) <= |masks|
    decreases |masks|
  {
    hide Le;
    if masks != [] { TailLength(first, masks[1..], words[1..]); }
  }

  /** Between 20 and 36 bytes, four more for every mask under which word 0 is clear. */
  lemma {:induction false} VersionIdsLength(words: seq<int>)
    requires |words| == 5 && AreWords(words)
    ensures IsWord(words[0]) && |WriteWords(words)| == 20 + 4 * Repeats(words[0], MASKS)
    ensures 20 <= |WriteWords(words)| <= 36
  {
    hide Le, WriteTail, Repeats;
    var first := words[0];
    assert first in words;
    TailLength(first, MASKS, words[1..]);
  }

  // ---- length-prefixed spans ------------------------------------------------------------

  function TakeVarbytes(data: Octets): Result<Cut<Octets>> {
    var size :- Varint.Lenient(data);
    TakeBytes(size.rest, size.value)
  }

  function Varbytes(s: Octets): Octets {
    Varint.Leb(|s|) + s
  }

  lemma {:induction false} TakeInvertsVarbytes(s: Octets, rest: Octets)
    requires |s| < M64
    ensures TakeVarbytes(Varbytes(s) + rest) == Ok(Cut(s, rest))
  {
    hide Varint.Leb, Varint.Scan;
    assert Varbytes(s) + rest == Varint.Leb(|s|) + (s + rest);
    Varint.ScanInvertsLeb(|s|, s + rest);
    TakeBytesOfConcat(s, rest);
  }

  function VarbytesAll(spans: seq<Octets>): Octets {
    if spans == [] then [] else Varbytes(spans[0]) + VarbytesAll(spans[1..])
  }

  /** A span that has to decode as text. */
  function AsText(r: Result<Cut<Octets>>): Result<Cut<Octets>> {
    if r.Ok? && !Utf8(r.value.value) then Err(ValueError) else r
  }

  function TakeSpans(data: Octets, count: nat): Result<Cut<seq<Octets>>> {
    if count == 0 then Ok(Cut([], data)) else
    var first :- AsText(TakeVarbytes(data));
    var more :- TakeSpans(first.rest, count - 1);
    Ok(Cut([first.value] + more.value, more.rest))
  }

  lemma {:induction false} TakeInvertsSpans(spans: seq<Octets>, rest: Octets)
    requires forall s | s in spans :: |s| < M64 && Utf8(s)
    ensures TakeSpans(VarbytesAll(spans) + rest, |spans|) == Ok(Cut(spans, rest))
  {
    hide Varbytes, TakeVarbytes, Utf8, VarbytesAll;
    if spans == [] {
      SpansNone(spans);
      assert VarbytesAll(spans) + rest == rest;
    } else {
      assert spans[0] in spans;
      var more := VarbytesAll(spans[1..]) + rest;
      SpansStep(spans);
      assert VarbytesAll(spans) + rest == Varbytes(spans[0]) + more;
      TakeInvertsVarbytes(spans[0], more);
      TakeInvertsSpans(spans[1..], rest);
      TakeSpansStep(spans[0], more, |spans|);
      assert [spans[0]] + spans[1..] == spans;
    }
  }

  lemma TakeSpansStep(first: Octets, more: Octets, count: nat)
    requires count > 0 && Utf8(first) && TakeVarbytes(Varbytes(first) + more) == Ok(Cut(first, more))
    ensures TakeSpans(Varbytes(first) + more, count)
         == match TakeSpans(more, count - 1)
            case Err(e) => Err(e)
            case Ok(cut) => Ok(Cut([first] + cut.value, cut.rest))
  {
    hide Varbytes, TakeVarbytes, Utf8;
  }

  // ---- protocol sync ----------------------------------------------------------------------

  const ID_PROTOCOL_SYNC := 0x90

  datatype Sync = Sync(
    int2: int,
    schemaVersion: int,
    int1: int,
    profileByte: int,
    flags: seq<Octets>,
    joinData: Octets,
    versionIds: seq<int>)

  /** The checks that build_protocol_sync makes, all of them raising ValueError. */
  predicate Buildable(x: Sync) {
    && |x.flags| <= 0xFFFF
    && IsByte(x.int2) && IsByte(x.int1) && IsByte(x.profileByte)
    && IsWord(x.schemaVersion)
    && (forall s | s in x.flags :: |s| < M64 && Utf8(s))
    && |x.joinData| < M64
    && |x.versionIds| == 5
  }

  function RawIds(ids: seq<int>): (raw: seq<int>)
    ensures |raw| == |ids| && AreWords(raw)
    ensures forall i | 0 <= i < |ids| :: raw[i] == ids[i] % M32
  {
    seq(|ids|, i requires 0 <= i < |ids| => ids[i] % M32)
  }

  function SignedIds(ids: seq<int>): (signed: seq<int>)
    ensures |signed| == |ids|
    ensures forall i | 0 <= i < |ids| :: signed[i] == AsSignedInt32(ids[i])
  {
    seq(|ids|, i requires 0 <= i < |ids| => AsSignedInt32(ids[i]))
  }

  function SyncTail(x: Sync): Octets
    requires Buildable(x)
  {
    VarbytesAll(x.flags) + (Varbytes(x.joinData) + WriteWords(RawIds(x.versionIds)))
  }

  function SyncHead(x: Sync): (head: Octets)
    requires Buildable(x)
    ensures |head| == 9
  {
    [x.int2] + Le(x.schemaVersion, 4) + [x.int1, x.profileByte] + Le(|x.flags|, 2)
  }

  function SyncBody(x: Sync): Octets
    requires Buildable(x)
  {
    SyncHead(x) + SyncTail(x)
  }

  function BuildSync(c: Envelope.BlockCipher, key: Octets, x: Sync, noise: Octets): Result<Octets>
    requires c.Valid()
  {
    if !Buildable(x) then Err(ValueError) else
    var sealed :- Envelope.Encrypt(c, SyncBody(x), key, noise);
    Ok([ID_PROTOCOL_SYNC] + sealed)
  }

  datatype ParsedSync = ParsedSync(sync: Sync, rawIds: seq<int>)

  function ReadSyncTail(data: Octets, count: nat, head: Sync): Result<ParsedSync> {
    var flags :- TakeSpans(data, count);
    var join :- TakeVarbytes(flags.rest);
    var ids :- ReadWords(join.rest);
    if ids.rest != [] || !Utf8(join.value) then Err(ValueError) else
    Ok(ParsedSync(head.(flags := flags.value, joinData := join.value, versionIds := SignedIds(ids.value)), ids.value))
  }

  function ReadSync(clear: Octets): Result<ParsedSync> {
    if |clear| < 9 then Err(ValueError) else
    ReadSyncTail(clear[9..], FromLe(clear[7..9]), Sync(clear[0], FromLe(clear[1..5]), clear[5], clear[6], [], [], []))
  }

  function ParseSync(c: Envelope.BlockCipher, key: Octets, packet: Octets): Result<ParsedSync>
    requires c.Valid()
  {
    if packet == [] || packet[0] != ID_PROTOCOL_SYNC then Err(ValueError) else
    var clear :- Envelope.Decrypt(c, packet[1..], key);
    ReadSync(clear)
  }

  /** What comes back: the version IDs as signed 32-bit numbers beside their raw words, everything else as it was. */
  function Expected(x: Sync): ParsedSync {
    ParsedSync(x.(versionIds := SignedIds(x.versionIds)), RawIds(x.versionIds))
  }

  lemma {:induction false} ReadInvertsSyncTail(x: Sync, head: Sync)
    requires Buildable(x)
    ensures ReadSyncTail(SyncTail(x), |x.flags|, head)
         == if !Utf8(x.joinData) then Err(ValueError)
            else Ok(ParsedSync(head.(flags := x.flags, joinData := x.joinData, versionIds := SignedIds(x.versionIds)),
                               RawIds(x.versionIds)))
  {
    hide Utf8, Varbytes, TakeVarbytes, VarbytesAll, TakeSpans, WriteWords, ReadWords, AsSignedInt32;
    var raw := RawIds(x.versionIds);
    var ids := WriteWords(raw);
    TakeInvertsSpans(x.flags, Varbytes(x.joinData) + ids);
    TakeInvertsVarbytes(x.joinData, ids);
    assert ids + [] == ids;
    VersionIdsRoundTrip(ids, raw, []);
    forall i | 0 <= i < 5 ensures SignedIds(raw)[i] == SignedIds(x.versionIds)[i] {
      SignedIsRepresentative(x.versionIds[i]);
    }
    assert SignedIds(raw) == SignedIds(x.versionIds);
  }

  lemma {:induction false} ReadInvertsSyncHead(x: Sync, tail: Octets)
    requires Buildable(x)
    ensures var clear := SyncHead(x) + tail;
            && clear[0] == x.int2 && FromLe(clear[1..5]) == x.schemaVersion
            && clear[5] == x.int1 && clear[6] == x.profileByte
            && FromLe(clear[7..9]) == |x.flags| && clear[9..] == tail
  {
    hide Le, FromLe;
    var clear := SyncHead(x) + tail;
    assert clear[1..5] == Le(x.schemaVersion, 4) && clear[7..9] == Le(|x.flags|, 2);
    Pow256Values();
    LeThenFromLe(x.schemaVersion, 4);
    LeThenFromLe(|x.flags|, 2);
  }

  /**
   * A protocol-sync packet that builds parses back to what it was built from, at byte level, through the envelope,
   * exactly when its JoinData is UTF-8: the builder passes raw bytes through that the parser refuses.
   */
  lemma {:induction false} ParseInvertsBuildSync(c: Envelope.BlockCipher, key: Octets, x: Sync, noise: Octets)
    requires c.Valid() && BuildSync(c, key, x, noise).Ok?
    ensures ParseSync(c, key, BuildSync(c, key, x, noise).value)
         == if Utf8(x.joinData) then Ok(Expected(x)) else Err(ValueError)
    ensures (forall v | v in x.versionIds :: -0x8000_0000 <= v < 0x8000_0000) ==> Expected(x).sync == x
  {
    hide Utf8, Le, FromLe, SyncHead, SyncTail, ReadSyncTail, Envelope.Encrypt, Envelope.Decrypt, AsSignedInt32;
    var packet := BuildSync(c, key, x, noise).value;
    assert packet[1..] == Envelope.Encrypt(c, SyncBody(x), key, noise).value;
    Envelope.DecryptInvertsEncrypt(c, SyncBody(x), key, noise);
    ReadInvertsSyncHead(x, SyncTail(x));
    ReadInvertsSyncTail(x, Sync(x.int2, x.schemaVersion, x.int1, x.profileByte, [], [], []));
    if forall v | v in x.versionIds :: -0x8000_0000 <= v < 0x8000_0000 {
      SignedIdsFixed(x.versionIds);
    }
  }

  /** A packet whose JoinData is the single byte 0xFF, which no UTF-8 text contains. */
  const NO_TEXT := Sync(1, 36, 3, 14, [], [0xFF], [0, 0, 0, 0, 0])

  lemma NoTextIsBuildable()
    ensures Buildable(NO_TEXT) && !Utf8(NO_TEXT.joinData)
  {}

  /** That packet is built under every key, and its own parser refuses it. */
  lemma {:induction false} NoTextIsRefused(c: Envelope.BlockCipher, key: Octets, noise: Octets)
    requires c.Valid() && |key| == Envelope.BLOCK
    requires |noise| == Envelope.Padding(|SyncBody(NO_TEXT)|) + 2
    ensures var packet := BuildSync(c, key, NO_TEXT, noise);
            packet.Ok? && ParseSync(c, key, packet.value) == Err(ValueError)
  {
    hide Utf8, SyncBody, Envelope.Encrypt, Envelope.Decrypt, Envelope.Padding, ParseSync;
    NoTextIsBuildable();
    Envelope.DecryptInvertsEncrypt(c, SyncBody(NO_TEXT), key, noise);
    ParseInvertsBuildSync(c, key, NO_TEXT, noise);
  }

  lemma {:induction false} SignedIdsFixed(ids: seq<int>)
    requires forall v | v in ids :: -0x8000_0000 <= v < 0x8000_0000
    ensures SignedIds(ids) == ids
  {
    forall i | 0 <= i < |ids| ensures SignedIds(ids)[i] == ids[i] {
      var v := ids[i];
      assert v in ids;
      SignedIsRepresentative(v);
    }
  }

  // ---- dictionary format --------------------------------------------------------------------

  const ID_DICTIONARY_FORMAT := 0x93

  datatype Entry = Entry(name: Octets, value: Octets)

  datatype Dictionary = Dictionary(flags: int, entries: seq<Entry>)

  function TakeShort(data: Octets): Result<Cut<Octets>> {
    var size :- TakeLe(data, 2);
    TakeBytes(size.rest, size.value)
  }

  function Short(s: Octets): Octets {
    Le(|s|, 2) + s
  }

  predicate EntryFits(e: Entry) {
    |e.name| <= 0xFFFF && |e.value| <= 0xFFFF && Utf8(e.name) && Utf8(e.value)
  }

  predicate Fits(d: Dictionary) {
    && IsByte(d.flags) && |d.entries| <= 0xFFFF
    && forall e | e in d.entries :: EntryFits(e)
  }

  function EntryBytes(entries: seq<Entry>): Octets {
    if entries == [] then [] else Short(entries[0].name) + (Short(entries[0].value) + EntryBytes(entries[1..]))
  }

  function TakeEntries(data: Octets, count: nat): Result<Cut<seq<Entry>>> {
    if count == 0 then Ok(Cut([], data)) else
    var name :- AsText(TakeShort(data));
    var value :- AsText(TakeShort(name.rest));
    var more :- TakeEntries(value.rest, count - 1);
    Ok(Cut([Entry(name.value, value.value)] + more.value, more.rest))
  }

  function BuildDictionary(d: Dictionary): Result<Octets> {
    if !Fits(d) then Err(ValueError)
    else Ok([ID_DICTIONARY_FORMAT, d.flags] + Le(|d.entries|, 2) + EntryBytes(d.entries))
  }

  function ParseDictionary(packet: Octets): Result<Dictionary> {
    if packet == [] || packet[0] != ID_DICTIONARY_FORMAT || |packet| < 2 then Err(ValueError)
    else DictionaryFrom(packet[2..], packet[1])
  }

  function DictionaryFrom(data: Octets, flags: Byte): Result<Dictionary> {
    var count :- TakeLe(data, 2);
    var entries :- TakeEntries(count.rest, count.value);
    if entries.rest != [] then Err(ValueError) else Ok(Dictionary(flags, entries.value))
  }

  lemma {:induction false} ShortRoundTrip(data: Octets, s: Octets, rest: Octets)
    ensures TakeShort(data) == Ok(Cut(s, rest)) <==> |s| <= 0xFFFF && data == Short(s) + rest
  {
    hide Le, FromLe, Pow256;
    Pow256Values();
    if |s| <= 0xFFFF && data == Short(s) + rest {
      assert data == Le(|s|, 2) + (s + rest);
      TakeLeOfConcat(|s|, 2, s + rest);
      TakeBytesOfConcat(s, rest);
    }
    if TakeShort(data) == Ok(Cut(s, rest)) {
      TakenLeIsPrefix(data, 2);
      var size := TakeLe(data, 2).value;
      assert size.rest == s + rest by { assert size.rest == size.rest[..size.value] + size.rest[size.value..]; }
    }
  }

  lemma {:induction false} EntriesRoundTrip(data: Octets, count: nat, entries: seq<Entry>, rest: Octets)
    ensures TakeEntries(data, count) == Ok(Cut(entries, rest))
       <==> && |entries| == count && data == EntryBytes(entries) + rest
            && forall e | e in entries :: EntryFits(e)
    decreases count
  {
    hide Short, TakeShort, Utf8;
    if count == 0 {
      assert entries == [] ==> EntryBytes(entries) + rest == rest;
    } else {
      if TakeEntries(data, count) == Ok(Cut(entries, rest)) {
        var name := TakeShort(data).value;
        var value := TakeShort(name.rest).value;
        ShortRoundTrip(data, name.value, name.rest);
        ShortRoundTrip(name.rest, value.value, value.rest);
        EntriesRoundTrip(value.rest, count - 1, entries[1..], rest);
        assert entries == [Entry(name.value, value.value)] + entries[1..];
      }
      if |entries| == count && data == EntryBytes(entries) + rest
         && forall e | e in entries :: EntryFits(e) {
        var e, tail := entries[0], EntryBytes(entries[1..]) + rest;
        assert e in entries && entries == [e] + entries[1..];
        assert data == Short(e.name) + (Short(e.value) + tail);
        ShortRoundTrip(data, e.name, Short(e.value) + tail);
        ShortRoundTrip(Short(e.value) + tail, e.value, tail);
        EntriesRoundTrip(tail, count - 1, entries[1..], rest);
      }
    }
  }

  /** Dictionary packets and dictionaries correspond one to one: parsing accepts exactly what building emits. */
  lemma {:induction false} DictionaryRoundTrip(packet: Octets, d: Dictionary)
    ensures ParseDictionary(packet) == Ok(d) <==> BuildDictionary(d) == Ok(packet)
  {
    hide Le, FromLe, Pow256, EntryBytes, TakeEntries, EntryFits;
    Pow256Values();
    if BuildDictionary(d) == Ok(packet) {
      var body := EntryBytes(d.entries);
      assert packet[2..] == Le(|d.entries|, 2) + body;
      TakeLeOfConcat(|d.entries|, 2, body);
      assert body + [] == body;
      EntriesRoundTrip(body, |d.entries|, d.entries, []);
    }
    if ParseDictionary(packet) == Ok(d) {
      TakenLeIsPrefix(packet[2..], 2);
      var count := TakeLe(packet[2..], 2).value;
      EntriesRoundTrip(count.rest, count.value, d.entries, []);
      assert count.rest == EntryBytes(d.entries);
      assert packet == [packet[0], packet[1]] + packet[2..];
      assert packet == [ID_DICTIONARY_FORMAT, d.flags] + Le(|d.entries|, 2) + EntryBytes(d.entries);
    }
  }

  // ---- the reader --------------------------------------------------------------------------

  /** _Reader: a byte string and an offset that only moves forward. */
  class Reader {
    const data: Octets
    var offset: nat

    ghost predicate Valid()
      reads this
    {
      offset <= |data|
    }

    ghost function Rest(): Octets
      reads this
      requires Valid()
    {
      data[offset..]
    }

    constructor (data: Octets)
      ensures Valid() && Rest() == data && this.data == data
    {
      this.data, offset := data, 0;
    }

    method Take(length: nat) returns (r: Result<Octets>)
      requires Valid()
      modifies this
      ensures Valid()
      ensures match TakeBytes(old(Rest()), length)
              case Err(e) => r == Err(e) && Rest() == old(Rest())
              case Ok(cut) => r == Ok(cut.value) && Rest() == cut.rest
    {
      if offset + length > |data| {
        return Err(ValueError);
      }
      r := Ok(data[offset..][..length]);
      assert data[offset..][length..] == data[offset + length..];
      offset := offset + length;
    }

    /** u8, u16le and u32le: a little-endian number of the given width. */
    method Number(width: nat) returns (r: Result<nat>)
      requires Valid()
      modifies this
      ensures Valid()
      ensures match TakeLe(old(Rest()), width)
              case Err(e) => r == Err(e) && Rest() == old(Rest())
              case Ok(cut) => r == Ok(cut.value) && Rest() == cut.rest
    {
      var bytes := Take(width);
      r := if bytes.Ok? then Ok(FromLe(bytes.value)) else Err(bytes.error);
    }

    method Varuint() returns (r: Result<nat>)
      requires Valid()
      modifies this
      ensures Valid()
      ensures match Varint.Lenient(old(Rest()))
              case Err(e) => r == Err(e)
              case Ok(cut) => r == Ok(cut.value) && Rest() == cut.rest
    {
      hide Varint.Scan;
      var read := Varint.ScanGroups(data, offset);
      if read.Err? {
        return Err(read.error);
      }
      r := Ok(read.value.value);
      offset := |data| - |read.value.rest|;
    }

    method VarSpan() returns (r: Result<Octets>)
      requires Valid()
      modifies this
      ensures Valid()
      ensures match TakeVarbytes(old(Rest()))
              case Err(e) => r == Err(e)
              case Ok(cut) => r == Ok(cut.value) && Rest() == cut.rest
    {
      hide Varint.Scan;
      var size := Varuint();
      if size.Err? {
        return Err(size.error);
      }
      r := Take(size.value);
    }

    method ShortSpan() returns (r: Result<Octets>)
      requires Valid()
      modifies this
      ensures Valid()
      ensures match TakeShort(old(Rest()))
              case Err(e) => r == Err(e)
              case Ok(cut) => r == Ok(cut.value) && Rest() == cut.rest
    {
      var size := Number(2);
      if size.Err? {
        return Err(size.error);
      }
      r := Take(size.value);
    }
  }

  // ---- the parsers, as they run ----------------------------------------------------------------

  /** A repeat of word 0 where the mask calls for one, and the next word. */
  function ReadWord(first: nat, mask: nat, data: Octets): Result<Cut<nat>> {
    var rest :- SkipRepeat(first, mask, data);
    TakeLe(rest, 4)
  }

  lemma ReadTailStep(first: nat, masks: seq<nat>, data: Octets)
    requires masks != []
    ensures ReadTail(first, masks, data)
         == match ReadWord(first, masks[0], data)
            case Err(e) => Err(e)
            case Ok(word) =>
              match ReadTail(first, masks[1..], word.rest)
              case Err(e) => Err(e)
              case Ok(more) => Ok(Cut([word.value] + more.value, more.rest))
  {
    hide Bits.And, FromLe;
  }

  method ReadWordFrom(reader: Reader, first: nat, mask: nat) returns (r: Result<nat>)
    requires reader.Valid()
    modifies reader
    ensures reader.Valid()
    ensures match ReadWord(first, mask, old(reader.Rest()))
            case Err(e) => r == Err(e)
            case Ok(cut) => r == Ok(cut.value) && reader.Rest() == cut.rest
  {
    hide Bits.And, FromLe;
    if Bits.And(first, mask) == 0 {
      var again := reader.Number(4);
      if again.Err? {
        return Err(again.error);
      }
      if again.value != first {
        return Err(ValueError);
      }
    }
    r := reader.Number(4);
  }

  /** _read_version_ids. */
  method ReadVersionIds(reader: Reader) returns (r: Result<seq<int>>)
    requires reader.Valid()
    modifies reader
    ensures reader.Valid()
    ensures match ReadWords(old(reader.Rest()))
            case Err(e) => r == Err(e)
            case Ok(cut) => r == Ok(cut.value) && reader.Rest() == cut.rest
  {
    hide ReadWord, ReadTail, FromLe;
    var first := reader.Number(4);
    if first.Err? {
      return Err(first.error);
    }
    ghost var d0 := reader.Rest();
    ReadTailStep(first.value, MASKS, d0);
    var second := ReadWordFrom(reader, first.value, 0x0C);
    if second.Err? {
      return Err(second.error);
    }
    ReadTailStep(first.value, MASKS[1..], reader.Rest());
    var third := ReadWordFrom(reader, first.value, 0x50);
    if third.Err? {
      return Err(third.error);
    }
    ReadTailStep(first.value, MASKS[1..][1..], reader.Rest());
    var fourth := ReadWordFrom(reader, first.value, 0xA0);
    if fourth.Err? {
      return Err(fourth.error);
    }
    ReadTailStep(first.value, MASKS[1..][1..][1..], reader.Rest());
    var fifth := ReadWordFrom(reader, first.value, 0x900);
    if fifth.Err? {
      return Err(fifth.error);
    }
    ReadTailNone(first.value, MASKS[1..][1..][1..][1..], reader.Rest());
    assert [second.value as int] + ([third.value as int] + ([fourth.value as int] + ([fifth.value as int] + [])))
        == [second.value, third.value, fourth.value, fifth.value];
    r := Ok([first.value as int] + [second.value, third.value, fourth.value, fifth.value]);
  }

  lemma ReadTailNone(first: nat, masks: seq<nat>, data: Octets)
    requires masks == []
    ensures ReadTail(first, masks, data) == Ok(Cut([], data))
  {}

  method ReadEntriesFrom(reader: Reader, count: nat) returns (r: Result<seq<Entry>>)
    requires reader.Valid()
    modifies reader
    ensures reader.Valid()
    ensures match TakeEntries(old(reader.Rest()), count)
            case Err(e) => r == Err(e)
            case Ok(cut) => r == Ok(cut.value) && reader.Rest() == cut.rest
  {
    hide TakeShort, Utf8;
    var entries: seq<Entry> := [];
    for i := 0 to count
      invariant reader.Valid()
      invariant TakeEntries(old(reader.Rest()), count) == PrependCut(entries, TakeEntries(reader.Rest(), count - i))
    {
      var name := reader.ShortSpan();
      if name.Err? {
        return Err(name.error);
      }
      if !Utf8(name.value) {
        return Err(ValueError);
      }
      var value := reader.ShortSpan();
      if value.Err? {
        return Err(value.error);
      }
      if !Utf8(value.value) {
        return Err(ValueError);
      }
      PrependCutTwice(entries, [Entry(name.value, value.value)], TakeEntries(reader.Rest(), count - i - 1));
      entries := entries + [Entry(name.value, value.value)];
    }
    assert entries + [] == entries;
    r := Ok(entries);
  }

  method ParseDictionaryFormat(packet: Octets) returns (r: Result<Dictionary>)
    ensures r == ParseDictionary(packet)
  {
    hide *;
    DictionaryBehindFlags(packet);
    if packet == [] || packet[0] != ID_DICTIONARY_FORMAT {
      return Err(ValueError);
    }
    var reader := new Reader(packet[1..]);
    var flags := reader.Take(1);
    if flags.Err? {
      return Err(flags.error);
    }
    r := ReadDictionaryFields(reader, flags.value[0]);
  }

  lemma DictionaryBehindFlags(packet: Octets)
    ensures packet == [] || packet[0] != ID_DICTIONARY_FORMAT ==> ParseDictionary(packet) == Err(ValueError)
    ensures packet != [] && packet[0] == ID_DICTIONARY_FORMAT ==>
              match TakeBytes(packet[1..], 1)
              case Err(e) => ParseDictionary(packet) == Err(e)
              case Ok(flags) =>
                |flags.value| == 1 && ParseDictionary(packet) == DictionaryFrom(flags.rest, flags.value[0])
  {
    hide DictionaryFrom;
    if |packet| >= 2 {
      assert packet[1..][1..] == packet[2..] && packet[1..][..1] == [packet[1]];
    }
  }

  /** The entry count and the entries, up to the end of the packet. */
  method ReadDictionaryFields(reader: Reader, flags: Byte) returns (r: Result<Dictionary>)
    requires reader.Valid()
    modifies reader
    ensures r == DictionaryFrom(old(reader.Rest()), flags)
  {
    hide FromLe, TakeLe, TakeEntries;
    var count := reader.Number(2);
    if count.Err? {
      return Err(count.error);
    }
    var entries := ReadEntriesFrom(reader, count.value);
    if entries.Err? {
      return Err(entries.error);
    }
    if reader.offset != |reader.data| {
      return Err(ValueError);
    }
    r := Ok(Dictionary(flags, entries.value));
  }

  /** The list of requested flags in a protocol-sync packet. */
  method ReadSpansFrom(reader: Reader, count: nat) returns (r: Result<seq<Octets>>)
    requires reader.Valid()
    modifies reader
    ensures reader.Valid()
    ensures match TakeSpans(old(reader.Rest()), count)
            case Err(e) => r == Err(e)
            case Ok(cut) => r == Ok(cut.value) && reader.Rest() == cut.rest
  {
    hide TakeVarbytes, Utf8;
    var spans: seq<Octets> := [];
    for i := 0 to count
      invariant reader.Valid()
      invariant TakeSpans(old(reader.Rest()), count) == PrependCut(spans, TakeSpans(reader.Rest(), count - i))
    {
      var span := reader.VarSpan();
      if span.Err? {
        return Err(span.error);
      }
      if !Utf8(span.value) {
        return Err(ValueError);
      }
      PrependCutTwice(spans, [span.value], TakeSpans(reader.Rest(), count - i - 1));
      spans := spans + [span.value];
    }
    assert spans + [] == spans;
    r := Ok(spans);
  }

  /** The flags, the JoinData and the version IDs, up to the end of the packet. */
  method ReadSyncFields(reader: Reader, count: nat, head: Sync) returns (r: Result<ParsedSync>)
    requires reader.Valid()
    modifies reader
    ensures r == ReadSyncTail(old(reader.Rest()), count, head)
  {
    hide FromLe, TakeSpans, TakeVarbytes, ReadWords, SignedIds, Utf8;
    var flags := ReadSpansFrom(reader, count);
    if flags.Err? {
      return Err(flags.error);
    }
    var join := reader.VarSpan();
    if join.Err? {
      return Err(join.error);
    }
    var ids := ReadVersionIds(reader);
    if ids.Err? {
      return Err(ids.error);
    }
    if reader.offset != |reader.data| || !Utf8(join.value) {
      return Err(ValueError);
    }
    r := Ok(ParsedSync(
      head.(flags := flags.value, joinData := join.value, versionIds := SignedIds(ids.value)), ids.value));
  }

  method ParseSyncBody(clear: Octets) returns (r: Result<ParsedSync>)
    ensures r == ReadSync(clear)
  {
    hide *;
    SyncBehindHead(clear);
    if |clear| < 9 {
      return Err(ValueError);
    }
    var reader := new Reader(clear);
    var taken := reader.Take(9);
    var head := taken.value;
    r := ReadSyncFields(reader, FromLe(head[7..9]), Sync(head[0], FromLe(head[1..5]), head[5], head[6], [], [], []));
  }

  lemma SyncBehindHead(clear: Octets)
    ensures |clear| < 9 ==> ReadSync(clear) == Err(ValueError)
    ensures |clear| >= 9 ==>
              && TakeBytes(clear, 9) == Ok(Cut(clear[..9], clear[9..]))
              && var head := clear[..9];
              ReadSync(clear)
              == ReadSyncTail(clear[9..], FromLe(head[7..9]),
                              Sync(head[0], FromLe(head[1..5]), head[5], head[6], [], [], []))
  {
    hide FromLe, ReadSyncTail;
    if |clear| >= 9 {
      assert clear[..9][1..5] == clear[1..5] && clear[..9][7..9] == clear[7..9];
    }
  }

  // ---- the builders, as they run ---------------------------------------------------------------

  lemma WriteTailStep(first: nat, masks: seq<nat>, words: seq<int>)
    requires |words| == |masks| && AreWords(words) && masks != []
    ensures words[0] in words && IsWord(words[0]) && AreWords(words[1..])
    ensures WriteTail(first, masks, words)
         == Repeat(first, masks[0]) + (Le(words[0], 4) + WriteTail(first, masks[1..], words[1..]))
  {
    hide Repeat, Le;
    assert words[0] in words;
  }

  /** One more word: the repeat of word 0 where the mask calls for one, then the word. */
  method WriteWordTo(out: Octets, first: nat, mask: nat, word: nat) returns (r: Octets)
    ensures r == out + (Repeat(first, mask) + Le(word, 4))
  {
    hide Le, Bits.And;
    r := out;
    if Bits.And(first, mask) == 0 {
      r := r + Le(first, 4);
    }
    r := r + Le(word, 4);
  }

  /** _write_version_ids: five words cut to 32 bits. */
  method WriteVersionIds(ids: seq<int>) returns (r: Result<Octets>)
    ensures r == if |ids| != 5 then Err(ValueError) else Ok(WriteWords(RawIds(ids)))
  {
    hide Repeat, Le, WriteTail;
    if |ids| != 5 {
      return Err(ValueError);
    }
    var raw := RawIds(ids);
    var first := raw[0];
    assert forall i | 0 <= i < 5 :: IsWord(raw[i]) by { assert forall i | 0 <= i < 5 :: raw[i] in raw; }
    var out := Le(first, 4);
    out := WriteWordTo(out, first, 0x0C, raw[1]);
    out := WriteWordTo(out, first, 0x50, raw[2]);
    out := WriteWordTo(out, first, 0xA0, raw[3]);
    out := WriteWordTo(out, first, 0x900, raw[4]);
    WordsFromLeft(raw);
    r := Ok(out);
  }

  lemma WordsFromLeft(raw: seq<int>)
    requires |raw| == 5 && AreWords(raw)
    ensures IsWord(raw[0]) && IsWord(raw[1]) && IsWord(raw[2]) && IsWord(raw[3]) && IsWord(raw[4])
    ensures WriteWords(raw)
         == Le(raw[0], 4) + (Repeat(raw[0], 0x0C) + Le(raw[1], 4)) + (Repeat(raw[0], 0x50) + Le(raw[2], 4))
            + (Repeat(raw[0], 0xA0) + Le(raw[3], 4)) + (Repeat(raw[0], 0x900) + Le(raw[4], 4))
  {
    hide Repeat, Le, WriteTail;
    assert raw[0] in raw;
    var (first, w1, m1) := (raw[0], raw[1..], MASKS[1..]);
    var (w2, m2) := (w1[1..], m1[1..]);
    var (w3, m3) := (w2[1..], m2[1..]);
    var (w4, m4) := (w3[1..], m3[1..]);
    WriteTailStep(first, MASKS, w1);
    WriteTailStep(first, m1, w2);
    WriteTailStep(first, m2, w3);
    WriteTailStep(first, m3, w4);
    WriteTailNone(first, m4, w4[1..]);
    var p0 := Le(first, 4);
    var p1 := p0 + (Repeat(first, 0x0C) + Le(raw[1], 4));
    var p2 := p1 + (Repeat(first, 0x50) + Le(raw[2], 4));
    var p3 := p2 + (Repeat(first, 0xA0) + Le(raw[3], 4));
    JoinFour(p0, Repeat(first, 0x0C), Le(raw[1], 4), WriteTail(first, m1, w2));
    JoinFour(p1, Repeat(first, 0x50), Le(raw[2], 4), WriteTail(first, m2, w3));
    JoinFour(p2, Repeat(first, 0xA0), Le(raw[3], 4), WriteTail(first, m3, w4));
    JoinFour(p3, Repeat(first, 0x900), Le(raw[4], 4), []);
  }

  lemma WriteTailNone(first: nat, masks: seq<nat>, words: seq<int>)
    requires masks == [] && words == []
    ensures WriteTail(first, masks, words) == []
  {}

  lemma JoinFour(a: Octets, b: Octets, c: Octets, d: Octets)
    ensures a + (b + (c + d)) == a + (b + c) + d
  {}

  method BuildDictionaryFormat(d: Dictionary) returns (r: Result<Octets>)
    ensures r == BuildDictionary(d)
  {
    hide EntryBytes, Le, Utf8;
    for i := 0 to |d.entries|
      invariant forall j | 0 <= j < i :: EntryFits(d.entries[j])
    {
      if !EntryFits(d.entries[i]) {
        assert d.entries[i] in d.entries;
        return Err(ValueError);
      }
    }
    forall e | e in d.entries ensures EntryFits(e) {
      var j :| 0 <= j < |d.entries| && d.entries[j] == e;
    }
    if |d.entries| > 0xFFFF || !IsByte(d.flags) {
      return Err(ValueError);
    }
    var out: Octets := [ID_DICTIONARY_FORMAT, d.flags] + Le(|d.entries|, 2);
    ghost var whole := out + EntryBytes(d.entries);
    assert d.entries[0..] == d.entries;
    for i := 0 to |d.entries|
      invariant out + EntryBytes(d.entries[i..]) == whole
    {
      EntryBytesStep(d.entries[i..]);
      assert d.entries[i..][1..] == d.entries[i + 1..];
      JoinFour(out, Short(d.entries[i].name), Short(d.entries[i].value), EntryBytes(d.entries[i + 1..]));
      out := out + (Short(d.entries[i].name) + Short(d.entries[i].value));
    }
    EntryBytesNone(d.entries[|d.entries|..]);
    assert out + [] == out;
    r := Ok(out);
  }

  lemma EntryBytesStep(entries: seq<Entry>)
    requires entries != []
    ensures EntryBytes(entries) == Short(entries[0].name) + (Short(entries[0].value) + EntryBytes(entries[1..]))
  {}

  lemma EntryBytesNone(entries: seq<Entry>)
    requires entries == []
    ensures EntryBytes(entries) == []
  {}

  /** encode_varbytes, given the encoded text. */
  method EncodeVarbytes(s: Octets) returns (r: Result<Octets>)
    ensures r == if |s| < M64 then Ok(Varbytes(s)) else Err(ValueError)
  {
    hide Varint.Leb;
    var size := Varint.BootstrapEncode(|s|);
    r := if size.Err? then Err(size.error) else Ok(size.value + s);
  }

  /** The flag loop of build_protocol_sync. */
  method AppendSpans(start: Octets, spans: seq<Octets>) returns (r: Result<Octets>)
    ensures r == if forall s | s in spans :: |s| < M64 && Utf8(s) then Ok(start + VarbytesAll(spans))
                 else Err(ValueError)
  {
    hide VarbytesAll, Varbytes, Utf8;
    var out := start;
    assert spans[0..] == spans;
    for i := 0 to |spans|
      invariant forall j | 0 <= j < i :: |spans[j]| < M64 && Utf8(spans[j])
      invariant out + VarbytesAll(spans[i..]) == start + VarbytesAll(spans)
    {
      var span := EncodeVarbytes(spans[i]);
      if span.Err? || !Utf8(spans[i]) {
        assert spans[i] in spans;
        return Err(ValueError);
      }
      SpansStep(spans[i..]);
      assert spans[i..][1..] == spans[i + 1..];
      assert out + (span.value + VarbytesAll(spans[i + 1..])) == (out + span.value) + VarbytesAll(spans[i + 1..]);
      out := out + span.value;
    }
    SpansNone(spans[|spans|..]);
    assert out + [] == out;
    forall s | s in spans ensures |s| < M64 && Utf8(s) {
      var j :| 0 <= j < |spans| && spans[j] == s;
    }
    r := Ok(out);
  }

  lemma SpansStep(spans: seq<Octets>)
    requires spans != []
    ensures VarbytesAll(spans) == Varbytes(spans[0]) + VarbytesAll(spans[1..])
  {}

  lemma SpansNone(spans: seq<Octets>)
    requires spans == []
    ensures VarbytesAll(spans) == []
  {}

  method BuildProtocolSync(c: Envelope.BlockCipher, key: Octets, x: Sync, noise: Octets) returns (r: Result<Octets>)
    requires c.Valid()
    ensures r == BuildSync(c, key, x, noise)
  {
    hide VarbytesAll, Varbytes, Le, WriteWords, Envelope.Encrypt, Utf8;
    if |x.flags| > 0xFFFF || !IsByte(x.int2) || !IsByte(x.int1) || !IsByte(x.profileByte) || !IsWord(x.schemaVersion) {
      return Err(ValueError);
    }
    var clear: Octets := [x.int2] + Le(x.schemaVersion, 4) + [x.int1, x.profileByte] + Le(|x.flags|, 2);
    ghost var head := clear;
    var flagged := AppendSpans(clear, x.flags);
    if flagged.Err? {
      return Err(flagged.error);
    }
    var join := EncodeVarbytes(x.joinData);
    if join.Err? {
      return Err(join.error);
    }
    var ids := WriteVersionIds(x.versionIds);
    if ids.Err? {
      return Err(ids.error);
    }
    JoinFour(head, VarbytesAll(x.flags), join.value + ids.value, []);
    clear := flagged.value + join.value + ids.value;
    assert clear == SyncBody(x);
    var sealed := Envelope.EncryptApplicationEnvelope(c, clear, key, noise);
    if sealed.Err? {
      return Err(sealed.error);
    }
    r := Ok([ID_PROTOCOL_SYNC] + sealed.value);
  }
}
