/**
 * The bytes of the bootstrap packets: which repeats the version IDs contain, and where the fields of 0x90 and 0x93
 * are.
 */
module BootstrapLayout {
  import opened Results
  import opened Bytes
  import opened Bootstrap
  import Bits
  import Envelope
  import Varint

  // ---- masks --------------------------------------------------------------------------------

  lemma AndStep(a: nat, b: nat)
    ensures Bits.And(a, b) == a % 2 * (b % 2) + 2 * Bits.And(a / 2, b / 2)
  {}

  lemma {:induction false} AndNone(a: nat)
    ensures Bits.And(a, 0) == 0
  {
    if a != 0 { AndNone(a / 2); }
  }

  lemma AndDoubled(a: nat, b: nat)
    ensures Bits.And(a, 2 * b) == 2 * Bits.And(a / 2, b)
  {
    hide Bits.And;
    AndStep(a, 2 * b);
    assert 2 * b % 2 == 0 && 2 * b / 2 == b;
  }

  lemma AndFour(a: nat, b: nat)
    ensures Bits.And(a, 4 * b) == 4 * Bits.And(a / 4, b)
  {
    hide Bits.And;
    AndDoubled(a, 2 * b);
    AndDoubled(a / 2, b);
    assert a / 2 / 2 == a / 4;
  }

  lemma AndSixteen(a: nat, b: nat)
    ensures Bits.And(a, 16 * b) == 16 * Bits.And(a / 16, b)
  {
    hide Bits.And;
    AndFour(a, 4 * b);
    AndFour(a / 4, b);
    assert a / 4 / 4 == a / 16;
  }

  lemma AndOne(a: nat)
    ensures Bits.And(a, 1) == a % 2
  {
    hide Bits.And;
    AndStep(a, 1);
    AndNone(a / 2);
  }

  /** Masks of two bits: the lowest and the next, the second next, the third next. */
  lemma AndPairs(a: nat)
    ensures Bits.And(a, 3) == a % 2 + 2 * (a / 2 % 2)
    ensures Bits.And(a, 5) == a % 2 + 4 * (a / 4 % 2)
    ensures Bits.And(a, 9) == a % 2 + 8 * (a / 8 % 2)
  {
    hide Bits.And;
    AndStep(a, 3);
    AndOne(a / 2);
    AndStep(a, 5);
    AndDoubled(a / 2, 1);
    AndOne(a / 4);
    AndStep(a, 9);
    AndFour(a / 2, 1);
    AndOne(a / 8);
    assert a / 2 / 2 == a / 4 && a / 2 / 4 == a / 8;
  }

  /** Which two bits of word 0 each mask looks at: 2 and 3, 4 and 6, 5 and 7, 8 and 11. */
  lemma MasksLookAt(w: nat)
    ensures Bits.And(w, 0x0C) == 0 <==> w / 4 % 2 == 0 && w / 8 % 2 == 0
    ensures Bits.And(w, 0x50) == 0 <==> w / 16 % 2 == 0 && w / 64 % 2 == 0
    ensures Bits.And(w, 0xA0) == 0 <==> w / 32 % 2 == 0 && w / 128 % 2 == 0
    ensures Bits.And(w, 0x900) == 0 <==> w / 256 % 2 == 0 && w / 2048 % 2 == 0
  {
    hide Bits.And;
    AndFour(w, 3);
    AndPairs(w / 4);
    AndSixteen(w, 5);
    AndPairs(w / 16);
    AndDoubled(w, 0x50);
    AndSixteen(w / 2, 5);
    AndPairs(w / 32);
    AndSixteen(w, 0x90);
    AndSixteen(w / 16, 9);
    AndPairs(w / 256);
    assert w / 4 / 2 == w / 8 && w / 16 / 4 == w / 64 && w / 2 / 16 == w / 32 && w / 32 / 4 == w / 128;
    assert w / 16 / 16 == w / 256 && w / 256 / 8 == w / 2048;
  }

  // ---- version IDs --------------------------------------------------------------------------

  /** A word, lowest byte first. */
  function Four(w: nat): Octets {
    [w % 256, w / 0x100 % 256, w / 0x1_0000 % 256, w / 0x100_0000 % 256]
  }

  /** The first word once more, unless bit `low` or bit `high` of it, given by their weights, is set. */
  function Again(w: nat, low: nat, high: nat): Octets
    requires low > 0 && high > 0
  {
    if w / low % 2 == 0 && w / high % 2 == 0 then Four(w) else []
  }

  lemma RepeatIsAgain(w: nat)
    ensures Repeat(w, 0x0C) == Again(w, 4, 8)
    ensures Repeat(w, 0x50) == Again(w, 16, 64)
    ensures Repeat(w, 0xA0) == Again(w, 32, 128)
    ensures Repeat(w, 0x900) == Again(w, 256, 2048)
  {
    hide Bits.And, Le;
    MasksLookAt(w);
    FourBytes(w);
  }

  lemma TailStep(first: nat, masks: seq<nat>, words: seq<int>)
    requires |words| == |masks| > 0 && AreWords(words)
    ensures IsWord(words[0]) && AreWords(words[1..])
    ensures WriteTail(first, masks, words)
         == Repeat(first, masks[0]) + (Four(words[0]) + WriteTail(first, masks[1..], words[1..]))
  {
    hide Repeat, Le;
    assert words[0] in words;
    FourBytes(words[0]);
  }

  lemma TailNone(first: nat, words: seq<int>)
    requires |words| == 0
    ensures WriteTail(first, [], words) == []
  {}

  lemma FirstStep(words: seq<int>)
    requires |words| == 5 && AreWords(words)
    ensures IsWord(words[0]) && AreWords(words[1..])
    ensures WriteWords(words) == Four(words[0]) + WriteTail(words[0], [0x0C, 0x50, 0xA0, 0x900], words[1..])
  {
    hide Repeat, Le, WriteTail;
    assert words[0] in words;
    FourBytes(words[0]);
  }

  /** The five words in order; word 0 again behind words 0 to 3, each time two of its bits are both clear. */
  lemma {:induction false} VersionIdsLayout(a: nat, b: nat, c: nat, d: nat, e: nat)
    requires a < M32 && b < M32 && c < M32 && d < M32 && e < M32
    ensures AreWords([a, b, c, d, e])
    ensures WriteWords([a, b, c, d, e])
         == Four(a) + (Again(a, 4, 8) + (Four(b) + (Again(a, 16, 64) + (Four(c)
            + (Again(a, 32, 128) + (Four(d) + (Again(a, 256, 2048) + Four(e))))))))
  {
    hide WriteTail, WriteWords, Four, Again, Repeat;
    var masks := [0x0C, 0x50, 0xA0, 0x900];
    assert [a, b, c, d, e][1..] == [b, c, d, e] && [b, c, d, e][1..] == [c, d, e] && [c, d, e][1..] == [d, e];
    assert [d, e][1..] == [e] && [e][1..] == [];
    assert masks[1..] == [0x50, 0xA0, 0x900] && masks[1..][1..] == [0xA0, 0x900] && masks[1..][1..][1..] == [0x900];
    assert masks[1..][1..][1..][1..] == [];
    FirstStep([a, b, c, d, e]);
    TailStep(a, masks, [b, c, d, e]);
    TailStep(a, [0x50, 0xA0, 0x900], [c, d, e]);
    TailStep(a, [0xA0, 0x900], [d, e]);
    TailStep(a, [0x900], [e]);
    TailNone(a, []);
    RepeatIsAgain(a);
    assert Four(e) + [] == Four(e);
  }

  // ---- protocol sync ------------------------------------------------------------------------

  /** The clear bytes of 0x90: nine fixed bytes, the flags, JoinData and the version IDs. */
  lemma {:induction false} SyncLayout(x: Sync)
    requires Buildable(x)
    ensures var (b, n) := (SyncBody(x), |x.flags|);
            && |b| >= 9 && b[0] == x.int2 && b[1..5] == Four(x.schemaVersion) && b[5] == x.int1 && b[6] == x.profileByte
            && b[7] == n % 256 && b[8] == n / 256
            && b[9..] == VarbytesAll(x.flags) + (Varbytes(x.joinData) + WriteWords(RawIds(x.versionIds)))
  {
    hide Le, VarbytesAll, Varbytes, WriteWords;
    FourBytes(x.schemaVersion);
    TwoBytes(|x.flags|);
    var b := SyncBody(x);
    assert b == SyncHead(x) + SyncTail(x);
    assert b[9..] == SyncTail(x);
    assert b[1..5] == Le(x.schemaVersion, 4);
  }

  /** The packet is 0x90 and the envelope of those bytes. */
  lemma SyncPacket(c: Envelope.BlockCipher, key: Octets, x: Sync, noise: Octets)
    requires c.Valid()
    ensures BuildSync(c, key, x, noise)
         == if !Buildable(x) || Envelope.Encrypt(c, SyncBody(x), key, noise).Err? then Err(ValueError)
            else Ok([0x90] + Envelope.Encrypt(c, SyncBody(x), key, noise).value)
  {
    hide Envelope.Shuffle, Envelope.CbcEncrypt, Envelope.Clear;
  }

  /** Which fields are accepted. */
  lemma BuildableMeans(x: Sync)
    ensures Buildable(x) <==>
              && |x.flags| < 0x1_0000 && 0 <= x.int2 < 0x100 && 0 <= x.int1 < 0x100 && 0 <= x.profileByte < 0x100
              && 0 <= x.schemaVersion < 0x1_0000_0000 && |x.versionIds| == 5
              && |x.joinData| < 0x1_0000_0000_0000_0000
              && forall s | s in x.flags :: |s| < 0x1_0000_0000_0000_0000 && Utf8(s)
  {
    hide Utf8;
  }

  /** Bytes behind the version IDs make the packet unreadable. */
  lemma {:induction false} SyncTrailing(x: Sync, extra: Octets)
    requires Buildable(x) && extra != []
    ensures ReadSync(SyncBody(x) + extra) == Err(ValueError)
  {
    hide Le, FromLe, VarbytesAll, Varbytes, WriteWords, Utf8, TakeSpans, TakeVarbytes, ReadWords, Buildable, SyncHead,
         RawIds, ReadSyncTail;
    BuildableMeans(x);
    var (body, words) := (SyncBody(x) + extra, WriteWords(RawIds(x.versionIds)));
    var join := Varbytes(x.joinData) + (words + extra);
    assert body == SyncHead(x) + (SyncTail(x) + extra);
    assert SyncTail(x) + extra == VarbytesAll(x.flags) + join;
    ReadInvertsSyncHead(x, SyncTail(x) + extra);
    TakeInvertsSpans(x.flags, join);
    TakeInvertsVarbytes(x.joinData, words + extra);
    VersionIdsRoundTrip(words + extra, RawIds(x.versionIds), extra);
    TailWithRest(VarbytesAll(x.flags) + join, |x.flags|,
                 Sync(x.int2, x.schemaVersion, x.int1, x.profileByte, [], [], []), x.flags, join,
                 x.joinData, words + extra, RawIds(x.versionIds), extra);
  }

  lemma TailWithRest(data: Octets, count: nat, head: Sync, flags: seq<Octets>, join: Octets, text: Octets, ids: Octets,
                     raw: seq<int>, extra: Octets)
    requires TakeSpans(data, count) == Ok(Cut(flags, join)) && TakeVarbytes(join) == Ok(Cut(text, ids))
    requires ReadWords(ids) == Ok(Cut(raw, extra)) && extra != []
    ensures ReadSyncTail(data, count, head) == Err(ValueError)
  {
    hide TakeSpans, TakeVarbytes, ReadWords, Utf8;
  }

  /** A span is its size as a varuint and its bytes. */
  lemma SpanLayout(s: Octets, more: seq<Octets>)
    ensures Varbytes(s) == Varint.Leb(|s|) + s
    ensures VarbytesAll([s] + more) == Varbytes(s) + VarbytesAll(more) && VarbytesAll([]) == []
  {
    hide Varint.Leb;
    assert ([s] + more)[1..] == more;
  }

  // ---- dictionary format ----------------------------------------------------------------------

  /** Which dictionaries are accepted. */
  lemma FitsMeans(d: Dictionary)
    ensures Fits(d) <==>
              && 0 <= d.flags < 0x100 && |d.entries| < 0x1_0000
              && forall e | e in d.entries ::
                   |e.name| < 0x1_0000 && |e.value| < 0x1_0000 && Utf8(e.name) && Utf8(e.value)
  {
    hide Utf8;
  }

  /** 0x93, the flags, the number of entries, lowest byte first, and the entries. */
  lemma {:induction false} DictionaryLayout(d: Dictionary)
    requires Fits(d)
    ensures var n := |d.entries|;
            BuildDictionary(d) == Ok([0x93, d.flags, n % 0x100, n / 0x100] + EntryBytes(d.entries))
  {
    hide Le, EntryBytes, EntryFits;
    var n := |d.entries|;
    TwoBytes(n);
    var front: Octets, low: Octets := [0x93, d.flags], [n % 0x100, n / 0x100];
    assert front + low == [0x93, d.flags, n % 0x100, n / 0x100];
  }

  /** An entry: the size of the name and the name, the size of the value and the value, sizes lowest byte first. */
  lemma {:induction false} EntryLayout(e: Entry, more: seq<Entry>)
    requires EntryFits(e)
    ensures var (n, v) := (|e.name|, |e.value|);
            && EntryBytes([]) == []
            && EntryBytes([e] + more)
               == [n % 0x100, n / 0x100] + e.name + ([v % 0x100, v / 0x100] + e.value + EntryBytes(more))
  {
    hide Le, Utf8;
    TwoBytes(|e.name|);
    TwoBytes(|e.value|);
    assert ([e] + more)[1..] == more;
    assert Short(e.value) + EntryBytes(more) == [|e.value| % 0x100, |e.value| / 0x100] + e.value + EntryBytes(more);
  }
}
