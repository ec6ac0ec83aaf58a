/** Established UDMUX records: nonces, recovery of the full counter from 16 wire bits, and trial decryption. */
module EstablishedAead {
  import opened Results
  import opened Bytes
  import Bits

  const COUNTER_BASE := 0x754e_6575_7169_6e55  // "UniqueNu", little-endian

  function Nonce(counter: int): Result<Octets> {
    if 0 <= counter < M64 then Ok(Le(counter, 8) + [0x6D, 0x62, 0x65, 0x52]) else Err(OverflowError)
  }

  lemma {:induction false} NonceIsInjective(a: int, b: int)
    requires Nonce(a).Ok? && Nonce(b) == Nonce(a)
    ensures a == b
  {
    Pow256Values();
    LeThenFromLe(a, 8);
    LeThenFromLe(b, 8);
    assert Nonce(a).value[..8] == Le(a, 8) && Nonce(b).value[..8] == Le(b, 8);
  }

  // ---- candidates ------------------------------------------------------------------

  /** The signed 16-bit extension of a wire hint around the last authenticated counter. */
  function Nearest(hint: int, last: int): int {
    last + (hint - last % M16 + 0x8000) % M16 - 0x8000
  }

  function Neighbours(first: int, radius: nat): seq<int> {
    if radius == 0 then [first] else Neighbours(first, radius - 1) + [first - radius, first + radius]
  }

  function Radius(span: int): nat {
    if span < 0 then 0 else if span < 32 then span else 32
  }

  function Scan(span: int): nat {
    if span > 1 then span else 1
  }

  /** The candidates of a fresh epoch, before duplicates are dropped. */
  function Anchors(first: int, block: int, n: nat): seq<int>
    requires n >= 1
  {
    if n == 1 then [first, block] else Anchors(first, block, n - 1) + [first + (n - 1), block + (n - 1) * M16]
  }

  /** The values in order, each at its first place only. */
  function Fresh<T(==)>(values: seq<T>): seq<T> {
    if values == [] then [] else
    var (front, last) := (Fresh(values[..|values| - 1]), values[|values| - 1]);
    if last in front then front else front + [last]
  }

  function Block(hint: int, base: int): int {
    base - base % M16 + hint % M16
  }

  function CounterCandidates(hint: int, base: int, span: int, last: Option<int>): seq<int> {
    match last
    case None => Fresh(Anchors(hint % M16, Block(hint, base), Scan(span)))
    case Some(c) => Neighbours(Nearest(hint % M16, c), Radius(span))
  }

  /** The first candidate is the only counter with these 16 bits within half a wrap of the last one. */
  lemma {:induction false} NearestIsUnique(hint: int, last: int, c: int)
    requires 0 <= hint < M16
    ensures c == Nearest(hint, last) <==> c % M16 == hint && last - 0x8000 <= c < last + 0x8000
  {
    var x := hint - last % M16 + 0x8000;
    var n := Nearest(hint, last);
    assert n == last + x % M16 - 0x8000;
    assert (x - x % M16) % M16 == 0;
    assert n - hint == (last - last % M16) - (x - x % M16);
    Multiples(last - last % M16, x - x % M16);
    assert (n - hint) % M16 == 0;
    CongruentMod(n, hint);
    if c % M16 == hint && last - 0x8000 <= c < last + 0x8000 {
      CongruentClose(c, n);
    }
  }

  lemma Multiples(a: int, b: int)
    requires a % M16 == 0 && b % M16 == 0
    ensures (a - b) % M16 == 0
  {}

  lemma CongruentMod(a: int, b: int)
    requires (a - b) % M16 == 0 && 0 <= b < M16
    ensures a % M16 == b
  {}

  lemma CongruentClose(a: int, b: int)
    requires a % M16 == b % M16 && -M16 < a - b < M16
    ensures a == b
  {}

  ghost predicate NoDuplicates<T>(s: seq<T>) {
    forall i, j | 0 <= i < j < |s| :: s[i] != s[j]
  }

  lemma {:induction false} NeighboursAre(first: int, radius: nat)
    ensures NoDuplicates(Neighbours(first, radius))
    ensures |Neighbours(first, radius)| == 2 * radius + 1
    ensures forall c :: c in Neighbours(first, radius) <==> first - radius <= c <= first + radius
  {
    if radius > 0 {
      NeighboursAre(first, radius - 1);
      var near := Neighbours(first, radius - 1);
      assert forall i | 0 <= i < |near| :: near[i] in near;
    }
  }

  lemma {:induction false} FreshDropsDuplicates<T>(values: seq<T>)
    ensures NoDuplicates(Fresh(values))
    ensures |Fresh(values)| <= |values|
    ensures forall c :: c in Fresh(values) <==> c in values
  {
    if values != [] {
      FreshDropsDuplicates(values[..|values| - 1]);
      var front := Fresh(values[..|values| - 1]);
      assert values == values[..|values| - 1] + [values[|values| - 1]];
      assert forall i | 0 <= i < |front| :: front[i] in front;
    }
  }

  lemma {:induction false} AnchorsAre(first: int, block: int, n: nat)
    requires n >= 1
    ensures |Anchors(first, block, n)| == 2 * n
    ensures forall c :: c in Anchors(first, block, n) <==>
              first <= c < first + n || (c >= block && (c - block) % M16 == 0 && (c - block) / M16 < n)
  {
    if n > 1 {
      AnchorsAre(first, block, n - 1);
    }
  }

  /** Candidates are distinct and finitely many, and here is exactly which counters are tried. */
  lemma {:induction false} CandidatesAre(hint: int, base: int, span: int, last: Option<int>)
    ensures var candidates := CounterCandidates(hint, base, span, last);
            && NoDuplicates(candidates)
            && |candidates| <= 2 * Scan(span) + 1
            && forall c :: c in candidates <==>
                 match last
                 case Some(l) => Nearest(hint % M16, l) - Radius(span) <= c <= Nearest(hint % M16, l) + Radius(span)
                 case None =>
                   || hint % M16 <= c < hint % M16 + Scan(span)
                   || (&& c >= Block(hint, base) && (c - Block(hint, base)) % M16 == 0
                       && (c - Block(hint, base)) / M16 < Scan(span))
  {
    match last {
      case Some(l) => NeighboursAre(Nearest(hint % M16, l), Radius(span));
      case None =>
        AnchorsAre(hint % M16, Block(hint, base), Scan(span));
        FreshDropsDuplicates(Anchors(hint % M16, Block(hint, base), Scan(span)));
    }
  }

  method YieldCandidates(hint: int, base: int, span: int, last: Option<int>) returns (candidates: seq<int>)
    ensures candidates == CounterCandidates(hint, base, span, last)
  {
    hide Anchors, Neighbours, Fresh;
    var low := hint % M16;
    match last {
      case None =>
        candidates := YieldAnchors(low, base - base % M16 + low, Scan(span));
      case Some(c) =>
        var delta := (low - c % M16 + 0x8000) % M16 - 0x8000;
        candidates := YieldNeighbours(c + delta, Radius(span));
    }
  }

  /** The alternating offsets around the anchor. */
  method YieldNeighbours(first: int, radius: nat) returns (candidates: seq<int>)
    ensures candidates == Neighbours(first, radius)
  {
    candidates := [first];
    for n := 1 to radius + 1
      invariant candidates == Neighbours(first, n - 1)
    {
      candidates := candidates + [first - n, first + n];
    }
  }

  /** Both anchors of a fresh epoch, each yielded only when it has not been seen. */
  method YieldAnchors(low: int, block: int, count: nat) returns (candidates: seq<int>)
    requires count >= 1
    ensures candidates == Fresh(Anchors(low, block, count))
  {
    hide Fresh;
    var seen: set<int> := {};
    FreshNone();
    candidates, seen := YieldPair([], [], seen, low, block);
    assert [] + [low, block] == [low, block];
    for n := 1 to count
      invariant candidates == Fresh(Anchors(low, block, n))
      invariant forall c :: c in seen <==> c in candidates
    {
      candidates, seen := YieldPair(Anchors(low, block, n), candidates, seen, low + n, block + n * M16);
    }
  }

  lemma FreshNone()
    ensures Fresh<int>([]) == []
  {}

  method YieldPair(ghost before: seq<int>, sofar: seq<int>, was: set<int>, a: int, b: int)
    returns (candidates: seq<int>, seen: set<int>)
    requires sofar == Fresh(before) && forall c :: c in was <==> c in sofar
    ensures candidates == Fresh(before + [a, b]) && forall c :: c in seen <==> c in candidates
  {
    hide Fresh;
    candidates, seen := sofar, was;
    var pair := [a, b];
    FreshPair(before, a, b);
    for i := 0 to 2
      invariant candidates == FreshOn(before, pair[..i])
      invariant forall c :: c in seen <==> c in candidates
    {
      assert pair[..i + 1] == pair[..i] + [pair[i]];
      FreshOnStep(before, pair[..i], pair[i]);
      if pair[i] !in seen {
        seen := seen + {pair[i]};
        candidates := candidates + [pair[i]];
      }
    }
    assert pair[..2] == pair;
  }

  ghost function FreshOn(values: seq<int>, more: seq<int>): seq<int> {
    Fresh(values + more)
  }

  lemma FreshOnStep(values: seq<int>, more: seq<int>, c: int)
    ensures FreshOn(values, more + [c])
         == if c in FreshOn(values, more) then FreshOn(values, more) else FreshOn(values, more) + [c]
  {
    assert values + (more + [c]) == (values + more) + [c];
    assert ((values + more) + [c])[..|values + more|] == values + more;
  }

  lemma FreshPair(values: seq<int>, a: int, b: int)
    ensures FreshOn(values, []) == Fresh(values)
    ensures FreshOn(values, [a, b]) == Fresh(values + [a, b])
  {
    assert values + [] == values;
  }

  // ---- records -----------------------------------------------------------------------

  const TRAILER := 18

  datatype EstablishedDatagram = EstablishedDatagram(header: Octets, ciphertext: Octets, hint: nat, tag: Octets) {
    function Body(): Octets {
      ciphertext + tag
    }
  }

  predicate KnownPrefix(header: Octets) {
    |header| >= 3 && header[..2] == [1, 0x11] && (header[2] == 1 || header[2] == 2)
  }

  function ParseRecord(packet: Octets): Result<EstablishedDatagram> {
    if |packet| < 4 || packet[..3] != [1, 0, 0] then Err(ValueError) else
    var hlen := packet[3];
    if (hlen != 0x17 && hlen != 0x1F) || |packet| < hlen + TRAILER then Err(ValueError) else
    var header := packet[4..hlen];
    if !KnownPrefix(header) then Err(ValueError) else
    var body := packet[hlen..];
    var n := |body|;
    Ok(EstablishedDatagram(header, body[..n - TRAILER], FromLe(body[n - 18..n - 16]), body[n - 16..]))
  }

  /** The AEAD library: sealing appends a 16-byte tag, opening authenticates or fails. */
  datatype Aead = Aead(
    seal: (Octets, Octets, Octets, Octets) -> Octets,
    open: (Octets, Octets, Octets, Octets) -> Option<Octets>)
  {
    ghost predicate Sized() {
      forall key, nonce, text, aad :: |seal(key, nonce, text, aad)| == |text| + 16
    }

    /** Correct, and unforgeable across the keys and associated data in use. */
    ghost predicate Ideal(keys: seq<Octets>, aads: seq<Octets>) {
      && (forall key, nonce, text, aad | key in keys && aad in aads && |nonce| == 12 ::
            open(key, nonce, seal(key, nonce, text, aad), aad) == Some(text))
      && (forall key, nonce, text, aad, key', nonce', aad'
            | key in keys && aad in aads && key' in keys && aad' in aads && |nonce| == 12 && |nonce'| == 12
              && open(key', nonce', seal(key, nonce, text, aad), aad').Some? ::
            key' == key && nonce' == nonce && aad' == aad)
    }
  }

  /** Where x is first found, or the length of the list. */
  function Position(list: seq<Octets>, x: Octets): (i: nat)
    ensures i <= |list|
    ensures x in list ==> i < |list| && list[i] == x
  {
    if list == [] || list[0] == x then 0 else Position(list[1..], x) + 1
  }

  function Label(keys: seq<Octets>, aads: seq<Octets>, key: Octets, aad: Octets): nat {
    Position(keys, key) * (|aads| + 1) + Position(aads, aad)
  }

  lemma LabelIsInjective(keys: seq<Octets>, aads: seq<Octets>, key: Octets, aad: Octets, key': Octets, aad': Octets)
    requires key in keys && aad in aads && key' in keys && aad' in aads
    requires Label(keys, aads, key, aad) == Label(keys, aads, key', aad')
    ensures key == key' && aad == aad'
  {
    SameQuotient(Position(keys, key), Position(aads, aad), Position(keys, key'), Position(aads, aad'), |aads| + 1);
  }

  lemma SameQuotient(q: nat, r: nat, q': nat, r': nat, n: nat)
    requires r < n && r' < n && q * n + r == q' * n + r'
    ensures q == q' && r == r'
  {
    Bits.DivUnique(q * n + r, n, q, r);
    Bits.DivUnique(q' * n + r', n, q', r');
  }

  lemma LabelFits(keys: seq<Octets>, aads: seq<Octets>, key: Octets, aad: Octets)
    requires (|keys| + 1) * (|aads| + 1) <= 0x1_0000_0000
    ensures Label(keys, aads, key, aad) < 0x1_0000_0000
  {
    var (n, q) := (|aads| + 1, Position(keys, key));
    Bits.MulLe(q + 1, |keys| + 1, n);
    assert (q + 1) * n == q * n + n;
  }

  /** A transparent tag: the nonce, and which of the keys and associated data were used. */
  function ToyTag(keys: seq<Octets>, aads: seq<Octets>, key: Octets, nonce: Octets, aad: Octets): (tag: Octets)
    ensures |tag| == 16
  {
    if |nonce| == 12 then nonce + Le(Label(keys, aads, key, aad), 4) else seq(16, _ => 0)
  }

  lemma ToyTagIsInjective(keys: seq<Octets>, aads: seq<Octets>, key: Octets, nonce: Octets, aad: Octets,
                          key': Octets, nonce': Octets, aad': Octets)
    requires (|keys| + 1) * (|aads| + 1) <= 0x1_0000_0000
    requires key in keys && aad in aads && key' in keys && aad' in aads && |nonce| == 12 && |nonce'| == 12
    requires ToyTag(keys, aads, key, nonce, aad) == ToyTag(keys, aads, key', nonce', aad')
    ensures key == key' && nonce == nonce' && aad == aad'
  {
    hide Label, Le, FromLe;
    var (a, b) := (ToyTag(keys, aads, key, nonce, aad), ToyTag(keys, aads, key', nonce', aad'));
    assert a[..12] == nonce && b[..12] == nonce';
    assert a[12..] == Le(Label(keys, aads, key, aad), 4) && b[12..] == Le(Label(keys, aads, key', aad'), 4);
    LabelFits(keys, aads, key, aad);
    LabelFits(keys, aads, key', aad');
    Pow256Values();
    LeThenFromLe(Label(keys, aads, key, aad), 4);
    LeThenFromLe(Label(keys, aads, key', aad'), 4);
    LabelIsInjective(keys, aads, key, aad, key', aad');
  }

  function Toy(keys: seq<Octets>, aads: seq<Octets>): Aead {
    Aead(
      (k: Octets, n: Octets, text: Octets, a: Octets) => text + ToyTag(keys, aads, k, n, a),
      (k: Octets, n: Octets, body: Octets, a: Octets) =>
        if |body| >= 16 && body[|body| - 16..] == ToyTag(keys, aads, k, n, a) then Some(body[..|body| - 16]) else None)
  }

  /** The hypothesis is not empty: for any keys and associated data, up to 2^32 pairs, a transparent scheme meets it. */
  lemma {:induction false} IdealIsPossible(keys: seq<Octets>, aads: seq<Octets>) returns (aead: Aead)
    requires (|keys| + 1) * (|aads| + 1) <= 0x1_0000_0000
    ensures aead.Sized() && aead.Ideal(keys, aads)
  {
    hide ToyTag;
    aead := Toy(keys, aads);
    forall text: Octets, tag: Octets | |tag| == 16
      ensures (text + tag)[|text|..] == tag && (text + tag)[..|text|] == text
    {}
    forall key, nonce, text, aad, key', nonce', aad'
      | key in keys && aad in aads && key' in keys && aad' in aads && |nonce| == 12 && |nonce'| == 12
        && aead.open(key', nonce', aead.seal(key, nonce, text, aad), aad').Some?
      ensures key' == key && nonce' == nonce && aad' == aad
    {
      ToyTagIsInjective(keys, aads, key, nonce, aad, key', nonce', aad');
    }
  }

  function EncryptRecord(aead: Aead, header: Octets, plaintext: Octets, key: Octets, counter: int, aad: Octets)
    : Result<Octets>
    requires aead.Sized()
  {
    if |key| != 32 then Err(ValueError)
    else if !((|header| == 19 || |header| == 27) && KnownPrefix(header)) then Err(ValueError)
    else
      var nonce :- Nonce(counter);
      var body := aead.seal(key, nonce, plaintext, aad);
      var cut := |body| - 16;
      Ok([1, 0, 0, 4 + |header|] + header + body[..cut] + Le(counter % M16, 2) + body[cut..])
  }

  /** The record carries the header, the low 16 bits of the counter and the sealed body, all recoverable. */
  lemma {:induction false} ParseInvertsEncrypt(aead: Aead, header: Octets, plaintext: Octets, key: Octets,
                                               counter: int, aad: Octets)
    requires aead.Sized() && EncryptRecord(aead, header, plaintext, key, counter, aad).Ok?
    ensures var parsed := ParseRecord(EncryptRecord(aead, header, plaintext, key, counter, aad).value);
            && parsed.Ok?
            && parsed.value.header == header && parsed.value.hint == counter % M16
            && parsed.value.Body() == aead.seal(key, Nonce(counter).value, plaintext, aad)
  {
    hide Le, FromLe;
    var packet := EncryptRecord(aead, header, plaintext, key, counter, aad).value;
    var sealed := aead.seal(key, Nonce(counter).value, plaintext, aad);
    var cut := |sealed| - 16;
    var body := sealed[..cut] + Le(counter % M16, 2) + sealed[cut..];
    var front: Octets := [1, 0, 0, 4 + |header|];
    assert packet == front + header + body;
    ThreeParts(front, header, body);
    ThreeParts(sealed[..cut], Le(counter % M16, 2), sealed[cut..]);
    assert packet[..3] == front[..3] && packet[3] == 4 + |header|;
    Pow256Values();
    LeThenFromLe(counter % M16, 2);
  }

  lemma ThreeParts(a: Octets, b: Octets, c: Octets)
    ensures (a + b + c)[..|a|] == a
    ensures (a + b + c)[|a|..|a| + |b|] == b
    ensures (a + b + c)[|a| + |b|..] == c
  {}

  // ---- trial decryption --------------------------------------------------------------------

  datatype Opened = Opened(plaintext: Octets, counter: int)

  function Attempt(aead: Aead, key: Octets, counter: int, body: Octets, aad: Octets): Option<Octets> {
    match Nonce(counter)
    case Err(_) => None
    case Ok(nonce) => aead.open(key, nonce, body, aad)
  }

  function TryAads(aead: Aead, key: Octets, counter: int, body: Octets, aads: seq<Octets>): Option<Opened> {
    if aads == [] then None else
    match Attempt(aead, key, counter, body, aads[0])
    case Some(text) => Some(Opened(text, counter))
    case None => TryAads(aead, key, counter, body, aads[1..])
  }

  function TryCounters(aead: Aead, key: Octets, counters: seq<int>, body: Octets, aads: seq<Octets>): Option<Opened> {
    if counters == [] then None else
    var first := TryAads(aead, key, counters[0], body, aads);
    if first.Some? then first else TryCounters(aead, key, counters[1..], body, aads)
  }

  function TryKeys(aead: Aead, keys: seq<Octets>, counters: seq<int>, body: Octets, aads: seq<Octets>): Option<Opened> {
    if keys == [] then None else
    var first := TryCounters(aead, keys[0], counters, body, aads);
    if first.Some? then first else TryKeys(aead, keys[1..], counters, body, aads)
  }

  /** The caller's associated data, or the empty string and the header with and without the record prefix. */
  function AadCandidates(packet: Octets, header: Octets, explicit: Option<seq<Octets>>): seq<Octets> {
    match explicit
    case Some(values) => Fresh(values)
    case None => Fresh([[], header, (if |packet| >= 4 then packet[..4] else packet) + header])
  }

  datatype Decrypted = Decrypted(found: Opened, datagram: EstablishedDatagram)

  predicate KeysUsable(keys: seq<Octets>) {
    keys != [] && forall key | key in keys :: |key| == 32
  }

  function DecryptRecord(aead: Aead, packet: Octets, keys: seq<Octets>, base: int, span: int,
                         explicit: Option<seq<Octets>>, last: Option<int>): Result<Decrypted>
  {
    var datagram :- ParseRecord(packet);
    if !KeysUsable(keys) then Err(ValueError) else
    var counters := CounterCandidates(datagram.hint, base, span, last);
    match TryKeys(aead, keys, counters, datagram.Body(), AadCandidates(packet, datagram.header, explicit))
    case None => Err(ValueError)
    case Some(found) => Ok(Decrypted(found, datagram))
  }

  /** The two AEADs of the library, and their names. */
  datatype Ciphers = Ciphers(gcm: Aead, chacha: Aead) {
    function Named(cipher: string): Option<Aead> {
      if cipher == "aes-256-gcm" then Some(gcm)
      else if cipher == "chacha20-poly1305" then Some(chacha)
      else None
    }
  }

  method DecryptEstablished(ciphers: Ciphers, cipher: string, packet: Octets, keys: seq<Octets>, base: int, span: int,
                            explicit: Option<seq<Octets>>, last: Option<int>) returns (r: Result<Decrypted>)
    ensures r == match ciphers.Named(cipher)
                 case None => Err(ValueError)
                 case Some(aead) => DecryptRecord(aead, packet, keys, base, span, explicit, last)
  {
    var parsed := ParseRecord(packet);
    if parsed.Err? {
      return Err(parsed.error);
    }
    if !KeysUsable(keys) {
      return Err(ValueError);
    }
    var named := ciphers.Named(cipher);
    if named.None? {
      return Err(ValueError);
    }
    var aead := named.value;
    hide ParseRecord, Nonce, CounterCandidates, AadCandidates, KeysUsable;
    var aads := AadCandidates(packet, parsed.value.header, explicit);
    var body := parsed.value.Body();
    ghost var counters := CounterCandidates(parsed.value.hint, base, span, last);
    for k := 0 to |keys|
      invariant TryKeys(aead, keys[k..], counters, body, aads) == TryKeys(aead, keys, counters, body, aads)
    {
      assert keys[k..][0] == keys[k] && keys[k..][1..] == keys[k + 1..];
      var candidates := YieldCandidates(parsed.value.hint, base, span, last);
      var found := ScanCounters(aead, keys[k], candidates, body, aads);
      if found.Some? {
        return Ok(Decrypted(found.value, parsed.value));
      }
    }
    r := Err(ValueError);
  }

  method ScanCounters(aead: Aead, key: Octets, counters: seq<int>, body: Octets, aads: seq<Octets>)
    returns (found: Option<Opened>)
    ensures found == TryCounters(aead, key, counters, body, aads)
  {
    hide Nonce;
    for c := 0 to |counters|
      invariant TryCounters(aead, key, counters[c..], body, aads) == TryCounters(aead, key, counters, body, aads)
    {
      assert counters[c..][0] == counters[c] && counters[c..][1..] == counters[c + 1..];
      for a := 0 to |aads|
        invariant TryAads(aead, key, counters[c], body, aads[a..]) == TryAads(aead, key, counters[c], body, aads)
      {
        assert aads[a..][0] == aads[a] && aads[a..][1..] == aads[a + 1..];
        var text := Attempt(aead, key, counters[c], body, aads[a]);
        if text.Some? {
          return Some(Opened(text.value, counters[c]));
        }
      }
    }
    found := None;
  }

  // ---- recovery --------------------------------------------------------------------------

  /** Trial decryption opens with a combination that it tried, and gives up only when every combination fails. */
  lemma {:induction false} TryAadsIs(aead: Aead, key: Octets, counter: int, body: Octets, aads: seq<Octets>)
    ensures match TryAads(aead, key, counter, body, aads)
            case None => forall a | a in aads :: Attempt(aead, key, counter, body, a).None?
            case Some(o) =>
              && o.counter == counter
              && exists a :: a in aads && Attempt(aead, key, counter, body, a) == Some(o.plaintext)
  {
    hide Attempt;
    if aads != [] {
      assert aads == [aads[0]] + aads[1..];
      TryAadsIs(aead, key, counter, body, aads[1..]);
    }
  }

  ghost predicate Opens(aead: Aead, key: Octets, counter: int, body: Octets, aads: seq<Octets>, text: Octets) {
    exists a :: a in aads && Attempt(aead, key, counter, body, a) == Some(text)
  }

  lemma {:induction false} TryCountersIs(aead: Aead, key: Octets, counters: seq<int>, body: Octets, aads: seq<Octets>)
    ensures match TryCounters(aead, key, counters, body, aads)
            case None => forall c, text | c in counters :: !Opens(aead, key, c, body, aads, text)
            case Some(o) => o.counter in counters && Opens(aead, key, o.counter, body, aads, o.plaintext)
  {
    hide Attempt;
    if counters != [] {
      assert counters == [counters[0]] + counters[1..];
      TryAadsIs(aead, key, counters[0], body, aads);
      TryCountersIs(aead, key, counters[1..], body, aads);
    }
  }

  lemma {:induction false} TryKeysIs(aead: Aead, keys: seq<Octets>, counters: seq<int>, body: Octets, aads: seq<Octets>)
    ensures match TryKeys(aead, keys, counters, body, aads)
            case None => forall k, c, text | k in keys && c in counters :: !Opens(aead, k, c, body, aads, text)
            case Some(o) =>
              o.counter in counters && exists k :: k in keys && Opens(aead, k, o.counter, body, aads, o.plaintext)
  {
    hide Opens;
    if keys != [] {
      assert keys == [keys[0]] + keys[1..];
      TryCountersIs(aead, keys[0], counters, body, aads);
      TryKeysIs(aead, keys[1..], counters, body, aads);
    }
  }

  /** A record as the peer built it. */
  datatype Genuine = Genuine(header: Octets, plaintext: Octets, key: Octets, counter: int, aad: Octets) {
    ghost predicate Sent(aead: Aead, packet: Octets) {
      aead.Sized() && EncryptRecord(aead, header, plaintext, key, counter, aad) == Ok(packet)
    }
  }

  /** What the receiver is set up with. */
  datatype Setup = Setup(keys: seq<Octets>, base: int, span: int, explicit: Option<seq<Octets>>)

  /** The right key and associated data are among those tried, and the AEAD is ideal for all of those. */
  ghost predicate Decidable(aead: Aead, setup: Setup, g: Genuine, packet: Octets) {
    && KeysUsable(setup.keys) && g.key in setup.keys
    && var aads := AadCandidates(packet, g.header, setup.explicit);
    && g.aad in aads
    && aead.Ideal(setup.keys, aads)
  }

  lemma OnlyTheRightAttemptOpens(aead: Aead, g: Genuine, keys: seq<Octets>, aads: seq<Octets>, key: Octets,
                                 counter: int, aad: Octets)
    requires aead.Ideal(keys, aads)
    requires g.key in keys && g.aad in aads && key in keys && aad in aads && Nonce(g.counter).Ok?
    ensures var body := aead.seal(g.key, Nonce(g.counter).value, g.plaintext, g.aad);
            && Attempt(aead, g.key, g.counter, body, g.aad) == Some(g.plaintext)
            && (Attempt(aead, key, counter, body, aad).Some? ==>
                  counter == g.counter && Attempt(aead, key, counter, body, aad) == Some(g.plaintext))
  {
    hide Le;
    var body := aead.seal(g.key, Nonce(g.counter).value, g.plaintext, g.aad);
    if Attempt(aead, key, counter, body, aad).Some? {
      assert |Nonce(counter).value| == 12 && |Nonce(g.counter).value| == 12;
      assert aead.open(key, Nonce(counter).value, aead.seal(g.key, Nonce(g.counter).value, g.plaintext, g.aad),
                       aad).Some?;
      assert Nonce(counter).value == Nonce(g.counter).value;
      NonceIsInjective(counter, g.counter);
    }
  }

  /** A genuine record whose counter is a candidate decrypts to its own plaintext and its own full counter. */
  lemma {:induction false} GenuineIsRecovered(aead: Aead, setup: Setup, g: Genuine, packet: Octets, last: Option<int>)
    requires g.Sent(aead, packet) && Decidable(aead, setup, g, packet)
    requires g.counter in CounterCandidates(g.counter % M16, setup.base, setup.span, last)
    ensures var r := DecryptRecord(aead, packet, setup.keys, setup.base, setup.span, setup.explicit, last);
            r.Ok? && r.value.found == Opened(g.plaintext, g.counter) && r.value.datagram.header == g.header
  {
    hide ParseRecord, CounterCandidates, AadCandidates, Le, Attempt, TryKeys;
    ParseInvertsEncrypt(aead, g.header, g.plaintext, g.key, g.counter, g.aad);
    var counters := CounterCandidates(g.counter % M16, setup.base, setup.span, last);
    var aads := AadCandidates(packet, g.header, setup.explicit);
    var body := aead.seal(g.key, Nonce(g.counter).value, g.plaintext, g.aad);
    forall key, counter, aad | key in setup.keys && aad in aads
      ensures Attempt(aead, g.key, g.counter, body, g.aad) == Some(g.plaintext)
      ensures Attempt(aead, key, counter, body, aad).Some? ==>
                counter == g.counter && Attempt(aead, key, counter, body, aad) == Some(g.plaintext)
    {
      OnlyTheRightAttemptOpens(aead, g, setup.keys, aads, key, counter, aad);
    }
    TryKeysIs(aead, setup.keys, counters, body, aads);
    assert Opens(aead, g.key, g.counter, body, aads, g.plaintext);
  }

  // ---- runs of the receiver ---------------------------------------------------------------

  /** Direction and epoch of a packet: its header size and the sixteen bytes behind the header's prefix. */
  datatype StreamId = StreamId(size: nat, epoch: Octets)

  function StreamOf(packet: Octets): StreamId {
    match ParseRecord(packet)
    case Err(_) => StreamId(0, [])
    case Ok(record) =>
      StreamId(4 + |record.header|, if |record.header| >= 19 then record.header[3..19] else [])
  }

  /** The candidate keys and the search range that the configuration gives a stream. */
  type Keyring = StreamId -> Setup

  function LastOf(lasts: map<StreamId, int>, id: StreamId): Option<int> {
    if id in lasts then Some(lasts[id]) else None
  }

  /** What _try_decrypt_established makes of a packet, with what its stream remembers. */
  function Attempted(aead: Aead, ring: Keyring, lasts: map<StreamId, int>, packet: Octets): Result<Decrypted> {
    var (id, setup) := (StreamOf(packet), ring(StreamOf(packet)));
    DecryptRecord(aead, packet, setup.keys, setup.base, setup.span, setup.explicit, LastOf(lasts, id))
  }

  /** Each stream remembers its last authenticated counter, not the largest. */
  function Receive(aead: Aead, ring: Keyring, lasts: map<StreamId, int>, packet: Octets): map<StreamId, int> {
    match Attempted(aead, ring, lasts, packet)
    case Err(_) => lasts
    case Ok(d) => lasts[StreamOf(packet) := d.found.counter]
  }

  function ReceiveAll(aead: Aead, ring: Keyring, packets: seq<Octets>): map<StreamId, int> {
    if packets == [] then map[] else
    Receive(aead, ring, ReceiveAll(aead, ring, packets[..|packets| - 1]), packets[|packets| - 1])
  }

  /** An arriving packet: a genuine record, or noise that authenticates under no combination tried. */
  datatype Incoming = FromPeer(record: Genuine, packet: Octets) | Noise(packet: Octets)

  function Packets(stream: seq<Incoming>): (r: seq<Octets>)
    ensures |r| == |stream|
    ensures forall i | 0 <= i < |r| :: r[i] == stream[i].packet
  {
    seq(|stream|, i requires 0 <= i < |stream| => stream[i].packet)
  }

  /** The counter of the last genuine record of a stream. */
  function LastGenuine(arrivals: seq<Incoming>, id: StreamId): Option<int> {
    if arrivals == [] then None else
    var (front, last) := (arrivals[..|arrivals| - 1], arrivals[|arrivals| - 1]);
    if last.FromPeer? && StreamOf(last.packet) == id then Some(last.record.counter) else LastGenuine(front, id)
  }

  /** Each genuine counter lies within half a wrap of the previous one; the first is one of the fresh candidates. */
  ghost predicate InWindow(setup: Setup, last: Option<int>, c: int) {
    match last
    case Some(l) => l - 0x8000 <= c < l + 0x8000
    case None => c in CounterCandidates(c % M16, setup.base, setup.span, None)
  }

  /** A genuine record in its window, or noise. */
  ghost predicate Expected(aead: Aead, setup: Setup, last: Option<int>, arrival: Incoming) {
    match arrival
    case FromPeer(g, packet) =>
      g.Sent(aead, packet) && Decidable(aead, setup, g, packet) && InWindow(setup, last, g.counter)
    case Noise(packet) =>
      DecryptRecord(aead, packet, setup.keys, setup.base, setup.span, setup.explicit, last).Err?
  }

  /** Expected on its own stream, after the given arrivals on all of them. */
  ghost predicate ExpectedAfter(aead: Aead, ring: Keyring, before: seq<Incoming>, arrival: Incoming) {
    var id := StreamOf(arrival.packet);
    Expected(aead, ring(id), LastGenuine(before, id), arrival)
  }

  ghost predicate Orderly(aead: Aead, ring: Keyring, arrivals: seq<Incoming>) {
    forall i | 0 <= i < |arrivals| :: ExpectedAfter(aead, ring, arrivals[..i], arrivals[i])
  }

  lemma WindowIsCandidate(setup: Setup, last: Option<int>, c: int)
    requires InWindow(setup, last, c)
    ensures c in CounterCandidates(c % M16, setup.base, setup.span, last)
  {
    if last.Some? {
      NearestIsUnique(c % M16, last.value, c);
      CandidatesAre(c % M16, setup.base, setup.span, last);
    }
  }

  /** One expected arrival: a genuine record is recovered and remembered, noise changes nothing. */
  lemma {:induction false} ReceiveExpected(aead: Aead, ring: Keyring, lasts: map<StreamId, int>, arrival: Incoming)
    requires var id := StreamOf(arrival.packet); Expected(aead, ring(id), LastOf(lasts, id), arrival)
    ensures var r := Attempted(aead, ring, lasts, arrival.packet);
            var after := Receive(aead, ring, lasts, arrival.packet);
            match arrival
            case FromPeer(g, packet) =>
              && r.Ok? && r.value.found == Opened(g.plaintext, g.counter)
              && after == lasts[StreamOf(packet) := g.counter]
            case Noise(_) => after == lasts
  {
    hide DecryptRecord, Decidable, InWindow, StreamOf;
    if arrival.FromPeer? {
      var id := StreamOf(arrival.packet);
      WindowIsCandidate(ring(id), LastOf(lasts, id), arrival.record.counter);
      GenuineIsRecovered(aead, ring(id), arrival.record, arrival.packet, LastOf(lasts, id));
    }
  }

  /**
   * Over every run, however the streams and epochs are interleaved and whatever noise arrives in between, each stream
   * remembers the counter of its own last genuine record.
   */
  lemma {:induction false} LastCounterIsRemembered(aead: Aead, ring: Keyring, arrivals: seq<Incoming>, id: StreamId)
    requires Orderly(aead, ring, arrivals)
    ensures LastOf(ReceiveAll(aead, ring, Packets(arrivals)), id) == LastGenuine(arrivals, id)
    decreases |arrivals|
  {
    hide Expected, Receive, Orderly, StreamOf;
    if arrivals != [] {
      var n := |arrivals| - 1;
      var (front, own) := (arrivals[..n], StreamOf(arrivals[n].packet));
      OrderlyPrefix(aead, ring, arrivals);
      LastCounterIsRemembered(aead, ring, front, id);
      LastCounterIsRemembered(aead, ring, front, own);
      assert Packets(arrivals)[..n] == Packets(front);
      ReceiveExpected(aead, ring, ReceiveAll(aead, ring, Packets(front)), arrivals[n]);
    }
  }

  lemma OrderlyPrefix(aead: Aead, ring: Keyring, arrivals: seq<Incoming>)
    requires Orderly(aead, ring, arrivals) && arrivals != []
    ensures Orderly(aead, ring, arrivals[..|arrivals| - 1])
    ensures ExpectedAfter(aead, ring, arrivals[..|arrivals| - 1], arrivals[|arrivals| - 1])
  {
    hide ExpectedAfter;
    var n := |arrivals| - 1;
    forall i | 0 <= i < n ensures ExpectedAfter(aead, ring, arrivals[..n][..i], arrivals[..n][i]) {
      assert arrivals[..n][..i] == arrivals[..i] && arrivals[..n][i] == arrivals[i];
    }
  }

  lemma {:induction false} OrderlyUpTo(aead: Aead, ring: Keyring, arrivals: seq<Incoming>, i: nat)
    requires Orderly(aead, ring, arrivals) && i <= |arrivals|
    ensures Orderly(aead, ring, arrivals[..i])
  {
    hide ExpectedAfter;
    forall j | 0 <= j < i ensures ExpectedAfter(aead, ring, arrivals[..i][..j], arrivals[..i][j]) {
      assert arrivals[..i][..j] == arrivals[..j] && arrivals[..i][j] == arrivals[j];
    }
  }

  /** In every run each genuine record yields exactly its plaintext and its 64-bit counter. */
  lemma {:induction false} EveryGenuineIsRecovered(aead: Aead, ring: Keyring, arrivals: seq<Incoming>, i: nat)
    requires Orderly(aead, ring, arrivals) && i < |arrivals| && arrivals[i].FromPeer?
    ensures var r := Attempted(aead, ring, ReceiveAll(aead, ring, Packets(arrivals)[..i]), arrivals[i].packet);
            r.Ok? && r.value.found == Opened(arrivals[i].record.plaintext, arrivals[i].record.counter)
  {
    hide Expected, Attempted, StreamOf;
    OrderlyUpTo(aead, ring, arrivals, i);
    assert ExpectedAfter(aead, ring, arrivals[..i], arrivals[i]);
    LastCounterIsRemembered(aead, ring, arrivals[..i], StreamOf(arrivals[i].packet));
    assert Packets(arrivals)[..i] == Packets(arrivals[..i]);
    ReceiveExpected(aead, ring, ReceiveAll(aead, ring, Packets(arrivals[..i])), arrivals[i]);
  }

  // ---- the sender ---------------------------------------------------------------------------

  /**
   * One datagram on its way out, under the header and the key configured at that moment (no key is the empty one).
   * The connection request, `transition`, may still go out under a header of the first epoch.
   */
  datatype Outbound = Outbound(transition: bool, header: Octets, key: Octets, plaintext: Octets)

  /** Sealed under the shared counter, or in the clear where no key or no client header is configured. */
  datatype Wire = Sealed(packet: Octets) | Clear(plaintext: Octets)

  predicate Seals(out: Outbound) {
    && out.key != [] && (|out.header| == 19 || |out.header| == 27) && KnownPrefix(out.header)
    && (out.transition || out.header[2] == 2)
  }

  datatype Transmission = Transmission(counter: int, wire: Result<Wire>)

  /** The counter advances once a record is sealed, and stays put when sealing raises or nothing is sealed. */
  function Transmit(aead: Aead, counter: int, out: Outbound): Transmission
    requires aead.Sized()
  {
    if !Seals(out) then Transmission(counter, Ok(Clear(out.plaintext))) else
    match EncryptRecord(aead, out.header, out.plaintext, out.key, counter, [])
    case Ok(packet) => Transmission(counter + 1, Ok(Sealed(packet)))
    case Err(fault) => Transmission(counter, Err(fault))
  }

  /** The counter after some datagrams. */
  function CounterAfter(aead: Aead, outs: seq<Outbound>): int
    requires aead.Sized()
  {
    if outs == [] then COUNTER_BASE else
    var n := |outs| - 1;
    Transmit(aead, CounterAfter(aead, outs[..n]), outs[n]).counter
  }

  /** Whether the i-th datagram goes out sealed. */
  predicate SealedAt(aead: Aead, outs: seq<Outbound>, i: nat)
    requires aead.Sized() && i < |outs|
  {
    var wire := Transmit(aead, CounterAfter(aead, outs[..i]), outs[i]).wire;
    wire.Ok? && wire.value.Sealed?
  }

  class EstablishedSender {
    const aead: Aead
    var counter: int

    constructor (aead: Aead)
      ensures this.aead == aead && counter == COUNTER_BASE
    {
      this.aead, counter := aead, COUNTER_BASE;
    }

    method Send(out: Outbound) returns (wire: Result<Wire>)
      requires aead.Sized()
      modifies this`counter
      ensures Transmission(counter, wire) == Transmit(aead, old(counter), out)
    {
      if !Seals(out) {
        return Ok(Clear(out.plaintext));
      }
      var packet := EncryptRecord(aead, out.header, out.plaintext, out.key, counter, []);
      if packet.Err? {
        return Err(packet.error);
      }
      counter := counter + 1;
      wire := Ok(Sealed(packet.value));
    }
  }

  lemma NonceDefined(c: int)
    ensures Nonce(c).Ok? <==> 0 <= c < M64
  {}

  /** A datagram that is to be sealed is, exactly for a 32-byte key and while the counter fits 64 bits. */
  lemma SealedExactly(aead: Aead, counter: int, out: Outbound)
    requires aead.Sized()
    ensures var t := Transmit(aead, counter, out);
            && (t.wire.Ok? && t.wire.value.Sealed? <==> Seals(out) && |out.key| == 32 && 0 <= counter < M64)
            && t.counter == if t.wire.Ok? && t.wire.value.Sealed? then counter + 1 else counter
  {
    hide Nonce, KnownPrefix;
    NonceDefined(counter);
  }

  lemma {:induction false} CounterGrows(aead: Aead, outs: seq<Outbound>, i: nat)
    requires aead.Sized() && i <= |outs|
    ensures COUNTER_BASE <= CounterAfter(aead, outs[..i]) <= CounterAfter(aead, outs) <= M64
    ensures i < |outs| && SealedAt(aead, outs, i) ==> CounterAfter(aead, outs[..i]) < CounterAfter(aead, outs)
  {
    hide Transmit;
    if outs == [] {
      assert outs[..i] == [];
    } else {
      var n := |outs| - 1;
      SealedExactly(aead, CounterAfter(aead, outs[..n]), outs[n]);
      if i <= n {
        CounterGrows(aead, outs[..n], i);
        assert outs[..n][..i] == outs[..i];
        if i < n { assert outs[..n][i] == outs[i]; }
      } else {
        CounterGrows(aead, outs[..n], n);
        assert outs[..n][..n] == outs[..n] && outs[..i] == outs;
      }
    }
  }

  /**
   * One counter serves every header and key, the connection request included: no two sealed datagrams share a nonce,
   * and a datagram is refused for its counter only once 2^64 is reached.
   */
  lemma {:induction false} NoncesNeverRepeat(aead: Aead, outs: seq<Outbound>, i: nat, j: nat)
    requires aead.Sized() && i < j < |outs| && SealedAt(aead, outs, i) && SealedAt(aead, outs, j)
    ensures var (ci, cj) := (CounterAfter(aead, outs[..i]), CounterAfter(aead, outs[..j]));
            ci < cj && Nonce(ci).Ok? && Nonce(cj).Ok? && Nonce(ci) != Nonce(cj)
  {
    hide Nonce, Transmit, Seals;
    var (ci, cj) := (CounterAfter(aead, outs[..i]), CounterAfter(aead, outs[..j]));
    assert outs[..j][..i] == outs[..i] && outs[..j][i] == outs[i];
    CounterGrows(aead, outs[..j], i);
    SealedExactly(aead, ci, outs[i]);
    SealedExactly(aead, cj, outs[j]);
    NonceDefined(ci);
    NonceDefined(cj);
    if Nonce(ci) == Nonce(cj) { NonceIsInjective(ci, cj); }
  }

  /** A fresh epoch finds an honest sender: any counter in the first `span` 2^16-blocks from the base's own block. */
  lemma {:induction false} FreshEpochIsCovered(setup: Setup, c: int)
    requires setup.base - setup.base % M16 <= c < setup.base - setup.base % M16 + Scan(setup.span) * M16
    ensures InWindow(setup, None, c)
  {
    CandidatesAre(c % M16, setup.base, setup.span, None);
    var start := setup.base - setup.base % M16;
    assert (c - c % M16 - start) % M16 == 0;
    BlockIndex(c - c % M16 - start, c - start, Scan(setup.span));
  }

  lemma BlockIndex(a: int, d: int, n: nat)
    requires a % M16 == 0 && 0 <= d < n * M16 && a <= d < a + M16
    ensures a >= 0 && a / M16 < n
  {}
}
