/** The bytes of varuints and of the 0x92 packet, place by place. */
module VarintLayout {
  import opened Results
  import opened Bytes
  import opened Bits
  import opened Varint

  /** What groups of seven bits say, lowest first. */
  function Value(s: Octets): nat {
    if s == [] then 0 else s[0] % 128 + 128 * Value(s[1..])
  }

  /**
   * The varuint of v: seven bits a byte, lowest first, 128 or more on all but the last, and no zero byte at the end.
   */
  lemma {:induction false} LebLayout(v: nat)
    ensures var (s, n) := (Leb(v), |Leb(v)|);
            && Value(s) == v && (forall i | 0 <= i < n - 1 :: s[i] >= 128)
            && s[n - 1] < 128 && (n > 1 ==> s[n - 1] != 0)
  {
    if v >= 128 {
      LebLayout(v / 128);
      assert Leb(v)[1..] == Leb(v / 128);
    }
  }

  /** A varuint ends at the first byte below 128, which is one of the first ten, and the tenth is 0 or 1. */
  predicate EndsAt(data: Octets, n: nat) {
    n < |data| && n < 10 && (forall i | 0 <= i < n :: data[i] >= 128) && data[n] < 128 && (n == 9 ==> data[9] <= 1)
  }

  /** From any place on. */
  predicate EndsFrom(data: Octets, index: nat, n: nat) {
    n < |data| && n + index < 10 && (forall i | 0 <= i < n :: data[i] >= 128) && data[n] < 128
    && (n + index == 9 ==> data[n] <= 1)
  }

  lemma EndsLater(data: Octets, index: nat, n: nat)
    requires data != [] && data[0] >= 128 && n > 0
    ensures EndsFrom(data, index, n) <==> EndsFrom(data[1..], index + 1, n - 1)
  {
    if EndsFrom(data[1..], index + 1, n - 1) {
      forall i | 0 <= i < n ensures data[i] >= 128 { if i > 0 { assert data[i] == data[1..][i - 1]; } }
    }
  }

  lemma ScanOnce(data: Octets, index: nat)
    requires data != [] && index < 10
    ensures data[0] < 128 ==>
              Scan(data, index) == if index == 9 && data[0] > 1 then Err(ValueError) else Ok(Cut(data[0], data[1..]))
    ensures data[0] >= 128 && index == 9 ==> Scan(data, index) == Err(ValueError)
    ensures data[0] >= 128 && index < 9 ==>
              var more := Scan(data[1..], index + 1);
              Scan(data, index) == if more.Err? then Err(ValueError)
                                   else Ok(Cut(data[0] - 128 + 128 * more.value.value, more.value.rest))
  {}

  lemma {:induction false} ScanFrom(data: Octets, index: nat, n: nat)
    requires EndsFrom(data, index, n)
    ensures Scan(data, index) == Ok(Cut(Value(data[..n + 1]), data[n + 1..]))
    decreases n
  {
    hide Scan;
    ScanOnce(data, index);
    if n == 0 {
      assert data[..1] == [data[0]];
    } else {
      EndsLater(data, index, n);
      ScanFrom(data[1..], index + 1, n - 1);
      assert data[..n + 1] == [data[0]] + data[1..][..n] && data[1..][n..] == data[n + 1..];
    }
  }

  lemma {:induction false} ScanEnds(data: Octets, index: nat) returns (n: nat)
    requires Scan(data, index).Ok?
    ensures EndsFrom(data, index, n)
    decreases |data|
  {
    hide Scan;
    ScanOpens(data, index);
    ScanOnce(data, index);
    if data[0] < 128 {
      n := 0;
    } else {
      n := ScanEnds(data[1..], index + 1);
      n := n + 1;
      EndsLater(data, index, n);
    }
  }

  /** Which bytes are read as a varuint, as which number, and how far. */
  lemma {:induction false} ScanLayout(data: Octets)
    ensures Lenient(data).Ok? <==> exists n: nat :: EndsAt(data, n)
    ensures forall n: nat | EndsAt(data, n) :: Lenient(data) == Ok(Cut(Value(data[..n + 1]), data[n + 1..]))
  {
    hide Scan, Value;
    forall n: nat | EndsAt(data, n) ensures Lenient(data) == Ok(Cut(Value(data[..n + 1]), data[n + 1..])) {
      assert EndsFrom(data, 0, n);
      ScanFrom(data, 0, n);
    }
    if Lenient(data).Ok? {
      var n := ScanEnds(data, 0);
      assert EndsAt(data, n);
    }
  }

  // ---- the 0x92 packet ----------------------------------------------------------------------

  /** 0x92, then twice the packed number as an int64, or for a negative one twice its size less 1. */
  lemma {:induction false} PlaceLayout(random: Word, profile: Word)
    ensures BuildFromBits(random, profile).Ok? && Xor(random, profile) < M32
    ensures var packed := random * 0x1_0000_0000 + Xor(random, profile);
            BuildFromBits(random, profile).value
            == [0x92] + Leb(if packed < 0x8000_0000_0000_0000 then 2 * packed
                            else 2 * (0x1_0000_0000_0000_0000 - packed) - 1)
  {
    hide ZigzagBits, Leb, Xor;
    Modular.WordXor(random, profile);
    ZigzagsAgree(Packed(random, profile));
  }

  /** The strict parser accepts exactly the packets that are built from the two words it returns. */
  lemma {:induction false} PlaceExactly(packet: Octets)
    ensures ParseStrict(packet).Ok? <==>
              exists random: Word, profile: Word :: BuildFromBits(random, profile) == Ok(packet)
    ensures ParseStrict(packet).Ok? ==>
              var place := ParseStrict(packet).value; BuildFromBits(place.random, place.profile) == Ok(packet)
  {
    hide BuildFromBits, ParseStrict;
    if ParseStrict(packet).Ok? {
      AcceptedIsBuilt(packet);
    }
    forall random: Word, profile: Word | BuildFromBits(random, profile) == Ok(packet) ensures ParseStrict(packet).Ok? {
      ParsersInvertBuilders(random, profile, profile);
    }
  }

  lemma {:induction false} AcceptedIsBuilt(packet: Octets)
    requires ParseStrict(packet).Ok?
    ensures var place := ParseStrict(packet).value;
            && IsWord(place.random) && IsWord(place.profile)
            && BuildFromBits(place.random, place.profile) == Ok(packet)
  {
    hide ZigzagBits, UnzigzagBits, Leb, Xor, Scan, Strict;
    var read := Strict(packet[1..]).value;
    StrictIsInverse(packet[1..], read.value, read.rest);
    assert Leb(read.value) + [] == Leb(read.value) && packet == [packet[0]] + packet[1..];
    ZigzagIsBijective(read.value);
    PackedAgain(UnzigzagBits(read.value));
  }

  lemma {:induction false} PackedAgain(packed: Word64)
    ensures var place := Unpacked(packed);
            IsWord(place.random) && IsWord(place.profile) && Packed(place.random, place.profile) == packed
  {
    hide Xor;
    var (random, low) := (packed / M32, packed % M32);
    Modular.WordXor(low, random);
    XorCommutes(random, Xor(low, random));
    XorCancels(low, random);
  }
}
