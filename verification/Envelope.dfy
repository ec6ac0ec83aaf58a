/** The inner application envelope: block shuffle, CBC with a zero IV, rolling checksum and padding. */
module Envelope {
  import opened Results
  import opened Bytes
  import Bits

  const BLOCK := 16

  /** The block cipher library, one permutation of the 16-byte blocks per key. */
  datatype BlockCipher = BlockCipher(encrypt: (Octets, Octets) -> Octets, decrypt: (Octets, Octets) -> Octets) {
    ghost predicate Permutes(key: Octets, block: Octets) {
      |key| == BLOCK && |block| == BLOCK ==>
        && |encrypt(key, block)| == BLOCK && decrypt(key, encrypt(key, block)) == block
        && |decrypt(key, block)| == BLOCK && encrypt(key, decrypt(key, block)) == block
    }

    ghost predicate Valid() {
      forall key, block :: Permutes(key, block)
    }

    function E(key: Octets, block: Octets): (r: Octets)
      requires Valid() && |key| == BLOCK && |block| == BLOCK
      ensures |r| == BLOCK
    {
      assert Permutes(key, block);
      encrypt(key, block)
    }

    function D(key: Octets, block: Octets): (r: Octets)
      requires Valid() && |key| == BLOCK && |block| == BLOCK
      ensures |r| == BLOCK
    {
      assert Permutes(key, block);
      decrypt(key, block)
    }

    lemma Inverse(key: Octets, block: Octets)
      requires Valid() && |key| == BLOCK && |block| == BLOCK
      ensures D(key, E(key, block)) == block && E(key, D(key, block)) == block
    {
      assert Permutes(key, block);
    }
  }

  predicate WholeBlocks(data: Octets) {
    |data| % BLOCK == 0
  }

  // ---- shuffle ----------------------------------------------------------------------

  function ReverseBlocks(data: Octets): (r: Octets)
    requires WholeBlocks(data)
    ensures |r| == |data|
  {
    if data == [] then [] else ReverseBlocks(data[BLOCK..]) + data[..BLOCK]
  }

  /** Block zero stays, every later block is reversed. */
  function Shuffle(data: Octets): (r: Octets)
    requires WholeBlocks(data) && data != []
    ensures |r| == |data|
  {
    data[..BLOCK] + ReverseBlocks(data[BLOCK..])
  }

  lemma {:induction false} ReverseOfConcat(a: Octets, b: Octets)
    requires WholeBlocks(a) && WholeBlocks(b)
    ensures WholeBlocks(a + b) && ReverseBlocks(a + b) == ReverseBlocks(b) + ReverseBlocks(a)
  {
    if a == [] {
      assert a + b == b;
    } else {
      ReverseOfConcat(a[BLOCK..], b);
      assert (a + b)[BLOCK..] == a[BLOCK..] + b && (a + b)[..BLOCK] == a[..BLOCK];
    }
  }

  lemma {:induction false} ReverseTwice(data: Octets)
    requires WholeBlocks(data)
    ensures ReverseBlocks(ReverseBlocks(data)) == data
  {
    if data != [] {
      var (first, rest) := (data[..BLOCK], data[BLOCK..]);
      ReverseTwice(rest);
      ReverseOfConcat(ReverseBlocks(rest), first);
      assert first[BLOCK..] == [] && first[..BLOCK] == first;
    }
  }

  lemma {:induction false} ShuffleTwice(data: Octets)
    requires WholeBlocks(data) && data != []
    ensures Shuffle(Shuffle(data)) == data
  {
    ReverseTwice(data[BLOCK..]);
    assert Shuffle(data)[..BLOCK] == data[..BLOCK] && Shuffle(data)[BLOCK..] == ReverseBlocks(data[BLOCK..]);
  }

  // ---- cipher block chaining (section 6.2 of NIST SP 800-38A) ----------------------------------

  function XorByte(a: Byte, b: Byte): Byte {
    Bits.XorBound(a, b, 8);
    Bits.Xor(a, b)
  }

  function XorBlock(a: Octets, b: Octets): (r: Octets)
    requires |a| == |b|
    ensures |r| == |a|
  {
    seq(|a|, i requires 0 <= i < |a| => XorByte(a[i], b[i]))
  }

  lemma {:induction false} XorBlockCancels(a: Octets, b: Octets)
    requires |a| == |b|
    ensures XorBlock(XorBlock(a, b), b) == a
  {
    forall i | 0 <= i < |a| ensures XorBlock(XorBlock(a, b), b)[i] == a[i] {
      Bits.XorCancels(a[i], b[i]);
    }
  }

  function CbcEncrypt(c: BlockCipher, key: Octets, iv: Octets, data: Octets): (r: Octets)
    requires c.Valid() && |key| == BLOCK && |iv| == BLOCK && WholeBlocks(data)
    ensures |r| == |data|
    decreases |data|
  {
    if data == [] then [] else
    var block := c.E(key, XorBlock(data[..BLOCK], iv));
    block + CbcEncrypt(c, key, block, data[BLOCK..])
  }

  function CbcDecrypt(c: BlockCipher, key: Octets, iv: Octets, data: Octets): (r: Octets)
    requires c.Valid() && |key| == BLOCK && |iv| == BLOCK && WholeBlocks(data)
    ensures |r| == |data|
    decreases |data|
  {
    if data == [] then [] else
    XorBlock(c.D(key, data[..BLOCK]), iv) + CbcDecrypt(c, key, data[..BLOCK], data[BLOCK..])
  }

  lemma {:induction false} CbcInverts(c: BlockCipher, key: Octets, iv: Octets, data: Octets)
    requires c.Valid() && |key| == BLOCK && |iv| == BLOCK && WholeBlocks(data)
    ensures CbcDecrypt(c, key, iv, CbcEncrypt(c, key, iv, data)) == data
    decreases |data|
  {
    if data != [] {
      var block := c.E(key, XorBlock(data[..BLOCK], iv));
      var rest := CbcEncrypt(c, key, block, data[BLOCK..]);
      assert (block + rest)[..BLOCK] == block && (block + rest)[BLOCK..] == rest;
      c.Inverse(key, XorBlock(data[..BLOCK], iv));
      XorBlockCancels(data[..BLOCK], iv);
      CbcInverts(c, key, block, data[BLOCK..]);
    }
  }

  lemma {:induction false} CbcInvertsBack(c: BlockCipher, key: Octets, iv: Octets, data: Octets)
    requires c.Valid() && |key| == BLOCK && |iv| == BLOCK && WholeBlocks(data)
    ensures CbcEncrypt(c, key, iv, CbcDecrypt(c, key, iv, data)) == data
    decreases |data|
  {
    if data != [] {
      var block := data[..BLOCK];
      var clear := XorBlock(c.D(key, block), iv);
      var rest := CbcDecrypt(c, key, block, data[BLOCK..]);
      assert (clear + rest)[..BLOCK] == clear && (clear + rest)[BLOCK..] == rest;
      c.Inverse(key, block);
      XorBlockCancels(c.D(key, block), iv);
      CbcInvertsBack(c, key, block, data[BLOCK..]);
    }
  }

  // ---- checksum -----------------------------------------------------------------------

  function Transformed(value: Byte, rolling: nat): nat {
    Bits.Xor(value, Bits.Shr(rolling, 8)) % 256
  }

  function Roll(value: Byte, rolling: nat): nat {
    ((Transformed(value, rolling) + rolling) * 52845 + 22719) % 0x1_0000
  }

  /** The checksum of the bytes to come, from a given state of the two accumulators. */
  function ChecksumFrom(data: Octets, rolling: nat, checksum: nat): nat
    decreases |data|
  {
    if data == [] then checksum else
    ChecksumFrom(data[1..], Roll(data[0], rolling), (checksum + Transformed(data[0], rolling)) % 0x1_0000_0000)
  }

  function Checksum(data: Octets): nat {
    ChecksumFrom(data, 55665, 0)
  }

  lemma {:induction false} ChecksumFits(data: Octets, rolling: nat, checksum: nat)
    requires checksum < 0x1_0000_0000
    ensures ChecksumFrom(data, rolling, checksum) < 0x1_0000_0000
    decreases |data|
  {
    hide Roll, Transformed;
    if data != [] {
      ChecksumFits(data[1..], Roll(data[0], rolling), (checksum + Transformed(data[0], rolling)) % 0x1_0000_0000);
    }
  }

  method ApplicationChecksum(data: Octets) returns (checksum: nat)
    ensures checksum == Checksum(data)
  {
    hide Bits.Xor, Bits.Shr;
    var rolling := 55665;
    checksum := 0;
    assert data[0..] == data;
    for i := 0 to |data|
      invariant ChecksumFrom(data[i..], rolling, checksum) == Checksum(data)
    {
      assert data[i..][0] == data[i] && data[i..][1..] == data[i + 1..];
      var transformed := Transformed(data[i], rolling);
      rolling := ((transformed + rolling) * 52845 + 22719) % 0x1_0000;
      checksum := (checksum + transformed) % 0x1_0000_0000;
    }
  }

  // ---- the envelope -------------------------------------------------------------------

  function Padding(size: nat): (padding: nat)
    ensures padding < 16
    ensures (6 + padding + size) % BLOCK == 0
  {
    15 - (size + 5) % 16
  }

  function ZeroIv(): (iv: Octets)
    ensures |iv| == BLOCK
  {
    seq(BLOCK, _ => 0)
  }

  /** Everything behind the checksum: one noise byte, noise and padding length, padding, payload. */
  function Content(payload: Octets, noise: Octets): Octets
    requires |noise| == Padding(|payload|) + 2
  {
    [noise[0], noise[1] / 16 * 16 + Padding(|payload|)] + noise[2..] + payload
  }

  function Clear(payload: Octets, noise: Octets): (clear: Octets)
    requires |noise| == Padding(|payload|) + 2
    ensures WholeBlocks(clear) && clear != []
  {
    Le(Checksum(Content(payload, noise)), 4) + Content(payload, noise)
  }

  function Encrypt(c: BlockCipher, payload: Octets, key: Octets, noise: Octets): Result<Octets>
    requires c.Valid()
  {
    if |key| != BLOCK then Err(ValueError)
    else if |noise| != Padding(|payload|) + 2 then Err(ValueError)
    else Ok(Shuffle(CbcEncrypt(c, key, ZeroIv(), Shuffle(Clear(payload, noise)))))
  }

  function Open(clear: Octets): Result<Octets>
    requires WholeBlocks(clear) && clear != []
  {
    var padding := clear[5] % 16;
    if FromLe(clear[..4]) != Checksum(clear[4..]) then Err(ValueError)
    else if 6 + padding > |clear| then Err(ValueError)
    else Ok(clear[6 + padding..])
  }

  function Decrypt(c: BlockCipher, ciphertext: Octets, key: Octets): Result<Octets>
    requires c.Valid()
  {
    if |key| != BLOCK then Err(ValueError)
    else if |ciphertext| < BLOCK || |ciphertext| % BLOCK != 0 then Err(ValueError)
    else Open(Shuffle(CbcDecrypt(c, key, ZeroIv(), Shuffle(ciphertext))))
  }

  lemma {:induction false} OpenInvertsClear(payload: Octets, noise: Octets)
    requires |noise| == Padding(|payload|) + 2
    ensures Open(Clear(payload, noise)) == Ok(payload)
  {
    hide Le, FromLe, Checksum, Padding;
    var (clear, content) := (Clear(payload, noise), Content(payload, noise));
    assert clear[..4] == Le(Checksum(content), 4) && clear[4..] == content && clear[5] == content[1];
    ChecksumIsWord(content);
    Pow256Values();
    LeThenFromLe(Checksum(content), 4);
    assert content[1] % 16 == Padding(|payload|);
    assert clear[6 + Padding(|payload|)..] == payload;
  }

  lemma ChecksumIsWord(data: Octets)
    ensures Checksum(data) < 0x1_0000_0000
  {
    ChecksumFits(data, 55665, 0);
  }

  /** Whatever the noise, decryption returns the payload that was encrypted. */
  lemma {:induction false} DecryptInvertsEncrypt(c: BlockCipher, payload: Octets, key: Octets, noise: Octets)
    requires c.Valid()
    ensures Encrypt(c, payload, key, noise).Ok? <==> |key| == BLOCK && |noise| == Padding(|payload|) + 2
    ensures var sealed := Encrypt(c, payload, key, noise);
            if sealed.Ok? then Decrypt(c, sealed.value, key) == Ok(payload) else sealed == Err(ValueError)
  {
    hide Open, CbcEncrypt, CbcDecrypt, Shuffle, Clear;
    if Encrypt(c, payload, key, noise).Ok? {
      var clear := Clear(payload, noise);
      ShuffleTwice(clear);
      ShuffleTwice(CbcEncrypt(c, key, ZeroIv(), Shuffle(clear)));
      CbcInverts(c, key, ZeroIv(), Shuffle(clear));
      OpenInvertsClear(payload, noise);
    }
  }

  /** The hypothesis on the cipher is not empty: adding the key byte by byte meets it. */
  lemma {:induction false} CipherIsPossible() returns (c: BlockCipher)
    ensures c.Valid()
    ensures exists key: Octets, block: Octets :: |key| == |block| == BLOCK && c.encrypt(key, block) != block
  {
    c := BlockCipher((key, block) => AddBytes(block, key, 1), (key, block) => AddBytes(block, key, -1));
    forall key, block ensures c.Permutes(key, block) {
      if |key| == BLOCK && |block| == BLOCK {
        AddBytesUndone(block, key, 1);
        AddBytesUndone(block, key, -1);
      }
    }
    var key: Octets, block: Octets := seq(BLOCK, _ => 1), seq(BLOCK, _ => 0);
    assert c.encrypt(key, block)[0] == 1;
  }

  function AddBytes(block: Octets, key: Octets, sign: int): (r: Octets)
    ensures |r| == |block|
    ensures |key| == |block| ==> forall i | 0 <= i < |r| :: r[i] == (block[i] + sign * key[i]) % 256
  {
    if |key| != |block| then block
    else seq(|block|, i requires 0 <= i < |block| => (block[i] + sign * key[i]) % 256)
  }

  lemma AddBytesUndone(block: Octets, key: Octets, sign: int)
    requires |key| == |block| && (sign == 1 || sign == -1)
    ensures AddBytes(AddBytes(block, key, sign), key, -sign) == block
  {
    var r := AddBytes(block, key, sign);
    forall i | 0 <= i < |block| ensures AddBytes(r, key, -sign)[i] == block[i] {
      ByteUndone(block[i], sign * key[i]);
    }
  }

  lemma ByteUndone(b: Byte, k: int)
    ensures ((b + k) % 256 - k) % 256 == b
  {}

  /** A clear text that opens is the clear text of its payload and of the noise still in it. */
  lemma {:induction false} ClearOfOpened(clear: Octets) returns (noise: Octets)
    requires WholeBlocks(clear) && clear != [] && Open(clear).Ok?
    ensures var payload := Open(clear).value;
            |noise| == Padding(|payload|) + 2 && Clear(payload, noise) == clear
  {
    hide Le, FromLe, Checksum;
    var padding := clear[5] % 16;
    var payload := clear[6 + padding..];
    noise := clear[4..6 + padding];
    assert Padding(|payload|) == padding;
    assert noise[1] == clear[5] && noise[1] / 16 * 16 + padding == clear[5];
    assert Content(payload, noise) == clear[4..];
    FromLeThenLe(clear[..4]);
    assert clear == clear[..4] + clear[4..];
  }

  /** Decryption accepts nothing else: every accepted ciphertext is an encryption of the payload it yields. */
  lemma {:induction false} AcceptedIsEncrypted(c: BlockCipher, ciphertext: Octets, key: Octets) returns (noise: Octets)
    requires c.Valid() && Decrypt(c, ciphertext, key).Ok?
    ensures Encrypt(c, Decrypt(c, ciphertext, key).value, key, noise) == Ok(ciphertext)
  {
    hide Open, CbcEncrypt, CbcDecrypt, Shuffle, Clear;
    var shuffled := CbcDecrypt(c, key, ZeroIv(), Shuffle(ciphertext));
    noise := ClearOfOpened(Shuffle(shuffled));
    ShuffleTwice(shuffled);
    CbcInvertsBack(c, key, ZeroIv(), Shuffle(ciphertext));
    ShuffleTwice(ciphertext);
  }

  /** The bytearray that encrypt_application_envelope fills before it encrypts. */
  method FillClear(payload: Octets, noise: Octets) returns (clear: array<Byte>)
    requires |noise| == Padding(|payload|) + 2
    ensures fresh(clear) && clear[..] == Clear(payload, noise)
  {
    hide Le, Checksum, Padding;
    var padding := Padding(|payload|);
    clear := new Byte[6 + padding + |payload|](_ => 0);
    clear[4] := noise[0];
    clear[5] := noise[1] / 16 * 16 + padding;
    forall i | 0 <= i < padding {
      clear[6 + i] := noise[2 + i];
    }
    forall i | 0 <= i < |payload| {
      clear[6 + padding + i] := payload[i];
    }
    assert clear[4..] == Content(payload, noise);
    var checksum := ApplicationChecksum(clear[4..]);
    var prefix := Le(checksum, 4);
    forall i | 0 <= i < 4 {
      clear[i] := prefix[i];
    }
    assert clear[4..] == Content(payload, noise);
    assert clear[..4] == prefix;
  }

  method EncryptApplicationEnvelope(c: BlockCipher, payload: Octets, key: Octets, noise: Octets)
    returns (r: Result<Octets>)
    requires c.Valid()
    ensures r == Encrypt(c, payload, key, noise)
  {
    hide Clear, CbcEncrypt, Shuffle;
    if |key| != BLOCK || |noise| != Padding(|payload|) + 2 {
      return Err(ValueError);
    }
    var clear := FillClear(payload, noise);
    r := Ok(Shuffle(CbcEncrypt(c, key, ZeroIv(), Shuffle(clear[..]))));
  }
}
