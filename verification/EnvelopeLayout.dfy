/**
 * The application envelope block by block: which clear block each block on the wire encrypts, and how it is chained.
 */
module EnvelopeLayout {
  import opened Results
  import opened Bytes
  import opened Envelope
  import Bits

  function BlockAt(data: Octets, i: nat): (block: Octets)
    requires 16 * i + 16 <= |data|
    ensures |block| == 16
  {
    data[16 * i..16 * i + 16]
  }

  lemma BlockOfTail(data: Octets, i: nat)
    requires 16 * i + 32 <= |data|
    ensures BlockAt(data[16..], i) == BlockAt(data, i + 1)
  {}

  // ---- the shuffle ------------------------------------------------------------------------

  lemma {:induction false} ReverseAt(data: Octets, i: nat)
    requires |data| % 16 == 0 && 16 * i + 16 <= |data|
    ensures BlockAt(ReverseBlocks(data), i) == BlockAt(data, |data| / 16 - 1 - i)
    decreases |data|
  {
    var (n, rest) := (|data| / 16, data[16..]);
    assert ReverseBlocks(data) == ReverseBlocks(rest) + data[..16];
    if i == n - 1 {
      assert BlockAt(ReverseBlocks(data), i) == data[..16];
    } else {
      ReverseAt(rest, i);
      BlockOfTail(data, n - 2 - i);
      assert BlockAt(ReverseBlocks(data), i) == BlockAt(ReverseBlocks(rest), i);
    }
  }

  /** Of n blocks the first stays in place, and block i changes places with block n - i. */
  lemma {:induction false} ShuffleAt(data: Octets, i: nat)
    requires |data| % 16 == 0 && 16 * i + 16 <= |data|
    ensures |Shuffle(data)| == |data|
    ensures BlockAt(Shuffle(data), i) == if i == 0 then BlockAt(data, 0) else BlockAt(data, |data| / 16 - i)
  {
    var (n, rest) := (|data| / 16, data[16..]);
    if i > 0 {
      ReverseAt(rest, i - 1);
      BlockOfTail(data, n - 1 - i);
      assert BlockAt(Shuffle(data), i) == BlockAt(ReverseBlocks(rest), i - 1);
    }
  }

  // ---- chaining ---------------------------------------------------------------------------

  /** Every block is encrypted after it was xored with the encrypted block before it, the first with the IV. */
  lemma {:induction false} CbcAt(c: BlockCipher, key: Octets, iv: Octets, data: Octets, i: nat)
    requires c.Valid() && |key| == 16 && |iv| == 16 && |data| % 16 == 0 && 16 * i + 16 <= |data|
    ensures var r := CbcEncrypt(c, key, iv, data);
            BlockAt(r, i) == c.E(key, XorBlock(BlockAt(data, i), if i == 0 then iv else BlockAt(r, i - 1)))
    decreases i
  {
    var block := c.E(key, XorBlock(data[..16], iv));
    var rest := CbcEncrypt(c, key, block, data[16..]);
    var r := CbcEncrypt(c, key, iv, data);
    assert r == block + rest;
    assert BlockAt(r, 0) == block && BlockAt(data, 0) == data[..16];
    if i > 0 {
      CbcAt(c, key, block, data[16..], i - 1);
      BlockOfTail(data, i - 1);
      assert r[16..] == rest;
      BlockOfTail(r, i - 1);
      if i > 1 { BlockOfTail(r, i - 2); }
    }
  }

  lemma {:induction false} XorWithZero(block: Octets)
    requires |block| == 16
    ensures XorBlock(block, ZeroIv()) == block
  {
    forall i | 0 <= i < 16 ensures XorBlock(block, ZeroIv())[i] == block[i] {
      Bits.XorZero(block[i]);
    }
  }

  /**
   * What goes over the wire: block 0 is the encryption of the first clear block. Every later one is the encryption of
   * the clear block in the same place xored with the wire block behind it, the last one with wire block 0.
   */
  lemma {:induction false} WireBlocks(c: BlockCipher, payload: Octets, key: Octets, noise: Octets, n: nat, i: nat)
    requires c.Valid() && |key| == 16 && |noise| == Padding(|payload|) + 2
    requires |Clear(payload, noise)| == 16 * n && i < n
    ensures Encrypt(c, payload, key, noise).Ok? && |Encrypt(c, payload, key, noise).value| == 16 * n
    ensures var (clear, wire) := (Clear(payload, noise), Encrypt(c, payload, key, noise).value);
            BlockAt(wire, i)
            == if i == 0 then c.E(key, BlockAt(clear, 0))
               else c.E(key, XorBlock(BlockAt(clear, i), BlockAt(wire, if i == n - 1 then 0 else i + 1)))
  {
    hide Clear, CbcEncrypt, Shuffle, XorBlock, Padding, BlockAt;
    var clear := Clear(payload, noise);
    var chained := CbcEncrypt(c, key, ZeroIv(), Shuffle(clear));
    assert |clear| / 16 == n;
    ShuffleAt(clear, 0);
    ShuffleAt(chained, i);
    ShuffleAt(chained, 0);
    if i == 0 {
      CbcAt(c, key, ZeroIv(), Shuffle(clear), 0);
      XorWithZero(BlockAt(clear, 0));
    } else {
      CbcAt(c, key, ZeroIv(), Shuffle(clear), n - i);
      ShuffleAt(clear, n - i);
      if i < n - 1 { ShuffleAt(chained, i + 1); }
    }
  }

  // ---- the clear text -----------------------------------------------------------------------

  lemma WordOfBytes(v: nat)
    requires v < 0x1_0000_0000
    ensures v == v % 256 + 0x100 * (v / 0x100 % 256) + 0x1_0000 * (v / 0x1_0000 % 256)
                 + 0x100_0000 * (v / 0x100_0000 % 256)
  {
    assert v / 0x1_0000 == v / 0x100 / 256 && v / 0x100_0000 == v / 0x1_0000 / 256;
  }

  lemma NoiseNibble(b: Byte, padding: nat)
    requires padding < 16
    ensures (b / 16 * 16 + padding) % 16 == padding && (b / 16 * 16 + padding) / 16 == b / 16
  {}

  /** Checksum, a noise byte, noise over the padding length, the padding, and the payload at the end. */
  lemma {:induction false} ClearLayout(payload: Octets, noise: Octets)
    requires |noise| == Padding(|payload|) + 2
    ensures var (clear, padding) := (Clear(payload, noise), 15 - (|payload| + 5) % 16);
            && |noise| == padding + 2 && |clear| == 6 + padding + |payload| && |clear| % 16 == 0
            && Checksum(clear[4..])
               == clear[0] as int + 0x100 * clear[1] as int + 0x1_0000 * clear[2] as int + 0x100_0000 * clear[3] as int
            && clear[4] == noise[0] && clear[5] % 16 == padding && clear[5] / 16 == noise[1] / 16
            && clear[6..6 + padding] == noise[2..] && clear[6 + padding..] == payload
  {
    hide Le, Checksum;
    var (clear, content) := (Clear(payload, noise), Content(payload, noise));
    ChecksumIsWord(content);
    FourBytes(Checksum(content));
    WordOfBytes(Checksum(content));
    NoiseNibble(noise[1], Padding(|payload|));
    assert clear[4..] == content && clear[..4] == Le(Checksum(content), 4);
    assert clear[5] == content[1];
  }

  // ---- the checksum ---------------------------------------------------------------------------

  /** The rolling state after some bytes, and what their last byte adds to the checksum. */
  function Rolling(data: Octets): (r: nat)
    ensures r < 0x1_0000
    decreases |data|, 0
  {
    if data == [] then 55665 else
    var (front, last) := (data[..|data| - 1], data[|data| - 1]);
    ((Added(front, last) + Rolling(front)) * 52845 + 22719) % 0x1_0000
  }

  function Added(front: Octets, last: Byte): nat
    decreases |front|, 1
  {
    Bits.Xor(last, Rolling(front) / 256)
  }

  function Sum(data: Octets): nat {
    if data == [] then 0 else Sum(data[..|data| - 1]) + Added(data[..|data| - 1], data[|data| - 1])
  }

  lemma TransformedIs(value: Byte, rolling: nat)
    requires rolling < 0x1_0000
    ensures Transformed(value, rolling) == Bits.Xor(value, rolling / 256)
  {
    hide Bits.Xor;
    assert Bits.Pow2(8) == 256 by { assert Bits.Pow2(5) == 32; }
    Bits.XorBound(value, rolling / 256, 8);
  }

  lemma {:induction false} ChecksumOfTwo(front: Octets, data: Octets)
    ensures Checksum(front + data) == ChecksumFrom(data, Rolling(front), Sum(front) % 0x1_0000_0000)
    decreases |front|
  {
    hide ChecksumFrom, Bits.Xor;
    if front == [] {
      assert front + data == data;
    } else {
      var (less, last) := (front[..|front| - 1], front[|front| - 1]);
      assert front + data == less + ([last] + data) && ([last] + data)[1..] == data;
      ChecksumOfTwo(less, [last] + data);
      TransformedIs(last, Rolling(less));
      StepOnce(last, data, Rolling(less), Sum(less) % 0x1_0000_0000);
      SumWraps(Sum(less), Added(less, last));
    }
  }

  lemma StepOnce(value: Byte, rest: Octets, rolling: nat, checksum: nat)
    requires rolling < 0x1_0000
    ensures var t := Bits.Xor(value, rolling / 256);
            ChecksumFrom([value] + rest, rolling, checksum)
            == ChecksumFrom(rest, ((t + rolling) * 52845 + 22719) % 0x1_0000, (checksum + t) % 0x1_0000_0000)
  {
    hide Bits.Xor, Transformed;
    TransformedIs(value, rolling);
    assert ([value] + rest)[1..] == rest;
  }

  lemma SumWraps(a: nat, b: nat)
    ensures (a % 0x1_0000_0000 + b) % 0x1_0000_0000 == (a + b) % 0x1_0000_0000
  {}

  /** The checksum is the sum of the bytes, each xored with the upper half of the rolling state before it. */
  lemma {:induction false} ChecksumIsSum(data: Octets)
    ensures Checksum(data) == Sum(data) % 0x1_0000_0000
  {
    ChecksumOfTwo(data, []);
    assert data + [] == data;
  }
}
