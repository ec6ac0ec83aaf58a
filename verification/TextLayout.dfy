/** UTF-8 read from the side of the characters: the byte strings accepted as text are the encodings of scalar values. */
module TextLayout {
  import opened Bytes

  /** A Unicode scalar value: any code point that is not a surrogate. */
  predicate Scalar(c: nat) {
    c < 0xD800 || 0xE000 <= c < 0x11_0000
  }

  /** The one to four bytes of a scalar value, six bits in each but the first (table 3-6 of the Unicode Standard). */
  function Encoded(c: nat): (s: Octets)
    requires Scalar(c)
  {
    if c < 0x80 then [c]
    else if c < 0x800 then [0xC0 + c / 0x40, 0x80 + c % 0x40]
    else if c < 0x1_0000 then [0xE0 + c / 0x1000, 0x80 + c / 0x40 % 0x40, 0x80 + c % 0x40]
    else [0xF0 + c / 0x4_0000, 0x80 + c / 0x1000 % 0x40, 0x80 + c / 0x40 % 0x40, 0x80 + c % 0x40]
  }

  predicate Scalars(text: seq<nat>) {
    forall c | c in text :: Scalar(c)
  }

  function EncodedAll(text: seq<nat>): Octets
    requires Scalars(text)
  {
    if text == [] then [] else
    assert text[0] in text;
    Encoded(text[0]) + EncodedAll(text[1..])
  }

  lemma {:induction false} OneMore(c: nat, rest: Octets)
    requires Scalar(c) && Utf8(rest)
    ensures Utf8(Encoded(c) + rest)
  {
    hide Utf8;
    Behind(Encoded(c), rest);
    if c < 0x80 {
      OneByte(Encoded(c) + rest);
    } else if c < 0x800 {
      TwoContinue(Encoded(c) + rest);
    } else if c < 0x1_0000 {
      ThreeContinue(Encoded(c) + rest);
    } else {
      FourContinue(Encoded(c) + rest);
    }
  }

  lemma Behind(front: Octets, rest: Octets)
    requires front != []
    ensures (front + rest)[1..][|front| - 1..] == rest && (front + rest)[1..] == front[1..] + rest
    ensures forall i | 0 <= i < |front| :: (front + rest)[i] == front[i]
  {}

  lemma OneByte(s: Octets)
    requires s != [] && s[0] < 0x80 && Utf8(s[1..])
    ensures Utf8(s)
  {}

  lemma TwoContinue(s: Octets)
    requires |s| >= 2 && Utf8(s[1..][1..]) && 0xC2 <= s[0] <= 0xDF && 0x80 <= s[1] <= 0xBF
    ensures Utf8(s)
  {
    assert Continues(s[1..], 1, 0x80, 0xBF);
  }

  lemma ThreeContinue(s: Octets)
    requires |s| >= 3 && Utf8(s[1..][2..]) && 0xE0 <= s[0] <= 0xEF && 0x80 <= s[1] <= 0xBF && 0x80 <= s[2] <= 0xBF
    requires (s[0] == 0xE0 ==> s[1] >= 0xA0) && (s[0] == 0xED ==> s[1] <= 0x9F)
    ensures Utf8(s)
  {
    var low: Byte := if s[0] == 0xE0 then 0xA0 else 0x80;
    var high: Byte := if s[0] == 0xED then 0x9F else 0xBF;
    assert Continues(s[1..], 2, low, high);
  }

  lemma FourContinue(s: Octets)
    requires |s| >= 4 && Utf8(s[1..][3..]) && 0xF0 <= s[0] <= 0xF4
    requires 0x80 <= s[1] <= 0xBF && 0x80 <= s[2] <= 0xBF && 0x80 <= s[3] <= 0xBF
    requires (s[0] == 0xF0 ==> s[1] >= 0x90) && (s[0] == 0xF4 ==> s[1] <= 0x8F)
    ensures Utf8(s)
  {
    var low: Byte := if s[0] == 0xF0 then 0x90 else 0x80;
    var high: Byte := if s[0] == 0xF4 then 0x8F else 0xBF;
    assert Continues(s[1..], 3, low, high);
  }

  /** Whatever the scalar values, their encodings one after the other are accepted. */
  lemma {:induction false} TextIsAccepted(text: seq<nat>)
    requires Scalars(text)
    ensures Utf8(EncodedAll(text))
  {
    hide Utf8, Encoded;
    if text == [] {
      NothingIsText();
    } else {
      assert text[0] in text;
      TextIsAccepted(text[1..]);
      OneMore(text[0], EncodedAll(text[1..]));
    }
  }

  lemma NothingIsText()
    ensures Utf8([])
  {}

  lemma TwoOf(a: Byte, b: Byte)
    requires 0xC2 <= a <= 0xDF && 0x80 <= b <= 0xBF
    ensures var c := (a - 0xC0) as int * 0x40 + (b - 0x80); Scalar(c) && Encoded(c) == [a, b]
  {}

  lemma ThreeOf(x: Byte, y: Byte, z: Byte)
    requires 0xE0 <= x <= 0xEF && 0x80 <= y <= 0xBF && 0x80 <= z <= 0xBF
    requires (x == 0xE0 ==> y >= 0xA0) && (x == 0xED ==> y <= 0x9F)
    ensures var c := (x - 0xE0) as int * 0x1000 + (y - 0x80) as int * 0x40 + (z - 0x80);
            Scalar(c) && Encoded(c) == [x, y, z]
  {
    var (c, low) := ((x - 0xE0) as int * 0x1000 + (y - 0x80) as int * 0x40 + (z - 0x80), y - 0x80);
    assert c / 0x40 == (x - 0xE0) as int * 0x40 + low;
  }

  lemma FourOf(w: Byte, x: Byte, y: Byte, z: Byte)
    requires 0xF0 <= w <= 0xF4 && 0x80 <= x <= 0xBF && 0x80 <= y <= 0xBF && 0x80 <= z <= 0xBF
    requires (w == 0xF0 ==> x >= 0x90) && (w == 0xF4 ==> x <= 0x8F)
    ensures var c := (w - 0xF0) as int * 0x4_0000 + (x - 0x80) as int * 0x1000 + (y - 0x80) as int * 0x40 + (z - 0x80);
            Scalar(c) && Encoded(c) == [w, x, y, z]
  {
    var one := (w - 0xF0) as int * 0x40 + (x - 0x80);
    var two := one * 0x40 + (y - 0x80);
    SixBits(w - 0xF0, x - 0x80);
    SixBits(one, y - 0x80);
    SixBits(two, z - 0x80);
    assert (two * 0x40 + (z - 0x80)) / 0x1000 == two / 0x40 && (two * 0x40 + (z - 0x80)) / 0x4_0000 == two / 0x1000;
    assert two / 0x1000 == one / 0x40;
  }

  lemma SixBits(high: nat, low: nat)
    requires low < 0x40
    ensures (high * 0x40 + low) / 0x40 == high && (high * 0x40 + low) % 0x40 == low
  {}

  /** How many bytes the first character takes, and their bounds. */
  lemma Opening(s: Octets) returns (n: nat)
    requires Utf8(s) && s != []
    ensures 1 <= n <= 4 && n <= |s| && Utf8(s[n..]) && s == s[..n] + s[n..]
    ensures n == 1 ==> s[0] < 0x80
    ensures n == 2 ==> 0xC2 <= s[0] <= 0xDF && 0x80 <= s[1] <= 0xBF
    ensures n == 3 ==> 0xE0 <= s[0] <= 0xEF && 0x80 <= s[1] <= 0xBF && 0x80 <= s[2] <= 0xBF
    ensures n == 3 ==> (s[0] == 0xE0 ==> s[1] >= 0xA0) && (s[0] == 0xED ==> s[1] <= 0x9F)
    ensures n == 4 ==> 0xF0 <= s[0] <= 0xF4 && 0x80 <= s[1] <= 0xBF && 0x80 <= s[2] <= 0xBF && 0x80 <= s[3] <= 0xBF
    ensures n == 4 ==> (s[0] == 0xF0 ==> s[1] >= 0x90) && (s[0] == 0xF4 ==> s[1] <= 0x8F)
  {
    n := if s[0] < 0x80 then 1 else if s[0] < 0xE0 then 2 else if s[0] < 0xF0 then 3 else 4;
    assert s[1..][n - 1..] == s[n..];
    if n >= 3 { assert Within(s[1..][1], 0x80, 0xBF); }
    if n == 4 { assert Within(s[1..][2], 0x80, 0xBF); }
  }

  lemma {:induction false} FirstScalar(s: Octets) returns (c: nat, rest: Octets)
    requires Utf8(s) && s != []
    ensures Scalar(c) && s == Encoded(c) + rest && Utf8(rest) && |rest| < |s|
  {
    hide Utf8;
    var n := Opening(s);
    rest := s[n..];
    if n == 1 {
      c := s[0];
      assert s[..1] == [s[0]];
    } else if n == 2 {
      c := (s[0] - 0xC0) as int * 0x40 + (s[1] - 0x80);
      TwoOf(s[0], s[1]);
      assert s[..2] == [s[0], s[1]];
    } else if n == 3 {
      c := (s[0] - 0xE0) as int * 0x1000 + (s[1] - 0x80) as int * 0x40 + (s[2] - 0x80);
      ThreeOf(s[0], s[1], s[2]);
      assert s[..3] == [s[0], s[1], s[2]];
    } else {
      c := (s[0] - 0xF0) as int * 0x4_0000 + (s[1] - 0x80) as int * 0x1000 + (s[2] - 0x80) as int * 0x40
           + (s[3] - 0x80);
      FourOf(s[0], s[1], s[2], s[3]);
      assert s[..4] == [s[0], s[1], s[2], s[3]];
    }
  }

  /** And nothing else is: every accepted byte string is the encoding of some scalar values. */
  lemma {:induction false} AcceptedIsText(s: Octets) returns (text: seq<nat>)
    requires Utf8(s)
    ensures Scalars(text) && s == EncodedAll(text)
    decreases |s|
  {
    hide Utf8, Encoded;
    if s == [] {
      text := [];
    } else {
      var c, rest := FirstScalar(s);
      var more := AcceptedIsText(rest);
      text := [c] + more;
      assert text[1..] == more;
    }
  }
}
