/**
 The definitions the standard and the implementation share, said in other words: rotations,
 the functions and constants of the rounds, the initial value, the order of bytes and the padding.
 */
module Sha1Standard {
  import opened Words
  import opened Sha1

  /** A rotation multiplies by a power of two, and adds what that shifts out. */
  lemma RotationsAreProducts(v: word)
    ensures Rol1(v) == v * 0x2 + v / 0x8000_0000
    ensures Rol5(v) == v * 0x20 + v / 0x800_0000
    ensures Rol30(v) == v * 0x4000_0000 + v / 0x4
  {
    hide Rol1, Rol5, Rol30;
    RotatedByOne(v);
    RotatedByFive(v);
    RotatedByThirty(v);
  }

  lemma RotatedByOne(v: word)
    ensures Rol1(v) == v * 0x2 + v / 0x8000_0000
  {
  }

  lemma RotatedByFive(v: word)
    ensures Rol5(v) == v * 0x20 + v / 0x800_0000
  {
  }

  lemma RotatedByThirty(v: word)
    ensures Rol30(v) == v * 0x4000_0000 + v / 0x4
  {
  }

  /** Where `x` has a one the choice is `y`, elsewhere `z`. */
  lemma ChoiceChooses(x: word, y: word, z: word)
    ensures Ch(x, y, z) & x == y & x && Ch(x, y, z) & !x == z & !x
  {
  }

  /** The parity is one where one or three of the bits are, the majority where two or three are. */
  lemma ParityAndMajority(x: word, y: word, z: word)
    ensures Parity(x, y, z) == (x & y & z) | (x & !y & !z) | (!x & y & !z) | (!x & !y & z)
    ensures Maj(x, y, z) == (x & y & z) | (x & y & !z) | (x & !y & z) | (!x & y & z)
  {
  }

  /** The constants are the first 32 bits of the square roots of 2, 3, 5 and 10, one for each twenty rounds. */
  lemma ConstantsAreRoots(t: nat)
    requires t < 80
    ensures var k, r := K(t) as int, if t / 20 == 0 then 2 else if t / 20 == 1 then 3 else if t / 20 == 2 then 5 else 10;
      k * k <= r * 0x1000_0000_0000_0000 < (k + 1) * (k + 1)
  {
  }

  /** A word is made of its bytes, most significant first. */
  lemma BytesMakeWords(b0: byte, b1: byte, b2: byte, b3: byte)
    ensures BigEndian(b0, b1, b2, b3) / 0x1_0000 == (b0 as word) * 0x100 + (b1 as word)
    ensures BigEndian(b0, b1, b2, b3) % 0x1_0000 == (b2 as word) * 0x100 + (b3 as word)
    ensures WordBytes(BigEndian(b0, b1, b2, b3)) == [b0, b1, b2, b3]
  {
    hide BigEndian, WordBytes;
    ByteSum(b0, b1, b2, b3);
    BytesBack(b0, b1, b2, b3);
  }

  lemma ByteSum(b0: byte, b1: byte, b2: byte, b3: byte)
    ensures BigEndian(b0, b1, b2, b3) / 0x1_0000 == (b0 as word) * 0x100 + (b1 as word)
    ensures BigEndian(b0, b1, b2, b3) % 0x1_0000 == (b2 as word) * 0x100 + (b3 as word)
  {
  }

  lemma BytesBack(b0: byte, b1: byte, b2: byte, b3: byte)
    ensures WordBytes(BigEndian(b0, b1, b2, b3)) == [b0, b1, b2, b3]
  {
  }

  /** The initial value read byte by byte, least significant first: up and down in steps of 0x22, and then down by 0x0f. */
  lemma InitialBytes()
    ensures IV.a == BigEndian(0x67, 0x45, 0x23, 0x01) && IV.b == BigEndian(0xef, 0xcd, 0xab, 0x89)
    ensures IV.c == BigEndian(0x98, 0xba, 0xdc, 0xfe) && IV.d == BigEndian(0x10, 0x32, 0x54, 0x76)
    ensures IV.e == BigEndian(0xc3, 0xd2, 0xe1, 0xf0)
  {
  }

  /** Sums are taken in any order, modulo 2^32. */
  lemma SumsInAnyOrder(a: word, f: word, e: word, k: word, w: word)
    ensures Temp(a, f, e, k, w) == (w + k) + (f + (a + e)) && Plus(a, f) == f + a
  {
    hide Temp;
    FiveSum(a, f, e, k, w);
  }

  lemma FiveSum(a: word, f: word, e: word, k: word, w: word)
    ensures Temp(a, f, e, k, w) == (w + k) + (f + (a + e))
  {
  }

  lemma LowByteOf(b: byte, rest: nat)
    ensures ByteOf(b as int + 256 * rest) == b
  {
    hide ToByte;
    assert (b as int + 256 * rest) % 256 == b as int;
    ByteBack(b);
  }

  lemma ByteBack(b: byte)
    ensures ToByte(b as int) == b
  {
  }

  // The number a string of bytes is, most significant first.
  function Value(s: seq<byte>): nat {
    if s == [] then 0 else 256 * Value(s[..|s| - 1]) + s[|s| - 1] as int
  }

  lemma {:induction false} ValueDrops(s: seq<byte>, k: nat, p: nat)
    requires k <= |s| && p == Pow2(8 * k)
    ensures Value(s) / p == Value(s[..|s| - k])
    decreases k
  {
    if k == 0 {
      assert s[..|s|] == s;
    } else {
      var t := s[..|s| - 1];
      var q := Pow2(8 * (k - 1));
      EightTimes(k);
      ValueDrops(t, k - 1, q);
      assert t[..|t| - (k - 1)] == s[..|s| - k];
      DivideTwice(Value(s), Value(t), s[|s| - 1] as int, q);
    }
  }

  lemma EightTimes(k: nat)
    requires k > 0
    ensures Pow2(8 * k) == 256 * Pow2(8 * (k - 1))
  {
    hide Pow2;
    var n := 8 * (k - 1);
    Twice(n);
    Twice(n + 1);
    Twice(n + 2);
    Twice(n + 3);
    Twice(n + 4);
    Twice(n + 5);
    Twice(n + 6);
    Twice(n + 7);
  }

  lemma Twice(n: nat)
    ensures Pow2(n + 1) == 2 * Pow2(n)
  {
  }

  lemma DivideTwice(v: nat, t: nat, b: nat, q: nat)
    requires v == 256 * t + b && b < 256 && q > 0
    ensures v / (256 * q) == t / q
  {
    var d, r := t / q, t % q;
    assert v == d * (256 * q) + (256 * r + b) by {
      assert 256 * (d * q) == d * (256 * q);
    }
    ModUnique(v, 256 * q, d, 256 * r + b);
  }

  /** The length field is the length as a 64-bit number, most significant byte first: any eight bytes are that of their value. */
  lemma LengthIsBigEndian(s: seq<byte>)
    requires |s| == 8
    ensures LengthBytes(Value(s)) == s
  {
    hide ByteOf, Value, Pow2;
    BytePowers();
    var l := LengthBytes(Value(s));
    assert l[7] == s[7] by { DigitOf(s, 0, 1); }
    assert l[6] == s[6] by { DigitOf(s, 1, 0x100); }
    assert l[5] == s[5] by { DigitOf(s, 2, 0x1_0000); }
    assert l[4] == s[4] by { DigitOf(s, 3, 0x100_0000); }
    assert l[3] == s[3] by { DigitOf(s, 4, 0x1_0000_0000); }
    assert l[2] == s[2] by { DigitOf(s, 5, 0x100_0000_0000); }
    assert l[1] == s[1] by { DigitOf(s, 6, 0x1_0000_0000_0000); }
    assert l[0] == s[0] by { DigitOf(s, 7, 0x100_0000_0000_0000); }
  }

  lemma DigitOf(s: seq<byte>, k: nat, p: nat)
    requires |s| == 8 && k < 8 && p == Pow2(8 * k)
    ensures Value(s) / p == Value(s[..8 - k]) && ByteOf(Value(s[..8 - k])) == s[7 - k]
  {
    hide ByteOf, Value;
    ValueDrops(s, k, p);
    LastByte(s[..8 - k]);
  }

  lemma LastByte(s: seq<byte>)
    requires s != []
    ensures ByteOf(Value(s)) == s[|s| - 1]
  {
    hide ByteOf;
    LowByteOf(s[|s| - 1], Value(s[..|s| - 1]));
  }

  lemma BytePowers()
    ensures Pow2(0) == 1 && Pow2(8) == 0x100 && Pow2(16) == 0x1_0000 && Pow2(24) == 0x100_0000 && Pow2(32) == 0x1_0000_0000
    ensures Pow2(40) == 0x100_0000_0000 && Pow2(48) == 0x1_0000_0000_0000 && Pow2(56) == 0x100_0000_0000_0000
  {
    hide Pow2;
    assert Pow2(0) == 1 by { PowZero(); }
    EightTimes(1);
    EightTimes(2);
    EightTimes(3);
    EightTimes(4);
    EightTimes(5);
    EightTimes(6);
    EightTimes(7);
  }

  lemma PowZero()
    ensures Pow2(0) == 1
  {
  }

  /**
   The padded message is the message, a one bit, zeros, and the length, filling whole blocks with less than a
   block to spare.
   */
  lemma PaddedIs(m: seq<byte>)
    ensures var p := Padded(m);
      && |p| % 64 == 0 && |m| + 9 <= |p| < |m| + 9 + 64
      && p[..|m|] == m && p[|m|] == 0x80 && (forall i :: |m| < i < |p| - 8 ==> p[i] == 0) && p[|p| - 8..] == LengthBytes(8 * |m|)
  {
    hide LengthBytes;
    PaddingFills(|m|);
  }

  /** The digest is the five words of the hash, most significant byte first. */
  lemma DigestIsWords(h: Hash)
    ensures var d := DigestBytes(h);
      && BigEndian(d[0], d[1], d[2], d[3]) == h.a && BigEndian(d[4], d[5], d[6], d[7]) == h.b
      && BigEndian(d[8], d[9], d[10], d[11]) == h.c && BigEndian(d[12], d[13], d[14], d[15]) == h.d
      && BigEndian(d[16], d[17], d[18], d[19]) == h.e
  {
    hide BigEndian, WordBytes;
    BytesOfWord(h.a);
    BytesOfWord(h.b);
    BytesOfWord(h.c);
    BytesOfWord(h.d);
    BytesOfWord(h.e);
  }

  lemma BytesOfWord(w: word)
    ensures var b := WordBytes(w); BigEndian(b[0], b[1], b[2], b[3]) == w
  {
  }
}
