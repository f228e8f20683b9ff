/**
 SHA-1: the standard's definition (FIPS 180-4, sections 4.1.1, 4.2.1, 5.1.1, 5.3.1 and
 6.1.2), and the firmware's streaming implementation over a context it updates in place.
 */
module Sha1 {
  import opened Words

  type byte = bv8
  type word = bv32

  // ----- the standard -----

  // The hash value, and the five working variables.
  datatype Hash = Hash(a: word, b: word, c: word, d: word, e: word)

  const IV := Hash(0x67452301, 0xEFCDAB89, 0x98BADCFE, 0x10325476, 0xC3D2E1F0)

  function Rol1(v: word): word { (v << 1) | (v >> 31) }
  function Rol5(v: word): word { (v << 5) | (v >> 27) }
  function Rol8(v: word): word { (v << 8) | (v >> 24) }
  function Rol24(v: word): word { (v << 24) | (v >> 8) }
  function Rol30(v: word): word { (v << 30) | (v >> 2) }

  function Ch(x: word, y: word, z: word): word { (x & y) ^ ((!x) & z) }
  function Parity(x: word, y: word, z: word): word { x ^ y ^ z }
  function Maj(x: word, y: word, z: word): word { (x & y) ^ (x & z) ^ (y & z) }

  function F(t: nat, x: word, y: word, z: word): word {
    if t < 20 then Ch(x, y, z) else if t < 40 then Parity(x, y, z) else if t < 60 then Maj(x, y, z) else Parity(x, y, z)
  }

  function K(t: nat): word {
    if t < 20 then 0x5A827999 else if t < 40 then 0x6ED9EBA1 else if t < 60 then 0x8F1BBCDC else 0xCA62C1D6
  }

  function BigEndian(b0: byte, b1: byte, b2: byte, b3: byte): word {
    ((b0 as word) << 24) | ((b1 as word) << 16) | ((b2 as word) << 8) | (b3 as word)
  }

  type Block = s: seq<byte> | |s| == 64 witness seq(64, _ => 0)

  // The message schedule.
  function W(m: Block, t: nat): word {
    if t < 16 then BigEndian(m[4 * t], m[4 * t + 1], m[4 * t + 2], m[4 * t + 3])
    else Rol1(W(m, t - 3) ^ W(m, t - 8) ^ W(m, t - 14) ^ W(m, t - 16))
  }

  function Temp(a5: word, f: word, e: word, k: word, w: word): word {
    a5 + f + e + k + w
  }

  function Round(s: Hash, t: nat, w: word): Hash {
    Hash(Temp(Rol5(s.a), F(t, s.b, s.c, s.d), s.e, K(t), w), s.a, Rol30(s.b), s.c, s.d)
  }

  // The working variables after `t` rounds.
  function Rounds(h: Hash, m: Block, t: nat): Hash {
    if t == 0 then h else Round(Rounds(h, m, t - 1), t - 1, W(m, t - 1))
  }

  function Plus(x: word, y: word): word { x + y }

  function Add(h: Hash, s: Hash): Hash {
    Hash(Plus(h.a, s.a), Plus(h.b, s.b), Plus(h.c, s.c), Plus(h.d, s.d), Plus(h.e, s.e))
  }

  function Compress(h: Hash, m: Block): Hash {
    Add(h, Rounds(h, m, 80))
  }

  // The hash value after all the blocks of `m`.
  function Blocks(h: Hash, m: seq<byte>): Hash
    requires |m| % 64 == 0
  {
    if |m| == 0 then h else Compress(Blocks(h, m[..|m| - 64]), m[|m| - 64..])
  }

  // The eight bytes of a 64-bit length, most significant first.
  function LengthBytes(n: nat): (r: seq<byte>)
    ensures |r| == 8
  {
    [ByteOf(n / 0x100_0000_0000_0000), ByteOf(n / 0x1_0000_0000_0000), ByteOf(n / 0x100_0000_0000), ByteOf(n / 0x1_0000_0000),
     ByteOf(n / 0x100_0000), ByteOf(n / 0x1_0000), ByteOf(n / 0x100), ByteOf(n)]
  }

  function ToByte(n: nat): byte
    requires n < 256
  {
    n as byte
  }

  function ByteOf(n: nat): byte {
    ToByte(n % 256)
  }

  // How many zero bytes the padding has: the least that brings the length to 56 modulo 64.
  function ZeroCount(n: nat): nat {
    (119 - n % 64) % 64
  }

  function Zeros(n: nat): (r: seq<byte>)
    ensures |r| == n
  {
    seq(n, _ => 0)
  }

  function Padded(m: seq<byte>): (r: seq<byte>)
    ensures |r| % 64 == 0
  {
    PaddingFills(|m|);
    m + [0x80] + Zeros(ZeroCount(|m|)) + LengthBytes(8 * |m|)
  }

  lemma PaddingFills(n: nat)
    ensures (n + 1 + ZeroCount(n)) % 64 == 56 && (n + 1 + ZeroCount(n) + 8) % 64 == 0
  {
  }

  function WordBytes(w: word): (r: seq<byte>)
    ensures |r| == 4
  {
    [((w >> 24) & 255) as byte, ((w >> 16) & 255) as byte, ((w >> 8) & 255) as byte, (w & 255) as byte]
  }

  function DigestBytes(h: Hash): (r: seq<byte>)
    ensures |r| == 20
  {
    WordBytes(h.a) + WordBytes(h.b) + WordBytes(h.c) + WordBytes(h.d) + WordBytes(h.e)
  }

  function Digest(m: seq<byte>): seq<byte> {
    DigestBytes(Blocks(IV, Padded(m)))
  }

  // ----- the implementation's round -----

  // What the implementation computes for the choice and majority functions.
  function CodeF(t: nat, w: word, x: word, y: word): word {
    if t < 20 then (w & (x ^ y)) ^ y
    else if t < 40 then w ^ x ^ y
    else if t < 60 then ((w | x) & y) | (w & x)
    else w ^ x ^ y
  }

  lemma CodeFIsF(t: nat, x: word, y: word, z: word)
    ensures CodeF(t, x, y, z) == F(t, x, y, z)
  {
    ChoiceForm(x, y, z);
    MajorityForm(x, y, z);
  }

  lemma ChoiceForm(x: word, y: word, z: word)
    ensures (x & (y ^ z)) ^ z == Ch(x, y, z)
  {
  }

  lemma MajorityForm(x: word, y: word, z: word)
    ensures ((x | y) & z) | (x & y) == Maj(x, y, z)
  {
  }

  // The two registers a round changes: `z` accumulates and `w` is rotated.
  function CodeZ(t: nat, v: word, w: word, x: word, y: word, z: word, blk: word): word {
    CodeSum(z, CodeF(t, w, x, y), blk, K(t), Rol5(v))
  }

  function CodeSum(z: word, f: word, blk: word, k: word, v5: word): word {
    z + (f + blk + k + v5)
  }

  // Five variables take turns in the five roles.
  function CodeRound(r: Hash, i: nat, blk: word): Hash {
    CodeTurn(r, i % 5, i, blk)
  }

  function CodeTurn(r: Hash, turn: nat, i: nat, blk: word): Hash {
    match turn
    case 0 => r.(e := CodeZ(i, r.a, r.b, r.c, r.d, r.e, blk), b := Rol30(r.b))
    case 1 => r.(d := CodeZ(i, r.e, r.a, r.b, r.c, r.d, blk), a := Rol30(r.a))
    case 2 => r.(c := CodeZ(i, r.d, r.e, r.a, r.b, r.c, blk), e := Rol30(r.e))
    case 3 => r.(b := CodeZ(i, r.c, r.d, r.e, r.a, r.b, blk), d := Rol30(r.d))
    case _ => r.(a := CodeZ(i, r.b, r.c, r.d, r.e, r.a, blk), c := Rol30(r.c))
  }

  // The variables in the roles they have before round `i`.
  function Roles(r: Hash, i: nat): Hash {
    RolesAt(r, i % 5)
  }

  function RolesAt(r: Hash, turn: nat): Hash {
    match turn
    case 0 => r
    case 1 => Hash(r.e, r.a, r.b, r.c, r.d)
    case 2 => Hash(r.d, r.e, r.a, r.b, r.c)
    case 3 => Hash(r.c, r.d, r.e, r.a, r.b)
    case _ => Hash(r.b, r.c, r.d, r.e, r.a)
  }

  lemma SumOrder(z: word, f: word, w: word, k: word, r: word)
    ensures CodeSum(z, f, w, k, r) == Temp(r, f, z, k, w)
  {
  }

  lemma CodeZIsRound(s: Hash, t: nat, w: word)
    ensures Round(s, t, w) == Hash(CodeZ(t, s.a, s.b, s.c, s.d, s.e, w), s.a, Rol30(s.b), s.c, s.d)
  {
    hide CodeF, F, K, Rol5, Rol30, Temp, CodeSum;
    CodeFIsF(t, s.b, s.c, s.d);
    SumOrder(s.e, F(t, s.b, s.c, s.d), w, K(t), Rol5(s.a));
  }

  lemma Turn0(r: Hash, i: nat, w: word)
    ensures RolesAt(CodeTurn(r, 0, i, w), 1) == Round(RolesAt(r, 0), i, w)
  {
    hide CodeZ, Rol30, Round;
    CodeZIsRound(r, i, w);
  }

  lemma Turn1(r: Hash, i: nat, w: word)
    ensures RolesAt(CodeTurn(r, 1, i, w), 2) == Round(RolesAt(r, 1), i, w)
  {
    hide CodeZ, Rol30, Round;
    CodeZIsRound(Hash(r.e, r.a, r.b, r.c, r.d), i, w);
  }

  lemma Turn2(r: Hash, i: nat, w: word)
    ensures RolesAt(CodeTurn(r, 2, i, w), 3) == Round(RolesAt(r, 2), i, w)
  {
    hide CodeZ, Rol30, Round;
    CodeZIsRound(Hash(r.d, r.e, r.a, r.b, r.c), i, w);
  }

  lemma Turn3(r: Hash, i: nat, w: word)
    ensures RolesAt(CodeTurn(r, 3, i, w), 4) == Round(RolesAt(r, 3), i, w)
  {
    hide CodeZ, Rol30, Round;
    CodeZIsRound(Hash(r.c, r.d, r.e, r.a, r.b), i, w);
  }

  lemma Turn4(r: Hash, i: nat, w: word)
    ensures RolesAt(CodeTurn(r, 4, i, w), 0) == Round(RolesAt(r, 4), i, w)
  {
    hide CodeZ, Rol30, Round;
    CodeZIsRound(Hash(r.b, r.c, r.d, r.e, r.a), i, w);
  }

  lemma TurnIsRound(r: Hash, turn: nat, i: nat, w: word)
    requires turn < 5
    ensures RolesAt(CodeTurn(r, turn, i, w), if turn == 4 then 0 else turn + 1) == Round(RolesAt(r, turn), i, w)
  {
    hide CodeTurn, RolesAt, Round;
    match turn
    case 0 => Turn0(r, i, w);
    case 1 => Turn1(r, i, w);
    case 2 => Turn2(r, i, w);
    case 3 => Turn3(r, i, w);
    case _ => Turn4(r, i, w);
  }

  /** A round of the rotated variables is a round of the standard. */
  lemma CodeRoundIsRound(r: Hash, i: nat, w: word)
    ensures Roles(CodeRound(r, i, w), i + 1) == Round(Roles(r, i), i, w)
  {
    hide CodeTurn, RolesAt, Round;
    TurnIsRound(r, i % 5, i, w);
    NextRole(i);
  }

  lemma NextRole(i: nat)
    ensures (i + 1) % 5 == if i % 5 == 4 then 0 else i % 5 + 1
  {
  }

  // ----- the circular schedule -----

  // A word as a little-endian host loads it, and the expression that swaps its bytes.
  function LittleEndian(b0: byte, b1: byte, b2: byte, b3: byte): word {
    BigEndian(b3, b2, b1, b0)
  }

  function Swap(v: word): word {
    (Rol24(v) & 0xFF00FF00) | (Rol8(v) & 0x00FF00FF)
  }

  lemma SwapOrders(b0: byte, b1: byte, b2: byte, b3: byte)
    ensures Swap(LittleEndian(b0, b1, b2, b3)) == BigEndian(b0, b1, b2, b3)
  {
  }

  function Raw(m: Block, j: nat): word
    requires j < 16
  {
    LittleEndian(m[4 * j], m[4 * j + 1], m[4 * j + 2], m[4 * j + 3])
  }

  // Before round `i` the 16 words hold the last 16 of the schedule, and what has not been swapped yet.
  ghost predicate Scheduled(l: seq<word>, m: Block, i: nat) {
    && |l| == 16
    && (forall j :: i <= j < 16 ==> l[j] == Raw(m, j))
    && (forall t: nat :: i - 16 <= t < i ==> l[t % 16] == W(m, t))
  }

  function NextWord(l: seq<word>, i: nat): word
    requires |l| == 16
  {
    if i < 16 then Swap(l[i]) else Rol1(l[(i + 13) % 16] ^ l[(i + 8) % 16] ^ l[(i + 2) % 16] ^ l[i % 16])
  }

  lemma Cyclic(i: nat, k: nat)
    requires i >= 16 && 1 <= k <= 16
    ensures (i + 16 - k) % 16 == (i - k) % 16
  {
  }

  /** The word computed in place is the schedule's next, and it replaces the one no longer needed. */
  lemma ScheduleGoesOn(l: seq<word>, m: Block, i: nat)
    requires Scheduled(l, m, i)
    ensures NextWord(l, i) == W(m, i) && Scheduled(l[i % 16 := NextWord(l, i)], m, i + 1)
  {
    hide Swap, LittleEndian, BigEndian, Rol1;
    NextIsW(l, m, i);
    var l' := l[i % 16 := NextWord(l, i)];
    forall t: nat | i - 15 <= t < i + 1
      ensures l'[t % 16] == W(m, t)
    {
      if t < i {
        Distinct(i, i - t);
      }
    }
  }

  lemma Distinct(i: nat, k: nat)
    requires 0 < k < 16 && k <= i
    ensures (i - k) % 16 != i % 16
  {
  }

  lemma NextIsW(l: seq<word>, m: Block, i: nat)
    requires Scheduled(l, m, i)
    ensures NextWord(l, i) == W(m, i)
  {
    hide Swap, LittleEndian, BigEndian, Rol1;
    if i < 16 {
      SwapOrders(m[4 * i], m[4 * i + 1], m[4 * i + 2], m[4 * i + 3]);
    } else {
      Cyclic(i, 3);
      Cyclic(i, 8);
      Cyclic(i, 14);
      Cyclic(i, 16);
      var a, b, c, d := W(m, i - 3), W(m, i - 8), W(m, i - 14), W(m, i - 16);
    }
  }
}
