/** Padding, the digest, and the context object whose methods do all this in place. */
module Sha1Final {
  import opened Words
  import opened Sha1
  import opened Sha1Stream

  // ----- the last step -----

  // The bit counts as they stand, most significant byte first.
  function FinalCount(c: Context): (r: Chunk)
    ensures |r| == 8
  {
    [ByteOf(c.count1 / 0x100_0000), ByteOf(c.count1 / 0x1_0000), ByteOf(c.count1 / 0x100), ByteOf(c.count1),
     ByteOf(c.count0 / 0x100_0000), ByteOf(c.count0 / 0x1_0000), ByteOf(c.count0 / 0x100), ByteOf(c.count0)]
  }

  // How many bytes the buffer lacks until the length field just fits.
  function Lacking(c: Context): nat {
    (120 - c.count0 / 8 % 64) % 64
  }

  lemma OneByteMore(c: Context)
    ensures var c' := Updated(c, [0]);
      && c'.count0 / 8 % 64 == (if c.count0 / 8 % 64 == 63 then 0 else c.count0 / 8 % 64 + 1)
      && (c.count0 / 8 % 64 != 56 ==> Lacking(c') == Lacking(c) - 1)
  {
    hide Compress, Whole, CopyIn;
    assert Updated(c, [0]).count0 == Wrap(c.count0 + 8);
    AddEight(c.count0);
    if c.count0 / 8 % 64 != 56 {
      Shrinks(c.count0 / 8 % 64);
    }
  }

  lemma Shrinks(j: nat)
    requires j < 64 && j != 56
    ensures (120 - if j == 63 then 0 else j + 1) % 64 == (120 - j) % 64 - 1
  {
  }

  lemma AddEight(x: u32)
    ensures Wrap(x + 8) / 8 % 64 == if x / 8 % 64 == 63 then 0 else x / 8 % 64 + 1
  {
    hide Wrap;
    WrapSmall(x);
    NextMod(x / 8);
  }

  lemma WrapSmall(x: u32)
    ensures Wrap(x + 8) / 8 == if x + 8 >= TWO32 then 0 else x / 8 + 1
    ensures x + 8 >= TWO32 ==> x / 8 == 0x1fff_ffff
  {
  }

  lemma NextMod(y: nat)
    ensures (y + 1) % 64 == if y % 64 == 63 then 0 else y % 64 + 1
  {
  }

  // Zero bytes up to 56 modulo 64.
  function ZeroFilled(c: Context): Context
    decreases Lacking(c)
  {
    OneByteMore(c);
    if c.count0 / 8 % 64 != 56 then ZeroFilled(Updated(c, [0])) else c
  }

  function Finished(c: Context): Context {
    Updated(ZeroFilled(Updated(c, [0x80])), FinalCount(c))
  }

  lemma {:induction false} ZeroFilledRepresents(c: Context, m: seq<byte>)
    requires Represents(c, m)
    ensures Represents(ZeroFilled(c), m + Zeros((120 - |m| % 64) % 64))
    decreases Lacking(c)
  {
    hide Updated, Represents;
    CountMod(c, m);
    OneByteMore(c);
    if c.count0 / 8 % 64 != 56 {
      UpdatedRepresents(c, m, [0]);
      ZeroFilledRepresents(Updated(c, [0]), m + [0]);
      LackOneLess(|m|);
      var k := (120 - |m| % 64) % 64;
      assert m + [0] + Zeros(k - 1) == m + Zeros(k);
    } else {
      assert m + Zeros(0) == m;
    }
  }

  lemma LackOneLess(n: nat)
    requires n % 64 != 56
    ensures (120 - (n + 1) % 64) % 64 == (120 - n % 64) % 64 - 1
  {
    NextMod(n);
  }

  lemma CountMod(c: Context, m: seq<byte>)
    requires Represents(c, m)
    ensures c.count0 / 8 % 64 == |m| % 64
    ensures 8 * |m| < TWO64 ==> c.count0 + c.count1 * TWO32 == 8 * |m|
  {
    hide Blocks;
    CountLow(c.count0, c.count1, |m|);
  }

  lemma FinalCountIsLength(c: Context, n: nat)
    requires c.count0 + c.count1 * TWO32 == n
    ensures FinalCount(c) == LengthBytes(n)
  {
    hide ByteOf;
    HighByte(c, n, 0x100_0000);
    HighByte(c, n, 0x1_0000);
    HighByte(c, n, 0x100);
    HighByte(c, n, 1);
    LowByte(c, n, 0x100_0000);
    LowByte(c, n, 0x1_0000);
    LowByte(c, n, 0x100);
    LowByte(c, n, 1);
  }

  lemma HighByte(c: Context, n: nat, d: nat)
    requires c.count0 + c.count1 * TWO32 == n && (d == 1 || d == 0x100 || d == 0x1_0000 || d == 0x100_0000)
    ensures ByteOf(n / (d * TWO32)) == ByteOf(c.count1 / d)
  {
    assert n / (d * TWO32) == c.count1 / d;
  }

  lemma LowByte(c: Context, n: nat, d: nat)
    requires c.count0 + c.count1 * TWO32 == n && (d == 1 || d == 0x100 || d == 0x1_0000 || d == 0x100_0000)
    ensures ByteOf(n / d) == ByteOf(c.count0 / d)
  {
    hide ByteOf;
    SameByte(n / d, c.count0 / d, if d == 1 then c.count1 * 0x100_0000
                                  else if d == 0x100 then c.count1 * 0x1_0000
                                  else if d == 0x1_0000 then c.count1 * 0x100 else c.count1);
  }

  lemma SameByte(x: nat, y: nat, k: nat)
    requires x == y + 256 * k
    ensures ByteOf(x) == ByteOf(y)
  {
    hide ToByte;
    assert x % 256 == y % 256;
  }

  /** Finishing any stream yields the digest of the standard, for every message the standard covers. */
  lemma FinalIsDigest(c: Context, m: seq<byte>)
    requires Represents(c, m) && 8 * |m| < TWO64
    ensures DigestBytes(Finished(c).state) == Digest(m)
  {
    hide Updated, ZeroFilled, Blocks, DigestBytes, Zeros, LengthBytes, FinalCount, Represents;
    CountMod(c, m);
    FinalCountIsLength(c, 8 * |m|);
    var c1 := Updated(c, [0x80]);
    UpdatedRepresents(c, m, [0x80]);
    ZeroFilledRepresents(c1, m + [0x80]);
    PadCount(|m|);
    var padded := m + [0x80] + Zeros(ZeroCount(|m|));
    UpdatedRepresents(ZeroFilled(c1), padded, FinalCount(c));
    WholeMessageHashed(Finished(c), Padded(m));
  }

  lemma PadCount(n: nat)
    ensures (120 - (n + 1) % 64) % 64 == ZeroCount(n)
  {
    NextMod(n);
  }

  lemma WholeMessageHashed(c: Context, m: seq<byte>)
    requires Represents(c, m) && |m| % 64 == 0
    ensures c.state == Blocks(IV, m)
  {
    hide Compress;
    assert m[..Full(|m|)] == m;
  }

  /** However the message is cut into chunks, hashing it gives its digest. */
  lemma HashOfChunks(chunks: seq<Chunk>)
    requires 8 * |Concat(chunks)| < TWO64
    ensures DigestBytes(Finished(UpdatedAll(INIT, chunks)).state) == Digest(Concat(chunks))
  {
    hide Finished, Digest, DigestBytes, Represents;
    ChunksRepresent(chunks);
    FinalIsDigest(UpdatedAll(INIT, chunks), Concat(chunks));
  }

  // ----- in place -----

  function HashOf(s: seq<word>): Hash
    requires |s| == 5
  {
    Hash(s[0], s[1], s[2], s[3], s[4])
  }

  // The first sixteen words of the union, as the host reads the copied bytes.
  method LoadBlock(m: Block) returns (l: array<word>)
    ensures fresh(l) && l.Length == 16 && Scheduled(l[..], m, 0)
  {
    hide LittleEndian, W;
    l := new word[16];
    for j := 0 to 16
      invariant forall k :: 0 <= k < j ==> l[k] == Raw(m, k)
    {
      l[j] := Raw(m, j);
    }
  }

  // One of the 80 rounds: the schedule moves on in place and two of the variables change.
  method DoRound(l: array<word>, r: Hash, i: nat, ghost h: Hash, ghost m: Block) returns (r': Hash)
    requires l.Length == 16 && Scheduled(l[..], m, i) && Roles(r, i) == Rounds(h, m, i)
    modifies l
    ensures Scheduled(l[..], m, i + 1) && Roles(r', i + 1) == Rounds(h, m, i + 1)
  {
    hide CodeRound, Round, W, NextWord, Scheduled, Roles;
    ScheduleGoesOn(l[..], m, i);
    var blk := NextWord(l[..], i);
    l[i % 16] := blk;
    CodeRoundIsRound(r, i, blk);
    r' := CodeRound(r, i, blk);
  }

  method AddBack(state: array<word>, r: Hash)
    requires state.Length == 5
    modifies state
    ensures HashOf(state[..]) == Add(old(HashOf(state[..])), r)
  {
    hide Plus;
    state[0] := Plus(state[0], r.a);
    state[1] := Plus(state[1], r.b);
    state[2] := Plus(state[2], r.c);
    state[3] := Plus(state[3], r.d);
    state[4] := Plus(state[4], r.e);
  }

  /** The in-place rounds compute the standard's compression function. */
  method Transform(state: array<word>, m: Block)
    requires state.Length == 5
    modifies state
    ensures HashOf(state[..]) == Compress(old(HashOf(state[..])), m)
  {
    hide Round, W, Scheduled, Roles, Add, Rounds;
    ghost var h := HashOf(state[..]);
    var l := LoadBlock(m);
    var r := Hash(state[0], state[1], state[2], state[3], state[4]);
    RoundsStart(r, m);
    for i := 0 to 80
      invariant l.Length == 16 && Scheduled(l[..], m, i) && fresh(l)
      invariant Roles(r, i) == Rounds(h, m, i) && HashOf(state[..]) == h
    {
      r := DoRound(l, r, i, h, m);
    }
    RoundsStart(r, m);
    AddBack(state, r);
  }

  lemma RoundsStart(r: Hash, m: Block)
    ensures Roles(r, 0) == r && Roles(r, 80) == r && Rounds(r, m, 0) == r
  {
  }

  class Sha1Context {
    const state: array<word>
    var count0: u32
    var count1: u32
    const buffer: array<byte>

    ghost predicate Valid() {
      state.Length == 5 && buffer.Length == 64
    }

    ghost function View(): Context
      requires Valid()
      reads this, state, buffer
    {
      Context(HashOf(state[..]), count0, count1, buffer[..])
    }

    constructor ()
      ensures Valid() && fresh(state) && fresh(buffer) && View().state == IV && count0 == count1 == 0
    {
      state := new word[5];
      buffer := new byte[64];
      count0, count1 := 0, 0;
      new;
      state[0], state[1], state[2], state[3], state[4] := 0x67452301, 0xEFCDAB89, 0x98BADCFE, 0x10325476, 0xC3D2E1F0;
    }

    method CopyToBuffer(at: nat, s: seq<byte>)
      requires Valid() && at + |s| <= 64
      modifies buffer
      ensures buffer[..] == CopyIn(old(buffer[..]), at, s)
    {
      hide CopyIn;
      ghost var before := buffer[..];
      CopyStarts(before, at, s);
      for k := 0 to |s|
        invariant buffer[..] == CopyIn(before, at, s[..k])
      {
        CopyOne(before, at, s, k);
        buffer[at + k] := s[k];
      }
      assert s[..|s|] == s;
    }

    method AddToCount(len: nat)
      requires Valid() && len < TWO32
      modifies this
      ensures View() == old(View()).(count0 := Count0(old(View()), len), count1 := Count1(old(View()), len))
    {
      hide Count0, Count1;
      var before := count0;
      CountStep(View(), len);
      count0 := Wrap(count0 + Wrap(8 * len));
      if count0 < before {
        count1 := Wrap(count1 + 1);
      }
      count1 := Wrap(count1 + len / 0x2000_0000);
    }

    // Hashes the whole blocks of the data from `start` on.
    method TransformWhole(data: Chunk, start: nat) returns (i: nat)
      requires Valid() && start <= |data|
      modifies state
      ensures (HashOf(state[..]), i) == Whole(old(HashOf(state[..])), data, start)
    {
      hide Compress;
      i := start;
      while i + 63 < |data|
        invariant start <= i <= |data|
        invariant Whole(HashOf(state[..]), data, i) == Whole(old(HashOf(state[..])), data, start)
      {
        Transform(state, data[i..i + 64]);
        i := i + 64;
      }
    }

    method Update(data: Chunk)
      requires Valid()
      modifies this, state, buffer
      ensures View() == Updated(old(View()), data)
    {
      hide Compress, Count0, Count1, CopyIn, Whole, HashOf;
      var j := count0 / 8 % 64;
      AddToCount(|data|);
      var i := 0;
      if j + |data| > 63 {
        i := 64 - j;
        CopyToBuffer(j, data[..i]);
        Transform(state, buffer[..]);
        i := TransformWhole(data, i);
        j := 0;
      }
      CopyToBuffer(j, data[i..]);
    }

    method FillZeros()
      requires Valid()
      modifies this, state, buffer
      ensures View() == ZeroFilled(old(View()))
    {
      hide Updated;
      // The low nine bits of the count, 448 when the length field just fits.
      while count0 / 8 % 64 != 56
        invariant ZeroFilled(View()) == ZeroFilled(old(View()))
        decreases Lacking(View())
      {
        OneByteMore(View());
        Update([0]);
      }
    }

    // Runs the padding through `Update` and reads the digest off the state.
    method Final() returns (digest: seq<byte>)
      requires Valid()
      modifies this, state, buffer
      ensures digest == DigestBytes(Finished(old(View())).state)
    {
      hide Updated, ZeroFilled, FinalCount, DigestBytes, HashOf;
      var finalCount := CurrentCount();
      Update([0x80]);
      FillZeros();
      Update(finalCount);
      digest := DigestBytes(HashOf(state[..]));
    }

    method CurrentCount() returns (bytes: Chunk)
      requires Valid()
      ensures bytes == FinalCount(View())
    {
      hide ByteOf;
      bytes := [ByteOf(count1 / 0x100_0000), ByteOf(count1 / 0x1_0000), ByteOf(count1 / 0x100), ByteOf(count1),
                ByteOf(count0 / 0x100_0000), ByteOf(count0 / 0x1_0000), ByteOf(count0 / 0x100), ByteOf(count0)];
    }
  }

  lemma CopyStarts(b: Block, at: nat, s: seq<byte>)
    requires at + |s| <= 64
    ensures CopyIn(b, at, s[..0]) == b
  {
  }

  lemma CopyOne(b: Block, at: nat, s: seq<byte>, k: nat)
    requires at + |s| <= 64 && k < |s|
    ensures CopyIn(b, at, s[..k])[at + k := s[k]] == CopyIn(b, at, s[..k + 1])
  {
  }

  lemma CountStep(c: Context, len: nat)
    ensures Count0(c, len) == Wrap(c.count0 + Wrap(8 * len))
    ensures Count1(c, len) == Wrap((if Count0(c, len) < c.count0 then Wrap(c.count1 + 1) else c.count1) + len / 0x2000_0000)
  {
  }

  /** The one-shot hash, a byte at a time. */
  method HashString(str: seq<byte>) returns (digest: seq<byte>)
    requires 8 * |str| < TWO64
    ensures digest == Digest(str)
  {
    hide Updated, Represents, Digest, Finished;
    var ctx := new Sha1Context();
    assert Represents(ctx.View(), []) by { FreshRepresents(ctx.View()); }
    assert str[..0] == [];
    for i := 0 to |str|
      invariant ctx.Valid() && fresh(ctx) && fresh(ctx.state) && fresh(ctx.buffer) && Represents(ctx.View(), str[..i])
    {
      UpdatedRepresents(ctx.View(), str[..i], [str[i]]);
      ctx.Update([str[i]]);
      assert str[..i + 1] == str[..i] + [str[i]];
    }
    assert str[..|str|] == str;
    FinalIsDigest(ctx.View(), str);
    digest := ctx.Final();
  }

  lemma FreshRepresents(c: Context)
    requires c.state == IV && c.count0 == c.count1 == 0
    ensures Represents(c, [])
  {
    hide Compress;
    var m: seq<byte> := [];
    assert m[..Full(0)] == [] && c.buffer[..0] == [];
  }
}
