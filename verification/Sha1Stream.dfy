/** The streaming hash: the context after any chunks, the padding, and the in-place code. */
module Sha1Stream {
  import opened Words
  import opened Sha1

  // `buffer` keeps stale bytes behind the ones in use.
  datatype Context = Context(state: Hash, count0: u32, count1: u32, buffer: Block)

  // A chunk whose length leaves room for the index arithmetic in 32 bits.
  type Chunk = s: seq<byte> | |s| < 0x1_0000_0000 - 64

  // ----- what one update does -----

  function Count0(c: Context, len: nat): u32 {
    Wrap(c.count0 + Wrap(8 * len))
  }

  // The carry is read off the wrapped sum.
  function Count1(c: Context, len: nat): u32 {
    Wrap(Wrap(c.count1 + if Count0(c, len) < c.count0 then 1 else 0) + len / 0x2000_0000)
  }

  // Overwriting the bytes of a buffer from position `at` on.
  function CopyIn(buffer: Block, at: nat, s: seq<byte>): (r: Block)
    requires at + |s| <= 64
  {
    buffer[..at] + s + buffer[at + |s|..]
  }

  // The whole blocks of the data from `i` on, and where they end.
  function Whole(h: Hash, data: seq<byte>, i: nat): (r: (Hash, nat))
    requires i <= |data|
    ensures i <= r.1 <= |data| && |data| - r.1 < 64
    decreases |data| - i
  {
    if i + 63 < |data| then Whole(Compress(h, data[i..i + 64]), data, i + 64) else (h, i)
  }

  function Updated(c: Context, data: Chunk): Context {
    var j := c.count0 / 8 % 64;
    if j + |data| > 63 then
      var first: Block := CopyIn(c.buffer, j, data[..64 - j]);
      var (h, i) := Whole(Compress(c.state, first), data, 64 - j);
      Context(h, Count0(c, |data|), Count1(c, |data|), CopyIn(first, 0, data[i..]))
    else
      Context(c.state, Count0(c, |data|), Count1(c, |data|), CopyIn(c.buffer, j, data))
  }

  // ----- what a context stands for -----

  function Full(n: nat): nat {
    n - n % 64
  }

  // The first `full` bytes of the message are hashed, the rest is in the buffer, its length in bits counted modulo 2^64.
  ghost predicate Holds(c: Context, m: seq<byte>, full: nat) {
    && full % 64 == 0 && full <= |m| < full + 64
    && c.state == Blocks(IV, m[..full])
    && c.buffer[..|m| - full] == m[full..]
    && c.count0 + c.count1 * TWO32 == 8 * |m| % TWO64
  }

  ghost predicate Represents(c: Context, m: seq<byte>) {
    Holds(c, m, Full(|m|))
  }

  lemma OneFull(n: nat, full: nat)
    requires full % 64 == 0 && full <= n < full + 64
    ensures full == Full(n) && n - full == n % 64
  {
  }

  const INIT := Context(IV, 0, 0, Zeros(64))

  lemma InitRepresents()
    ensures Represents(INIT, [])
  {
    hide Compress;
    var m: seq<byte> := [];
    assert m[..Full(0)] == [] && Zeros(64)[..0] == [];
  }

  // ----- counting -----

  lemma CountLow(c0: u32, c1: u32, n: nat)
    requires c0 + c1 * TWO32 == 8 * n % TWO64
    ensures c0 == 8 * n % TWO32 && c0 / 8 % 64 == n % 64
  {
    var q := 8 * n / TWO64;
    var p := c1 + q * TWO32;
    assert 8 * n == p * TWO32 + c0;
    ModUnique(8 * n, TWO32, p, c0);
    assert n == c0 / 8 + p * 0x2000_0000;
    assert n == (p * 0x80_0000 + c0 / 8 / 64) * 64 + c0 / 8 % 64;
    ModUnique(n, 64, p * 0x80_0000 + c0 / 8 / 64, c0 / 8 % 64);
  }

  lemma CountUp(c: Context, n: nat, len: nat)
    requires c.count0 + c.count1 * TWO32 == 8 * n % TWO64 && len < TWO32
    ensures Count0(c, len) + Count1(c, len) * TWO32 == 8 * (n + len) % TWO64
  {
    hide Count0, Count1;
    var low, high := Wrap(8 * len), len / 0x2000_0000;
    assert 8 * len == low + high * TWO32;
    var carry := Carries(c, len);
    var sum := c.count1 + carry + high;
    var q, s := 8 * n / TWO64, sum / TWO32;
    assert 8 * n == q * TWO64 + c.count0 + c.count1 * TWO32;
    assert 8 * (n + len) == q * TWO64 + Count0(c, len) + sum * TWO32;
    assert 8 * (n + len) == (q + s) * TWO64 + Count0(c, len) + Count1(c, len) * TWO32;
    ModUnique(8 * (n + len), TWO64, q + s, Count0(c, len) + Count1(c, len) * TWO32);
  }

  lemma WrappedSum(a: u32, b: u32)
    ensures Wrap(a + b) == if a + b >= TWO32 then a + b - TWO32 else a + b
  {
    var carry := if a + b >= TWO32 then 1 else 0;
    ModUnique(a + b, TWO32, carry, a + b - carry * TWO32);
  }

  lemma WrappedTwice(a: nat, b: nat)
    ensures Wrap(Wrap(a) + b) == (a + b) % TWO32
  {
  }

  lemma Carries(c: Context, len: nat) returns (carry: nat)
    requires len < TWO32
    ensures carry <= 1 && Count0(c, len) == c.count0 + Wrap(8 * len) - carry * TWO32
    ensures Count1(c, len) == (c.count1 + carry + len / 0x2000_0000) % TWO32
  {
    hide Wrap;
    var low := Wrap(8 * len);
    carry := if c.count0 + low >= TWO32 then 1 else 0;
    WrappedSum(c.count0, low);
    WrappedTwice(c.count1 + carry, len / 0x2000_0000);
  }

  // ----- hashing -----

  lemma BlocksStep(h: Hash, p: seq<byte>, b: Block)
    requires |p| % 64 == 0
    ensures |p + b| % 64 == 0 && Blocks(h, p + b) == Compress(Blocks(h, p), b)
  {
    assert (p + b)[..|p + b| - 64] == p && (p + b)[|p + b| - 64..] == b;
  }

  // Hashing on from a whole number of blocks of `m`, the `i`-th byte of the data being next.
  lemma {:induction false} WholeIsBlocks(m: seq<byte>, data: seq<byte>, i: nat)
    requires i <= |data| && (|m| + i) % 64 == 0
    ensures var (h, i') := Whole(Blocks(IV, m + data[..i]), data, i);
      (|m| + i') % 64 == 0 && h == Blocks(IV, m + data[..i'])
    decreases |data| - i
  {
    hide Compress, Blocks;
    if i + 63 < |data| {
      var b: Block := data[i..i + 64];
      BlocksStep(IV, m + data[..i], b);
      assert m + data[..i] + b == m + data[..i + 64];
      WholeIsBlocks(m, data, i + 64);
    }
  }

  // The data does not complete a block.
  lemma ShortUpdate(c: Context, m: seq<byte>, data: Chunk, full: nat)
    requires Holds(c, m, full) && c.count0 / 8 % 64 == |m| - full && |m| - full + |data| <= 63
    ensures Holds(Updated(c, data), m + data, full)
  {
    hide Compress, Blocks, Count0, Count1;
    CountUp(c, |m|, |data|);
    assert (m + data)[..full] == m[..full];
    assert (m + data)[full..] == m[full..] + data;
  }

  // The data completes the block in the buffer, and perhaps more.
  lemma LongUpdate(c: Context, m: seq<byte>, data: Chunk, full: nat) returns (full': nat)
    requires Holds(c, m, full) && c.count0 / 8 % 64 == |m| - full && |m| - full + |data| > 63
    ensures Holds(Updated(c, data), m + data, full')
  {
    hide Compress, Blocks, Count0, Count1, Wrap;
    CountUp(c, |m|, |data|);
    var j := |m| - full;
    var first: Block := CopyIn(c.buffer, j, data[..64 - j]);
    BlocksStep(IV, m[..full], first);
    assert m[..full] + first == m + data[..64 - j];
    WholeIsBlocks(m, data, 64 - j);
    var i := Whole(Compress(c.state, first), data, 64 - j).1;
    full' := |m| + i;
    assert (m + data)[..full'] == m + data[..i];
    assert (m + data)[full'..] == data[i..];
  }

  /** An update appends its bytes to the message the context stands for. */
  lemma UpdatedRepresents(c: Context, m: seq<byte>, data: Chunk)
    requires Represents(c, m)
    ensures Represents(Updated(c, data), m + data)
  {
    hide Updated, Blocks, Compress;
    var full := Full(|m|);
    CountLow(c.count0, c.count1, |m|);
    OneFull(|m|, full);
    if |m| - full + |data| > 63 {
      full := LongUpdate(c, m, data, full);
    } else {
      ShortUpdate(c, m, data, full);
    }
    OneFull(|m + data|, full);
  }

  function UpdatedAll(c: Context, chunks: seq<Chunk>): Context {
    if chunks == [] then c else Updated(UpdatedAll(c, chunks[..|chunks| - 1]), chunks[|chunks| - 1])
  }

  function Concat(chunks: seq<Chunk>): seq<byte> {
    if chunks == [] then [] else Concat(chunks[..|chunks| - 1]) + chunks[|chunks| - 1]
  }

  lemma {:induction false} ChunksRepresent(chunks: seq<Chunk>)
    ensures Represents(UpdatedAll(INIT, chunks), Concat(chunks))
  {
    hide Updated, Represents;
    if chunks == [] {
      InitRepresents();
    } else {
      ChunksRepresent(chunks[..|chunks| - 1]);
      UpdatedRepresents(UpdatedAll(INIT, chunks[..|chunks| - 1]), Concat(chunks[..|chunks| - 1]), chunks[|chunks| - 1]);
    }
  }

  /** However a message is cut into chunks, the context ends up with the same state, counts and buffered bytes. */
  lemma ChunkingDoesNotMatter(a: seq<Chunk>, b: seq<Chunk>)
    requires Concat(a) == Concat(b)
    ensures var (ca, cb, n) := (UpdatedAll(INIT, a), UpdatedAll(INIT, b), |Concat(a)| % 64);
      && ca.state == cb.state && ca.count0 == cb.count0 && ca.count1 == cb.count1 && ca.buffer[..n] == cb.buffer[..n]
  {
    hide Updated, Blocks;
    ChunksRepresent(a);
    ChunksRepresent(b);
    var ca, cb := UpdatedAll(INIT, a), UpdatedAll(INIT, b);
    OneFull(|Concat(a)|, Full(|Concat(a)|));
    CountLow(ca.count0, ca.count1, |Concat(a)|);
    CountLow(cb.count0, cb.count1, |Concat(b)|);
  }
}
