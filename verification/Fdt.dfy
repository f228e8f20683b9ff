/**
 The flattened device tree: the builder that appends tokens to one buffer and property
 names to another, and the scanner that reads a finished blob.
 */
module Fdt {
  import opened Words

  type u8 = x: int | 0 <= x < 256

  // C strings, those whose size with the terminator fits 32 bits, and property values.
  type CStr = s: seq<u8> | 0 !in s
  type Str = s: seq<u8> | 0 !in s && |s| < TWO32 - 1
  type Value = s: seq<u8> | |s| < TWO32

  datatype Token = Begin(name: Str) | Prop(prop: Str, value: Value) | EndNode | Nop

  const FDT_MAGIC: u32 := 0xd00d_feed
  const FDT_BEGIN_NODE: u32 := 1
  const FDT_END_NODE: u32 := 2
  const FDT_PROP: u32 := 3
  const FDT_NOP: u32 := 4
  const FDT_END: u32 := 9

  const HEADER_SIZE: nat := 40
  const STRUCT_BASE: nat := 56   // behind the header and an empty memory reservation block

  // ----- bytes -----

  function Be32(v: u32): (r: seq<u8>)
    ensures |r| == 4
  {
    [v / 0x100_0000, v / 0x1_0000 % 256, v / 0x100 % 256, v % 256]
  }

  function Read32(s: seq<u8>, p: nat): u32
    requires p + 4 <= |s|
  {
    var b0: int, b1: int, b2: int, b3: int := s[p], s[p + 1], s[p + 2], s[p + 3];
    b0 * 0x100_0000 + b1 * 0x1_0000 + b2 * 0x100 + b3
  }

  function Align4(n: nat): (r: nat)
    ensures n <= r < n + 4
  {
    (n + 3) / 4 * 4
  }

  // ALIGN32 on a 32-bit size.
  function Align32(n: u32): u32 {
    if n % 4 == 0 then n else Wrap(n - n % 4 + 4)
  }

  function Zeros(n: nat): (r: seq<u8>)
    ensures |r| == n
  {
    seq(n, _ => 0)
  }

  // Overwriting the bytes from `at` on.
  function Put(s: seq<u8>, at: nat, bytes: seq<u8>): (r: seq<u8>)
    requires at + |bytes| <= |s|
    ensures |r| == |s|
  {
    s[..at] + bytes + s[at + |bytes|..]
  }

  // The header, field by field.
  function Header(total: u32, offStrings: u32, sizeStrings: u32, sizeStruct: u32): (r: seq<u8>)
    ensures |r| == HEADER_SIZE
  {
    Be32(FDT_MAGIC) + Be32(total) + Be32(STRUCT_BASE) + Be32(offStrings) + Be32(HEADER_SIZE) + Be32(17) + Be32(2) + Be32(0)
    + Be32(sizeStrings) + Be32(sizeStruct)
  }

  lemma PutHeader(size: nat, header: seq<u8>)
    requires |header| == HEADER_SIZE <= size
    ensures Put(Zeros(size), 0, header) == header + Zeros(size - HEADER_SIZE)
  {
  }

  // ----- the builder -----

  datatype Blob = Blob(buffer: seq<u8>, iptr: nat, strings: seq<u8>, siptr: nat) {
    predicate Valid() {
      STRUCT_BASE <= iptr <= |buffer| < 0x8000_0000 && siptr <= |strings| < 0x8000_0000
    }
  }

  function Init(size: nat, stringSize: nat): (b: Blob)
    requires STRUCT_BASE <= size < 0x8000_0000 && stringSize < 0x8000_0000
    ensures b.Valid()
  {
    Blob(Header(0, 0, 0, 0) + Zeros(size - HEADER_SIZE), STRUCT_BASE, Zeros(stringSize), 0)
  }

  // Appending the bytes of a token and skipping its padding; `None` is a failed assertion.
  function Append(b: Blob, bytes: seq<u8>): (r: Option<Blob>)
    requires b.Valid()
    ensures r.Some? ==> r.value.Valid()
  {
    if Align4(|bytes|) <= |b.buffer| - b.iptr
    then Some(b.(buffer := Put(b.buffer, b.iptr, bytes), iptr := b.iptr + Align4(|bytes|)))
    else None
  }

  function BeginNode(b: Blob, name: CStr): Option<Blob>
    requires b.Valid()
  {
    // The terminating zero is not written: the buffer is still zero there.
    if Align4(5 + |name|) <= |b.buffer| - b.iptr
    then Some(b.(buffer := Put(b.buffer, b.iptr, Be32(FDT_BEGIN_NODE) + name), iptr := b.iptr + Align4(5 + |name|)))
    else None
  }

  // The size of the name is kept in 32 bits.
  function AddProp(b: Blob, name: CStr, value: Value): (r: Option<Blob>)
    requires b.Valid()
  {
    match Append(b, Be32(FDT_PROP) + Be32(|value|) + Be32(b.siptr) + value)
    case None => None
    case Some(b') =>
      var size := Wrap(|name| + 1);
      if size < |b.strings| - b.siptr
      then Some(b'.(strings := Put(b.strings, b.siptr, (name + [0])[..size]), siptr := b.siptr + size))
      else None
  }

  function AddToken(b: Blob, t: Token): (r: Option<Blob>)
    requires b.Valid()
    ensures r.Some? ==> r.value.Valid()
  {
    match t
    case Begin(name) => BeginNode(b, name)
    case Prop(name, value) => AddProp(b, name, value)
    case EndNode => Append(b, Be32(FDT_END_NODE))
    case Nop => Append(b, Be32(FDT_NOP))
  }

  // The end token, the sizes, and the strings behind the structure.
  function End(b: Blob): Option<Blob>
    requires b.Valid()
  {
    match Append(b, Be32(FDT_END))
    case None => None
    case Some(b1) =>
      if b1.siptr > |b1.buffer| - b1.iptr then None
      else
        var header := Header(b1.iptr + b1.siptr, b1.iptr, b1.siptr, b1.iptr - STRUCT_BASE);
        Some(b1.(buffer := Put(Put(b1.buffer, 0, header), b1.iptr, b1.strings[..b1.siptr]), iptr := b1.iptr + b1.siptr))
  }

  // All the tokens, in order.
  function AddAll(b: Blob, ts: seq<Token>): (r: Option<Blob>)
    requires b.Valid()
    ensures r.Some? ==> r.value.Valid()
  {
    if ts == [] then Some(b)
    else
      match AddAll(b, ts[..|ts| - 1])
      case None => None
      case Some(b') => AddToken(b', ts[|ts| - 1])
  }

  // ----- the scanner -----

  function CString(s: seq<u8>, p: nat): (r: Option<seq<u8>>)
    ensures r.Some? ==> p + |r.value| < |s| && 0 !in r.value
    decreases |s| - p
  {
    if p >= |s| then None
    else if s[p] == 0 then Some([])
    else
      match CString(s, p + 1)
      case None => None
      case Some(rest) => Some([s[p]] + rest)
  }

  // The tokens from `p` on. `None`: an unknown token, or a read outside the blob.
  function ScanFrom(dtb: seq<u8>, p: nat): Option<seq<Token>>
    requires HEADER_SIZE <= |dtb| < 0x8000_0000
    decreases |dtb| - p
  {
    if p + 4 > |dtb| then None
    else if Read32(dtb, p) == FDT_END then Some([])
    else
      match ScanToken(dtb, p)
      case None => None
      case Some((t, next)) =>
        match ScanFrom(dtb, next)
        case None => None
        case Some(rest) => Some([t] + rest)
  }

  // One token and where the next one starts.
  function ScanToken(dtb: seq<u8>, p: nat): (r: Option<(Token, nat)>)
    requires HEADER_SIZE <= |dtb| < 0x8000_0000 && p + 4 <= |dtb|
    ensures r.Some? ==> r.value.1 > p
  {
    var token := Read32(dtb, p);
    if token == FDT_BEGIN_NODE then
      match CString(dtb, p + 4)
      case None => None
      case Some(name) => Some((Begin(name), Align4(p + 4 + |name| + 1)))
    else if token == FDT_PROP then
      if p + 12 > |dtb| then None
      else
        var len, nameOff := Read32(dtb, p + 4), Read32(dtb, p + 8);
        match CString(dtb, Read32(dtb, 12) + nameOff)
        case None => None
        case Some(name) =>
          if p + 12 + len > |dtb| then None
          else Some((Prop(name, dtb[p + 12..p + 12 + len]), Align4(p + 12 + len)))
    else if token == FDT_NOP then Some((Nop, p + 4))
    else if token == FDT_END_NODE then Some((EndNode, p + 4))
    else None
  }

  function Scan(dtb: seq<u8>): Option<seq<Token>>
    requires HEADER_SIZE <= |dtb| < 0x8000_0000
  {
    ScanFrom(dtb, Read32(dtb, 8))
  }

  // ----- in place -----

  // A wrapped room is small, but then the bytes themselves do not fit any buffer.
  lemma RoomWraps(size: nat, bytes: nat, available: nat)
    requires bytes <= size <= bytes + 1 && available < 0x8000_0000
    ensures Align32(Wrap(size)) <= available && bytes <= available <==> Align4(size) <= available
    ensures bytes <= available ==> Align32(Wrap(size)) == Align4(size)
  {
    if bytes <= available {
      assert Wrap(size) == size;
    }
  }

  lemma PutOneMore(s: seq<u8>, at: nat, bytes: seq<u8>, k: nat)
    requires k < |bytes| && at + |bytes| <= |s|
    ensures Put(s, at, bytes[..k])[at + k := bytes[k]] == Put(s, at, bytes[..k + 1])
  {
  }

  method CopyBytes(a: array<u8>, at: nat, s: seq<u8>)
    requires at + |s| <= a.Length
    modifies a
    ensures a[..] == Put(old(a[..]), at, s)
  {
    hide Put;
    ghost var was := a[..];
    assert Put(was, at, []) == was by { PutNothing(was, at); }
    for k := 0 to |s|
      invariant a[..] == Put(was, at, s[..k])
    {
      PutOneMore(was, at, s, k);
      ghost var now := a[..];
      a[at + k] := s[k];
      assert a[..] == now[at + k := s[k]];
    }
    assert s[..|s|] == s;
  }

  lemma PutNothing(s: seq<u8>, at: nat)
    requires at <= |s|
    ensures Put(s, at, []) == s
  {
  }

  class FdtBuilder {
    const buffer: array<u8>
    var iptr: nat
    const strings: array<u8>
    var siptr: nat

    ghost predicate Valid()
      reads this, buffer, strings
    {
      buffer != strings && View().Valid()
    }

    ghost function View(): Blob
      reads this, buffer, strings
    {
      Blob(buffer[..], iptr, strings[..], siptr)
    }

    constructor (size: nat, stringSize: nat)
      requires STRUCT_BASE <= size < 0x8000_0000 && stringSize < 0x8000_0000
      ensures Valid() && fresh(buffer) && fresh(strings) && View() == Init(size, stringSize)
    {
      buffer := new u8[size](_ => 0);
      strings := new u8[stringSize](_ => 0);
      iptr, siptr := STRUCT_BASE, 0;
      new;
      hide Header;
      assert buffer[..] == Zeros(size) && strings[..] == Zeros(stringSize);
      PutHeader(size, Header(0, 0, 0, 0));
      CopyBytes(buffer, 0, Header(0, 0, 0, 0));
    }

    // The methods return false where an assertion would end the emulator, or where a size that wrapped in 32 bits
    // would let it write outside its buffer.

    method AddBeginNode(name: CStr) returns (ok: bool)
      requires Valid()
      modifies this, buffer
      ensures Valid() && (ok <==> BeginNode(old(View()), name).Some?)
      ensures ok ==> BeginNode(old(View()), name) == Some(View())
    {
      var roomAvailable := buffer.Length - iptr;
      var roomNeeded := Align32(Wrap(4 + |name| + 1));
      RoomWraps(4 + |name| + 1, 4 + |name|, roomAvailable);
      if roomNeeded > roomAvailable || 4 + |name| > roomAvailable {
        return false;
      }
      CopyBytes(buffer, iptr, Be32(FDT_BEGIN_NODE) + name);
      iptr := iptr + roomNeeded;
      return true;
    }

    method AppendWord(token: u32) returns (ok: bool)
      requires Valid()
      modifies this, buffer
      ensures Valid() && (ok <==> Append(old(View()), Be32(token)).Some?)
      ensures ok ==> Append(old(View()), Be32(token)) == Some(View())
    {
      if buffer.Length - iptr < 4 {
        return false;
      }
      CopyBytes(buffer, iptr, Be32(token));
      iptr := iptr + 4;
      return true;
    }

    method AddProperty(name: CStr, value: Value) returns (ok: bool)
      requires Valid()
      modifies this, buffer, strings
      ensures ok <==> AddProp(old(View()), name, value).Some?
      ensures ok ==> Valid() && AddProp(old(View()), name, value) == Some(View())
    {
      hide Put, Be32;
      var roomAvailable := buffer.Length - iptr;
      var roomNeeded := Align32(Wrap(12 + |value|));
      RoomWraps(12 + |value|, 12 + |value|, roomAvailable);
      if roomNeeded > roomAvailable || 12 + |value| > roomAvailable {
        return false;
      }
      CopyBytes(buffer, iptr, Be32(FDT_PROP) + Be32(|value|) + Be32(siptr) + value);
      iptr := iptr + roomNeeded;
      var nameSize := Wrap(|name| + 1);
      if nameSize >= strings.Length - siptr {
        return false;
      }
      CopyBytes(strings, siptr, (name + [0])[..nameSize]);
      siptr := siptr + nameSize;
      return true;
    }

    method AddEnd() returns (ok: bool)
      requires Valid()
      modifies this, buffer
      ensures ok <==> End(old(View())).Some?
      ensures ok ==> End(old(View())) == Some(View())
    {
      hide Put, Be32, Header;
      ok := AppendWord(FDT_END);
      if !ok || siptr > buffer.Length - iptr {
        return false;
      }
      CopyBytes(buffer, 0, Header(iptr + siptr, iptr, siptr, iptr - STRUCT_BASE));
      CopyBytes(buffer, iptr, strings[..siptr]);
      iptr := iptr + siptr;
      return true;
    }
  }

  // The scanner's loop, collecting what it meets; `None` where it would abort or leave the blob.
  method ScanFdtTokens(dtb: array<u8>) returns (found: Option<seq<Token>>)
    requires HEADER_SIZE <= dtb.Length < 0x8000_0000
    ensures found == Scan(dtb[..])
  {
    hide ScanToken, Read32;
    var tokens: seq<Token> := [];
    var p := Read32(dtb[..], 8);
    var toStop := false;
    JoinNothing(Scan(dtb[..]));
    while !toStop
      invariant Joined(tokens, if toStop then Some([]) else ScanFrom(dtb[..], p)) == Scan(dtb[..])
      decreases !toStop, dtb.Length - p
    {
      if p + 4 > dtb.Length {
        return None;
      }
      if Read32(dtb[..], p) == FDT_END {
        toStop := true;
      } else {
        var t := ScanToken(dtb[..], p);
        if t == None {
          return None;
        }
        JoinNext(tokens, t.value.0, ScanFrom(dtb[..], t.value.1));
        tokens := tokens + [t.value.0];
        p := t.value.1;
      }
    }
    assert tokens + [] == tokens;
    return Some(tokens);
  }

  function Joined(a: seq<Token>, b: Option<seq<Token>>): Option<seq<Token>> {
    match b
    case None => None
    case Some(s) => Some(a + s)
  }

  lemma JoinNothing(b: Option<seq<Token>>)
    ensures Joined([], b) == b
  {
    if b.Some? {
      assert [] + b.value == b.value;
    }
  }

  lemma JoinNext(a: seq<Token>, t: Token, b: Option<seq<Token>>)
    ensures Joined(a, Joined([t], b)) == Joined(a + [t], b)
  {
    if b.Some? {
      assert a + ([t] + b.value) == a + [t] + b.value;
    }
  }
}
