/** Scanning what the builder built gives back exactly the tokens, names and values. */
module FdtProof {
  import opened Words
  import opened Fdt

  // ----- what a token list looks like in the two buffers -----

  // The bytes a token occupies, its property name being at `nameOff` of the strings.
  function Encode(t: Token, nameOff: u32): (r: seq<u8>)
    ensures |r| % 4 == 0 && |r| >= 4
  {
    match t
    case Begin(name) => Padded(Be32(FDT_BEGIN_NODE) + name, 5 + |name|)
    case Prop(name, value) => Padded(Be32(FDT_PROP) + Be32(|value|) + Be32(nameOff) + value, 12 + |value|)
    case EndNode => Be32(FDT_END_NODE)
    case Nop => Be32(FDT_NOP)
  }

  function Padded(bytes: seq<u8>, needed: nat): (r: seq<u8>)
    requires |bytes| <= needed
    ensures |r| == Align4(needed) && |r| % 4 == 0
  {
    bytes + Zeros(Align4(needed) - |bytes|)
  }

  function NameOf(t: Token): seq<u8> {
    if t.Prop? then t.prop + [0] else []
  }

  function Names(ts: seq<Token>): seq<u8> {
    if ts == [] then [] else Names(ts[..|ts| - 1]) + NameOf(ts[|ts| - 1])
  }

  // Tokens whose names fill less than the 32 bits an offset has.
  ghost predicate Addressable(ts: seq<Token>) {
    |Names(ts)| < 0x8000_0000
  }

  lemma {:induction false} AddressablePrefix(ts: seq<Token>)
    requires Addressable(ts) && ts != []
    ensures Addressable(ts[..|ts| - 1]) && |Names(ts)| == |Names(ts[..|ts| - 1])| + |NameOf(ts[|ts| - 1])|
  {
  }

  // The structure block of the tokens, without the end token.
  function Struct(ts: seq<Token>): (r: seq<u8>)
    requires Addressable(ts)
    ensures |r| % 4 == 0
  {
    if ts == [] then []
    else
      AddressablePrefix(ts);
      Aligned(Struct(ts[..|ts| - 1]), Encode(ts[|ts| - 1], |Names(ts[..|ts| - 1])|));
      Struct(ts[..|ts| - 1]) + Encode(ts[|ts| - 1], |Names(ts[..|ts| - 1])|)
  }

  lemma Aligned(a: seq<u8>, b: seq<u8>)
    requires |a| % 4 == 0 && |b| % 4 == 0
    ensures |a + b| % 4 == 0
  {
  }

  // ----- building -----

  const DRAFT: seq<u8> := Header(0, 0, 0, 0) + Zeros(16)

  // The buffers of a build in progress: what the tokens say, and zeros past both cursors.
  ghost predicate Represents(b: Blob, ts: seq<Token>) {
    && b.Valid() && Addressable(ts)
    && b.iptr == STRUCT_BASE + |Struct(ts)|
    && b.buffer == DRAFT + Struct(ts) + Zeros(|b.buffer| - b.iptr)
    && b.siptr == |Names(ts)|
    && b.strings == Names(ts) + Zeros(|b.strings| - b.siptr)
  }

  lemma InitRepresents(size: nat, stringSize: nat)
    requires STRUCT_BASE <= size < 0x8000_0000 && stringSize < 0x8000_0000
    ensures Represents(Init(size, stringSize), [])
  {
    hide Header;
  }

  // Writing at the cursor of a buffer that is zero from there on.
  lemma PutAtCursor(done: seq<u8>, room: nat, bytes: seq<u8>, needed: nat)
    requires |bytes| <= needed && Align4(needed) <= room
    ensures Put(done + Zeros(room), |done|, bytes) == done + Padded(bytes, needed) + Zeros(room - Align4(needed))
  {
    hide Align4;
    var left, right := Put(done + Zeros(room), |done|, bytes), done + Padded(bytes, needed) + Zeros(room - Align4(needed));
    assert |left| == |right|;
    forall k | 0 <= k < |left|
      ensures left[k] == right[k]
    {
    }
  }

  lemma NamesGrow(ts: seq<Token>, t: Token)
    ensures Names(ts + [t]) == Names(ts) + NameOf(t)
  {
    assert (ts + [t])[..|ts|] == ts;
  }

  lemma StructGrows(ts: seq<Token>, t: Token)
    requires Addressable(ts + [t])
    ensures Addressable(ts) && Struct(ts + [t]) == Struct(ts) + Encode(t, |Names(ts)|)
  {
    hide Encode;
    AddressablePrefix(ts + [t]);
    assert (ts + [t])[..|ts|] == ts;
  }

  // The room a token asks for in the structure buffer and in the strings.
  function Needed(t: Token): (r: nat)
    ensures r >= 4
  {
    match t
    case Begin(name) => 5 + |name|
    case Prop(_, value) => 12 + |value|
    case _ => 4
  }

  predicate Fits(b: Blob, t: Token)
    requires b.Valid()
  {
    Align4(Needed(t)) <= |b.buffer| - b.iptr && (t.Prop? ==> |t.prop| + 1 < |b.strings| - b.siptr)
  }

  // The bytes written for a token, before its padding.
  function Bytes(t: Token, nameOff: u32): (r: seq<u8>)
    ensures |r| <= Needed(t)
    ensures Encode(t, nameOff) == Padded(r, Needed(t))
  {
    match t
    case Begin(name) => Be32(FDT_BEGIN_NODE) + name
    case Prop(name, value) => Be32(FDT_PROP) + Be32(|value|) + Be32(nameOff) + value
    case EndNode => PaddedWord(Be32(FDT_END_NODE)); Be32(FDT_END_NODE)
    case Nop => PaddedWord(Be32(FDT_NOP)); Be32(FDT_NOP)
  }

  lemma PaddedWord(w: seq<u8>)
    requires |w| == 4
    ensures Padded(w, 4) == w
  {
  }

  lemma AddTokenIs(b: Blob, t: Token)
    requires b.Valid()
    ensures AddToken(b, t).Some? <==> Fits(b, t)
    ensures Fits(b, t) ==>
      AddToken(b, t).value == Blob(Put(b.buffer, b.iptr, Bytes(t, b.siptr)), b.iptr + Align4(Needed(t)),
                                   Put(b.strings, b.siptr, NameOf(t)), b.siptr + |NameOf(t)|)
  {
    hide Be32, Align4;
    assert !t.Prop? ==> Put(b.strings, b.siptr, NameOf(t)) == b.strings;
    WordAligned();
  }

  lemma WordAligned()
    ensures Align4(4) == 4
  {
  }

  /** Adding a token that fits appends its encoding, and leaves zeros behind both cursors. */
  lemma AddTokenRepresents(b: Blob, ts: seq<Token>, t: Token)
    requires Represents(b, ts) && Fits(b, t)
    ensures AddToken(b, t).Some? && Represents(AddToken(b, t).value, ts + [t])
  {
    hide AddToken, Encode, Needed, Bytes, Padded, Align4, Names, Struct, NameOf, Be32;
    AddTokenIs(b, t);
    NamesGrow(ts, t);
    NameFits(b, t);
    StructGrows(ts, t);
    var bytes := Bytes(t, b.siptr);
    PutAtCursor(DRAFT + Struct(ts), |b.buffer| - b.iptr, bytes, Needed(t));
    assert |DRAFT| == STRUCT_BASE;
    PutName(Names(ts), |b.strings| - b.siptr, NameOf(t));
    assert DRAFT + Struct(ts) + Encode(t, b.siptr) == DRAFT + Struct(ts + [t]);
  }

  lemma NameFits(b: Blob, t: Token)
    requires b.Valid() && Fits(b, t)
    ensures b.siptr + |NameOf(t)| <= |b.strings|
  {
  }

  lemma PutName(done: seq<u8>, room: nat, name: seq<u8>)
    requires |name| <= room
    ensures Put(done + Zeros(room), |done|, name) == done + name + Zeros(room - |name|)
  {
  }

  // The structure fits its buffer, and the names theirs with a byte to spare.
  ghost predicate Roomy(size: nat, stringSize: nat, ts: seq<Token>) {
    Addressable(ts) && STRUCT_BASE + |Struct(ts)| <= size && (Names(ts) == [] || |Names(ts)| < stringSize)
  }

  lemma RoomyPrefix(size: nat, stringSize: nat, ts: seq<Token>, t: Token)
    requires Roomy(size, stringSize, ts + [t])
    ensures Roomy(size, stringSize, ts)
  {
    hide Names, Struct, Encode, NameOf;
    NamesGrow(ts, t);
    StructGrows(ts, t);
  }

  lemma FitsIffRoomy(b: Blob, ts: seq<Token>, t: Token)
    requires Represents(b, ts) && Roomy(|b.buffer|, |b.strings|, ts)
    ensures Fits(b, t) <==> Roomy(|b.buffer|, |b.strings|, ts + [t])
  {
    hide Names, Struct, Encode, Align4, Bytes, Padded;
    NamesGrow(ts, t);
    if Addressable(ts + [t]) {
      StructGrows(ts, t);
      var bytes := Bytes(t, |Names(ts)|);
    }
  }

  lemma SameSizes(b: Blob, t: Token)
    requires b.Valid() && AddToken(b, t).Some?
    ensures |AddToken(b, t).value.buffer| == |b.buffer| && |AddToken(b, t).value.strings| == |b.strings|
  {
    hide Be32, Align4;
  }

  /** Building fails exactly when a buffer is too small, and otherwise the buffers say what was added. */
  lemma {:induction false} BuildRepresents(size: nat, stringSize: nat, ts: seq<Token>)
    requires STRUCT_BASE <= size < 0x8000_0000 && stringSize < 0x8000_0000
    ensures var r := AddAll(Init(size, stringSize), ts);
      && (r.Some? <==> Roomy(size, stringSize, ts))
      && (r.Some? ==> Represents(r.value, ts) && |r.value.buffer| == size && |r.value.strings| == stringSize)
  {
    hide AddToken, Represents, Struct, Fits, Roomy, Header;
    if ts == [] {
      InitRepresents(size, stringSize);
      assert Roomy(size, stringSize, ts) by { NothingIsRoomy(size, stringSize); }
    } else {
      var before, t := ts[..|ts| - 1], ts[|ts| - 1];
      assert before + [t] == ts;
      BuildRepresents(size, stringSize, before);
      var r := AddAll(Init(size, stringSize), before);
      if r.Some? {
        FitsIffRoomy(r.value, before, t);
        AddTokenIs(r.value, t);
        if Fits(r.value, t) {
          AddTokenRepresents(r.value, before, t);
          SameSizes(r.value, t);
        }
      } else if Roomy(size, stringSize, ts) {
        RoomyPrefix(size, stringSize, before, t);
      }
    }
  }

  lemma NothingIsRoomy(size: nat, stringSize: nat)
    requires STRUCT_BASE <= size
    ensures Roomy(size, stringSize, [])
  {
  }

  // ----- finishing -----

  function OffStrings(ts: seq<Token>): nat
    requires Addressable(ts)
  {
    STRUCT_BASE + |Struct(ts)| + 4
  }

  function FinishedSize(ts: seq<Token>): nat
    requires Addressable(ts)
  {
    OffStrings(ts) + |Names(ts)|
  }

  // The finished blob: header, empty reservation block, structure, strings.
  function Finished(ts: seq<Token>): (r: seq<u8>)
    requires Addressable(ts) && FinishedSize(ts) < TWO32
    ensures |r| == FinishedSize(ts)
  {
    Header(OffStrings(ts) + |Names(ts)|, OffStrings(ts), |Names(ts)|, |Struct(ts)| + 4)
    + Zeros(16) + Struct(ts) + Be32(FDT_END) + Names(ts)
  }

  lemma SwapHeader(draft: seq<u8>, header: seq<u8>, done: seq<u8>, rest: seq<u8>)
    requires |draft| == |header| == HEADER_SIZE
    ensures Put(draft + done + rest, 0, header) == header + done + rest
  {
  }

  lemma PutNames(done: seq<u8>, room: nat, names: seq<u8>)
    requires |names| <= room
    ensures Put(done + Zeros(room), |done|, names)[..|done| + |names|] == done + names
  {
  }

  // The zero reservation block, the structure and the end token.
  function Body(ts: seq<Token>): seq<u8>
    requires Addressable(ts)
  {
    Zeros(16) + Struct(ts) + Be32(FDT_END)
  }

  lemma EndTokenAppended(b: Blob, ts: seq<Token>)
    requires Represents(b, ts) && 4 <= |b.buffer| - b.iptr
    ensures var b1 := Append(b, Be32(FDT_END));
      && b1.Some? && b1.value.iptr == b.iptr + 4 && b1.value.strings == b.strings && b1.value.siptr == b.siptr
      && b1.value.buffer == Header(0, 0, 0, 0) + Body(ts) + Zeros(|b.buffer| - b.iptr - 4)
  {
    hide Header, Be32, Struct, Names;
    WordAligned();
    PaddedWord(Be32(FDT_END));
    PutAtCursor(DRAFT + Struct(ts), |b.buffer| - b.iptr, Be32(FDT_END), 4);
    assert DRAFT + Struct(ts) + Be32(FDT_END) == Header(0, 0, 0, 0) + Body(ts);
  }

  /** Finishing succeeds exactly when the end token and the strings still fit, and makes the blob with its sizes and offsets. */
  lemma EndFinishes(b: Blob, ts: seq<Token>)
    requires Represents(b, ts)
    ensures var r := End(b);
      && (r.Some? <==> FinishedSize(ts) <= |b.buffer|)
      && (r.Some? ==> r.value.iptr == FinishedSize(ts) && r.value.buffer[..r.value.iptr] == Finished(ts))
  {
    hide Header, Be32, Struct, Names, Put;
    WordAligned();
    if 4 <= |b.buffer| - b.iptr {
      EndTokenAppended(b, ts);
      var b1 := Append(b, Be32(FDT_END)).value;
      var room := |b.buffer| - b1.iptr;
      if |Names(ts)| <= room {
        var header := Header(b1.iptr + b1.siptr, b1.iptr, b1.siptr, b1.iptr - STRUCT_BASE);
        SwapHeader(Header(0, 0, 0, 0), header, Body(ts), Zeros(room));
        assert b1.strings[..b1.siptr] == Names(ts);
        PutNames(header + Body(ts), room, Names(ts));
        assert header + Body(ts) + Names(ts) == Finished(ts);
      }
    }
  }

  // ----- scanning -----

  ghost predicate At(dtb: seq<u8>, p: nat, bytes: seq<u8>) {
    p + |bytes| <= |dtb| && dtb[p..p + |bytes|] == bytes
  }

  lemma AtParts(dtb: seq<u8>, p: nat, a: seq<u8>, b: seq<u8>)
    requires At(dtb, p, a + b)
    ensures At(dtb, p, a) && At(dtb, p + |a|, b)
  {
    assert dtb[p..p + |a|] == (a + b)[..|a|];
    assert dtb[p + |a|..p + |a| + |b|] == (a + b)[|a|..];
  }

  lemma ReadAt(dtb: seq<u8>, p: nat, v: u32)
    requires At(dtb, p, Be32(v))
    ensures Read32(dtb, p) == v
  {
    var w := Be32(v);
    assert dtb[p] == w[0] && dtb[p + 1] == w[1] && dtb[p + 2] == w[2] && dtb[p + 3] == w[3];
    FourBytes(v);
  }

  lemma FourBytes(v: u32)
    ensures v == v / 0x100_0000 * 0x100_0000 + v / 0x1_0000 % 256 * 0x1_0000 + v / 0x100 % 256 * 0x100 + v % 256
  {
    assert v / 0x100 == v / 0x1_0000 * 256 + v / 0x100 % 256;
    assert v / 0x1_0000 == v / 0x100_0000 * 256 + v / 0x1_0000 % 256;
  }

  lemma {:induction false} CStringAt(dtb: seq<u8>, p: nat, name: seq<u8>)
    requires 0 !in name && At(dtb, p, name + [0])
    ensures CString(dtb, p) == Some(name)
    decreases |name|
  {
    assert dtb[p] == (name + [0])[0];
    if name != [] {
      AtParts(dtb, p, [name[0]], name[1..] + [0]);
      assert [name[0]] + (name[1..] + [0]) == name + [0];
      CStringAt(dtb, p + 1, name[1..]);
      assert dtb[p] == name[0] && name[0] in name && name == [name[0]] + name[1..];
    }
  }

  lemma AlignShift(p: nat, n: nat)
    requires p % 4 == 0
    ensures Align4(p + n) == p + Align4(n)
  {
  }

  // A token where it was encoded, with its name where it belongs, is scanned as itself.
  lemma TokenScanned(dtb: seq<u8>, p: nat, t: Token, nameOff: u32)
    requires HEADER_SIZE <= |dtb| < 0x8000_0000 && p % 4 == 0 && At(dtb, p, Encode(t, nameOff))
    requires t.Prop? ==> At(dtb, Read32(dtb, 12) + nameOff, t.prop + [0])
    ensures Read32(dtb, p) != FDT_END && ScanToken(dtb, p) == Some((t, p + |Encode(t, nameOff)|))
  {
    hide Be32, Align4, Read32, ScanToken, At, Padded;
    match t
    case Begin(name) => BeginScanned(dtb, p, name);
    case Prop(name, value) => PropScanned(dtb, p, name, value, nameOff);
    case EndNode => WordScanned(dtb, p, t);
    case Nop => WordScanned(dtb, p, t);
  }

  lemma WordScanned(dtb: seq<u8>, p: nat, t: Token)
    requires HEADER_SIZE <= |dtb| < 0x8000_0000 && (t.EndNode? || t.Nop?)
    requires At(dtb, p, Be32(if t.EndNode? then FDT_END_NODE else FDT_NOP))
    ensures p + 4 <= |dtb| && Read32(dtb, p) != FDT_END && ScanToken(dtb, p) == Some((t, p + 4))
  {
    hide Be32, Read32;
    ReadAt(dtb, p, if t.EndNode? then FDT_END_NODE else FDT_NOP);
  }

  lemma BeginScanned(dtb: seq<u8>, p: nat, name: Str)
    requires HEADER_SIZE <= |dtb| < 0x8000_0000 && p % 4 == 0
    requires At(dtb, p, Padded(Be32(FDT_BEGIN_NODE) + name, 5 + |name|))
    ensures Read32(dtb, p) == FDT_BEGIN_NODE && ScanToken(dtb, p) == Some((Begin(name), p + Align4(5 + |name|)))
  {
    hide Be32, Align4, Read32;
    var zeros := Zeros(Align4(5 + |name|) - 4 - |name|);
    assert Padded(Be32(FDT_BEGIN_NODE) + name, 5 + |name|) == Be32(FDT_BEGIN_NODE) + (name + [0] + zeros[1..]);
    AtParts(dtb, p, Be32(FDT_BEGIN_NODE), name + [0] + zeros[1..]);
    ReadAt(dtb, p, FDT_BEGIN_NODE);
    AtParts(dtb, p + 4, name + [0], zeros[1..]);
    CStringAt(dtb, p + 4, name);
    AlignShift(p, 5 + |name|);
  }

  // The fields of an encoded property.
  lemma PropFields(dtb: seq<u8>, p: nat, value: Value, nameOff: u32)
    requires At(dtb, p, Padded(Be32(FDT_PROP) + Be32(|value|) + Be32(nameOff) + value, 12 + |value|))
    ensures p + 12 + |value| <= |dtb| && dtb[p + 12..p + 12 + |value|] == value
    ensures Read32(dtb, p) == FDT_PROP && Read32(dtb, p + 4) == |value| && Read32(dtb, p + 8) == nameOff
  {
    hide Be32, Align4, Read32;
    var zeros := Zeros(Align4(12 + |value|) - 12 - |value|);
    var a, b, c := Be32(FDT_PROP), Be32(|value|), Be32(nameOff);
    assert Padded(a + b + c + value, 12 + |value|) == a + (b + (c + (value + zeros)));
    AtParts(dtb, p, a, b + (c + (value + zeros)));
    ReadAt(dtb, p, FDT_PROP);
    AtParts(dtb, p + 4, b, c + (value + zeros));
    ReadAt(dtb, p + 4, |value|);
    AtParts(dtb, p + 8, c, value + zeros);
    ReadAt(dtb, p + 8, nameOff);
    AtParts(dtb, p + 12, value, zeros);
  }

  lemma PropScanned(dtb: seq<u8>, p: nat, name: Str, value: Value, nameOff: u32)
    requires HEADER_SIZE <= |dtb| < 0x8000_0000 && p % 4 == 0
    requires At(dtb, p, Padded(Be32(FDT_PROP) + Be32(|value|) + Be32(nameOff) + value, 12 + |value|))
    requires At(dtb, Read32(dtb, 12) + nameOff, name + [0])
    ensures Read32(dtb, p) == FDT_PROP && ScanToken(dtb, p) == Some((Prop(name, value), p + Align4(12 + |value|)))
  {
    hide Be32, Align4, Read32, At, Padded;
    PropFields(dtb, p, value, nameOff);
    CStringAt(dtb, Read32(dtb, 12) + nameOff, name);
    AlignShift(p, 12 + |value|);
  }

  // ----- where the tokens are -----

  lemma {:induction false} StructSlice(ts: seq<Token>, k: nat) returns (rest: seq<u8>)
    requires Addressable(ts) && k < |ts|
    ensures Addressable(ts[..k]) && Struct(ts) == Struct(ts[..k]) + Encode(ts[k], |Names(ts[..k])|) + rest
    decreases |ts|
  {
    hide Encode, Names, Addressable;
    AddressablePrefix(ts);
    var before := ts[..|ts| - 1];
    if k == |before| {
      rest := [];
    } else {
      rest := StructSlice(before, k);
      assert before[..k] == ts[..k];
      rest := rest + Encode(ts[|ts| - 1], |Names(before)|);
    }
  }

  lemma {:induction false} NamesSlice(ts: seq<Token>, k: nat) returns (rest: seq<u8>)
    requires k < |ts|
    ensures Names(ts) == Names(ts[..k]) + NameOf(ts[k]) + rest
    decreases |ts|
  {
    hide NameOf;
    var before := ts[..|ts| - 1];
    if k == |before| {
      rest := [];
    } else {
      rest := NamesSlice(before, k);
      assert before[..k] == ts[..k];
      rest := rest + NameOf(ts[|ts| - 1]);
    }
  }

  // The fields the scanner uses, and where the two blocks are.
  lemma FinishedParts(dtb: seq<u8>, ts: seq<Token>)
    requires Addressable(ts) && FinishedSize(ts) < TWO32 && At(dtb, 0, Finished(ts)) && |dtb| < 0x8000_0000
    ensures HEADER_SIZE <= |dtb| && Read32(dtb, 8) == STRUCT_BASE && Read32(dtb, 12) == OffStrings(ts)
    ensures At(dtb, STRUCT_BASE, Struct(ts) + Be32(FDT_END)) && At(dtb, OffStrings(ts), Names(ts))
  {
    hide Be32, Read32, Struct, Names, Header;
    var header := Header(OffStrings(ts) + |Names(ts)|, OffStrings(ts), |Names(ts)|, |Struct(ts)| + 4);
    assert Finished(ts) == header + (Zeros(16) + ((Struct(ts) + Be32(FDT_END)) + Names(ts)));
    AtParts(dtb, 0, header, Zeros(16) + ((Struct(ts) + Be32(FDT_END)) + Names(ts)));
    AtParts(dtb, HEADER_SIZE, Zeros(16), (Struct(ts) + Be32(FDT_END)) + Names(ts));
    AtParts(dtb, STRUCT_BASE, Struct(ts) + Be32(FDT_END), Names(ts));
    HeaderFields(dtb, OffStrings(ts) + |Names(ts)|, OffStrings(ts), |Names(ts)|, |Struct(ts)| + 4);
  }

  lemma HeaderFields(dtb: seq<u8>, total: u32, offStrings: u32, sizeStrings: u32, sizeStruct: u32)
    requires At(dtb, 0, Header(total, offStrings, sizeStrings, sizeStruct))
    ensures Read32(dtb, 0) == 0xd00d_feed && Read32(dtb, 4) == total && Read32(dtb, 8) == 56 && Read32(dtb, 12) == offStrings
    ensures Read32(dtb, 16) == 40 && Read32(dtb, 20) == 17 && Read32(dtb, 24) == 2 && Read32(dtb, 28) == 0
    ensures Read32(dtb, 32) == sizeStrings && Read32(dtb, 36) == sizeStruct
  {
    hide Be32, Read32;
    var words := [0xd00d_feed, total, 56, offStrings, 40, 17, 2, 0, sizeStrings, sizeStruct];
    HeaderWords(total, offStrings, sizeStrings, sizeStruct);
    WordAt(dtb, words, 0);
    WordAt(dtb, words, 1);
    WordAt(dtb, words, 2);
    WordAt(dtb, words, 3);
    WordAt(dtb, words, 4);
    WordAt(dtb, words, 5);
    WordAt(dtb, words, 6);
    WordAt(dtb, words, 7);
    WordAt(dtb, words, 8);
    WordAt(dtb, words, 9);
  }

  // Words one after the other.
  function Words32(words: seq<u32>): (r: seq<u8>)
    ensures |r| == 4 * |words|
  {
    if words == [] then [] else Words32(words[..|words| - 1]) + Be32(words[|words| - 1])
  }

  lemma HeaderWords(total: u32, offStrings: u32, sizeStrings: u32, sizeStruct: u32)
    ensures Header(total, offStrings, sizeStrings, sizeStruct) ==
      Words32([0xd00d_feed, total, 56, offStrings, 40, 17, 2, 0, sizeStrings, sizeStruct])
  {
    hide Be32, Words32;
    OneWord(0xd00d_feed);
    MoreWords([0xd00d_feed], [0xd00d_feed, total]);
    MoreWords([0xd00d_feed, total], [0xd00d_feed, total, 56]);
    MoreWords([0xd00d_feed, total, 56], [0xd00d_feed, total, 56, offStrings]);
    MoreWords([0xd00d_feed, total, 56, offStrings], [0xd00d_feed, total, 56, offStrings, 40]);
    MoreWords([0xd00d_feed, total, 56, offStrings, 40], [0xd00d_feed, total, 56, offStrings, 40, 17]);
    MoreWords([0xd00d_feed, total, 56, offStrings, 40, 17], [0xd00d_feed, total, 56, offStrings, 40, 17, 2]);
    MoreWords([0xd00d_feed, total, 56, offStrings, 40, 17, 2], [0xd00d_feed, total, 56, offStrings, 40, 17, 2, 0]);
    MoreWords([0xd00d_feed, total, 56, offStrings, 40, 17, 2, 0], [0xd00d_feed, total, 56, offStrings, 40, 17, 2, 0, sizeStrings]);
    MoreWords([0xd00d_feed, total, 56, offStrings, 40, 17, 2, 0, sizeStrings], [0xd00d_feed, total, 56, offStrings, 40, 17, 2, 0, sizeStrings, sizeStruct]);
  }

  lemma OneWord(w: u32)
    ensures Words32([w]) == Be32(w)
  {
    assert [w][..0] == [] && Words32([]) == [];
  }

  lemma MoreWords(words: seq<u32>, longer: seq<u32>)
    requires |longer| == |words| + 1 && longer[..|words|] == words
    ensures Words32(longer) == Words32(words) + Be32(longer[|words|])
  {
  }

  lemma {:induction false} WordAt(dtb: seq<u8>, words: seq<u32>, k: nat)
    requires At(dtb, 0, Words32(words)) && k < |words|
    ensures 4 * k + 4 <= |dtb| && Read32(dtb, 4 * k) == words[k]
    decreases |words|
  {
    hide Be32, Read32;
    var before := words[..|words| - 1];
    AtParts(dtb, 0, Words32(before), Be32(words[|words| - 1]));
    if k == |before| {
      ReadAt(dtb, 4 * k, words[k]);
    } else {
      WordAt(dtb, before, k);
    }
  }

  lemma {:induction false} ScanSuffix(dtb: seq<u8>, ts: seq<Token>, k: nat)
    requires Addressable(ts) && FinishedSize(ts) < TWO32 && At(dtb, 0, Finished(ts)) && HEADER_SIZE <= |dtb| < 0x8000_0000
    requires k <= |ts| && Addressable(ts[..k])
    ensures ScanFrom(dtb, STRUCT_BASE + |Struct(ts[..k])|) == Some(ts[k..])
    decreases |ts| - k
  {
    hide Be32, Read32, ScanToken, Struct, Names, Encode, Finished, OffStrings, NameOf;
    FinishedParts(dtb, ts);
    var p := STRUCT_BASE + |Struct(ts[..k])|;
    if k == |ts| {
      assert ts[..k] == ts;
      AtParts(dtb, STRUCT_BASE, Struct(ts), Be32(FDT_END));
      ReadAt(dtb, p, FDT_END);
      assert ts[k..] == [];
    } else {
      TokenInPlace(dtb, ts, k);
      StructStep(ts, k);
      ScanSuffix(dtb, ts, k + 1);
      assert ts[k..] == [ts[k]] + ts[k + 1..];
    }
  }

  lemma StructStep(ts: seq<Token>, k: nat)
    requires Addressable(ts) && k < |ts| && Addressable(ts[..k])
    ensures Addressable(ts[..k + 1]) && Struct(ts[..k + 1]) == Struct(ts[..k]) + Encode(ts[k], |Names(ts[..k])|)
  {
    hide Struct, Names, Encode, NameOf;
    var rest := NamesSlice(ts, k);
    assert ts[..k + 1] == ts[..k] + [ts[k]];
    NamesGrow(ts[..k], ts[k]);
    StructGrows(ts[..k], ts[k]);
  }

  lemma TokenInPlace(dtb: seq<u8>, ts: seq<Token>, k: nat)
    requires Addressable(ts) && FinishedSize(ts) < TWO32 && At(dtb, 0, Finished(ts)) && HEADER_SIZE <= |dtb| < 0x8000_0000
    requires k < |ts| && Addressable(ts[..k])
    ensures var p, size := STRUCT_BASE + |Struct(ts[..k])|, |Encode(ts[k], |Names(ts[..k])|)|;
      p + 4 <= |dtb| && Read32(dtb, p) != FDT_END && ScanToken(dtb, p) == Some((ts[k], p + size))
  {
    hide Be32, Read32, ScanToken, Struct, Names, Encode, Finished, OffStrings;
    FinishedParts(dtb, ts);
    var rest := StructSlice(ts, k);
    var before, code := Struct(ts[..k]), Encode(ts[k], |Names(ts[..k])|);
    assert Struct(ts) + Be32(FDT_END) == before + (code + (rest + Be32(FDT_END)));
    AtParts(dtb, STRUCT_BASE, before, code + (rest + Be32(FDT_END)));
    AtParts(dtb, STRUCT_BASE + |before|, code, rest + Be32(FDT_END));
    var names := NamesSlice(ts, k);
    assert Names(ts) == Names(ts[..k]) + (NameOf(ts[k]) + names);
    AtParts(dtb, OffStrings(ts), Names(ts[..k]), NameOf(ts[k]) + names);
    AtParts(dtb, OffStrings(ts) + |Names(ts[..k])|, NameOf(ts[k]), names);
    TokenScanned(dtb, STRUCT_BASE + |before|, ts[k], |Names(ts[..k])|);
  }

  /** Scanning any memory that starts with the finished blob returns exactly the tokens, names, lengths and values built. */
  lemma ScanReturnsTokens(dtb: seq<u8>, ts: seq<Token>)
    requires Addressable(ts) && FinishedSize(ts) < TWO32 && At(dtb, 0, Finished(ts)) && |dtb| < 0x8000_0000
    ensures HEADER_SIZE <= |dtb| && Scan(dtb) == Some(ts)
  {
    hide Read32, Finished, ScanFrom;
    FinishedParts(dtb, ts);
    assert ts[..0] == [] && ts[0..] == ts;
    ScanSuffix(dtb, ts, 0);
  }

  /**
   Round trip: whatever tokens are built and finished in buffers of any sizes, if no assertion fails the
   scanner gives exactly those tokens back, the header holds magic, versions and the offsets and sizes of the
   blocks, and the reservation block it points to is the empty one.
   */
  lemma BuildScanRoundTrip(size: nat, stringSize: nat, ts: seq<Token>)
    requires STRUCT_BASE <= size < 0x8000_0000 && stringSize < 0x8000_0000
    ensures var built := AddAll(Init(size, stringSize), ts);
      built.Some? && End(built.value).Some? ==>
        var b := End(built.value).value;
        && Addressable(ts) && Scan(b.buffer) == Some(ts)
        && Read32(b.buffer, 0) == 0xd00d_feed && Read32(b.buffer, 4) == b.iptr
        && Read32(b.buffer, 8) == 56 && Read32(b.buffer, 12) == 56 + Read32(b.buffer, 36)
        && Read32(b.buffer, 16) == 40 && Read32(b.buffer, 20) == 17 && Read32(b.buffer, 24) == 2 && Read32(b.buffer, 28) == 0
        && Read32(b.buffer, 32) == |Names(ts)| && Read32(b.buffer, 36) == |Struct(ts)| + 4
        && forall i :: 40 <= i < 56 ==> b.buffer[i] == 0
  {
    hide AddAll, Init, End, Scan, Read32, Struct, Names, Header, Be32, Finished;
    BuildRepresents(size, stringSize, ts);
    var built := AddAll(Init(size, stringSize), ts);
    if built.Some? {
      EndFinishes(built.value, ts);
      EndSize(built.value);
      if End(built.value).Some? {
        var b := End(built.value).value;
        ScanReturnsTokens(b.buffer, ts);
        FinishedFields(b.buffer, ts);
      }
    }
  }

  lemma FinishedFields(dtb: seq<u8>, ts: seq<Token>)
    requires Addressable(ts) && FinishedSize(ts) < TWO32 && At(dtb, 0, Finished(ts))
    ensures 56 <= |dtb| && Read32(dtb, 0) == 0xd00d_feed && Read32(dtb, 4) == FinishedSize(ts) && Read32(dtb, 8) == 56
    ensures Read32(dtb, 12) == 60 + |Struct(ts)| && Read32(dtb, 32) == |Names(ts)| && Read32(dtb, 36) == |Struct(ts)| + 4
    ensures Read32(dtb, 16) == 40 && Read32(dtb, 20) == 17 && Read32(dtb, 24) == 2 && Read32(dtb, 28) == 0
    ensures forall i :: 40 <= i < 56 ==> dtb[i] == 0
  {
    hide Read32, Struct, Names, Header, Be32;
    var header := Header(OffStrings(ts) + |Names(ts)|, OffStrings(ts), |Names(ts)|, |Struct(ts)| + 4);
    var rest := Struct(ts) + Be32(FDT_END) + Names(ts);
    assert Finished(ts) == header + (Zeros(16) + rest);
    AtParts(dtb, 0, header, Zeros(16) + rest);
    HeaderFields(dtb, OffStrings(ts) + |Names(ts)|, OffStrings(ts), |Names(ts)|, |Struct(ts)| + 4);
    NothingReserved(dtb, rest);
  }

  lemma NothingReserved(dtb: seq<u8>, rest: seq<u8>)
    requires At(dtb, HEADER_SIZE, Zeros(16) + rest)
    ensures 56 <= |dtb| && forall i :: 40 <= i < 56 ==> dtb[i] == 0
  {
    AtParts(dtb, HEADER_SIZE, Zeros(16), rest);
    forall i | 40 <= i < 56
      ensures dtb[i] == 0
    {
      assert dtb[i] == dtb[HEADER_SIZE..HEADER_SIZE + 16][i - 40];
    }
  }

  lemma EndSize(b: Blob)
    requires b.Valid()
    ensures End(b).Some? ==> |End(b).value.buffer| == |b.buffer|
  {
    hide Header, Be32;
  }

  // ----- the format, byte by byte -----

  /** A word is stored most significant byte first. */
  lemma WordsAreBigEndian(v: u32)
    ensures var b := Be32(v); (b[0] as int * 0x100_0000 + b[1] as int * 0x1_0000 + b[2] as int * 0x100 + b[3] as int) == v
  {
    FourBytes(v);
  }

  /**
   The tokens as section 5.4.1 of the Devicetree Specification lays them out: a word each, for a node its name
   with its terminator, for a property length, offset of the name and value, and zeros up to the next word.
   */
  lemma TokenLayout(name: Str, value: Value, nameOff: u32)
    ensures Encode(Begin(name), nameOff) == [0, 0, 0, 1] + name + [0] + Zeros(3 - |name| % 4)
    ensures Encode(EndNode, nameOff) == [0, 0, 0, 2]
    ensures Encode(Prop(name, value), nameOff) ==
      [0, 0, 0, 3] + Be32(|value|) + Be32(nameOff) + value + Zeros((4 - |value| % 4) % 4)
    ensures Encode(Nop, nameOff) == [0, 0, 0, 4] && Be32(FDT_END) == [0, 0, 0, 9]
  {
    TokenNumbers();
    hide Be32;
    PaddedTo(|name|);
    PaddedTo(|value|);
    assert [0] + Zeros(3 - |name| % 4) == Zeros(4 - |name| % 4);
    assert Padded(Be32(1) + name, 5 + |name|) == [0, 0, 0, 1] + name + Zeros(4 - |name| % 4);
  }

  lemma TokenNumbers()
    ensures Be32(FDT_BEGIN_NODE) == [0, 0, 0, 1] && Be32(FDT_END_NODE) == [0, 0, 0, 2] && Be32(FDT_PROP) == [0, 0, 0, 3]
    ensures Be32(FDT_NOP) == [0, 0, 0, 4] && Be32(FDT_END) == [0, 0, 0, 9]
  {
  }

  lemma PaddedTo(n: nat)
    ensures Align4(5 + n) - 4 - n == 4 - n % 4 && Align4(12 + n) - 12 - n == (4 - n % 4) % 4
  {
  }
}
