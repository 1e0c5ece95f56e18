/** The MessagePack formats the ordered maps are stored in (section "Formats" of the MessagePack specification). */
module MsgPack {
  import opened Prelude
  import opened Bytes

  /** A value read and the bytes after it. */
  datatype Read<+T> = Read(value: T, rest: bytes)

  predicate IsInt64(n: int) {
    -TWO_63 <= n < TWO_63
  }

  // ---- Writing ----

  function AppendInt(n: int): bytes
    requires IsInt64(n)
  {
    if 0 <= n <= 0x7F then [n]
    else if -0x20 <= n < 0 then [n + 0x100]
    else if -0x80 <= n < 0 then [0xD0] + Signed(n, 1)
    else if -0x8000 <= n < 0x8000 then [0xD1] + Signed(n, 2)
    else if -0x8000_0000 <= n < 0x8000_0000 then [0xD2] + Signed(n, 4)
    else [0xD3] + Signed(n, 8)
  }

  /** Two's complement in `width` bytes. */
  function Signed(n: int, width: nat): (b: bytes)
    requires -HalfRange(width) <= n < HalfRange(width)
    ensures |b| == width
  {
    ToBytes(if n >= 0 then n else n + 2 * HalfRange(width), width)
  }

  /** Half of 256^width. */
  function HalfRange(width: nat): (h: int)
    ensures h >= 0
  {
    if width == 1 then 0x80 else if width == 2 then 0x8000 else if width == 4 then 0x8000_0000
    else if width == 8 then TWO_63 else 0
  }

  function AppendString(s: bytes): bytes
    requires |s| < TWO_32
  {
    if |s| < 0x20 then [0xA0 + |s|] + s
    else if |s| < 0x100 then [0xD9] + ToBytes(|s|, 1) + s
    else if |s| < 0x1_0000 then [0xDA] + ToBytes(|s|, 2) + s
    else [0xDB] + ToBytes(|s|, 4) + s
  }

  function AppendBytes(s: bytes): bytes
    requires |s| < TWO_32
  {
    if |s| < 0x100 then [0xC4] + ToBytes(|s|, 1) + s
    else if |s| < 0x1_0000 then [0xC5] + ToBytes(|s|, 2) + s
    else [0xC6] + ToBytes(|s|, 4) + s
  }

  // ---- Reading ----

  /** The big-endian number in the `width` bytes after the first. */
  function ReadNat(b: bytes, width: nat): Option<Read<nat>> {
    if |b| < 1 + width then None else Some(Read(FromBytes(b[1..1 + width]), b[1 + width..]))
  }

  function ReadSigned(b: bytes, width: nat): Option<Read<int>> {
    match ReadNat(b, width)
    case None => None
    case Some(r) => Some(Read(if r.value < HalfRange(width) then r.value else r.value - 2 * HalfRange(width), r.rest))
  }

  function ReadUnsigned(b: bytes, width: nat): Option<Read<int>> {
    match ReadNat(b, width)
    case None => None
    case Some(r) => Some(Read(r.value, r.rest))
  }

  /** Any integer format. */
  function ReadInteger(b: bytes): Option<Read<int>> {
    if b == [] then None
    else if b[0] <= 0x7F then Some(Read(b[0], b[1..]))
    else if b[0] >= 0xE0 then Some(Read(b[0] as int - 0x100, b[1..]))
    else if b[0] == 0xCC then ReadUnsigned(b, 1)
    else if b[0] == 0xCD then ReadUnsigned(b, 2)
    else if b[0] == 0xCE then ReadUnsigned(b, 4)
    else if b[0] == 0xCF then ReadUnsigned(b, 8)
    else if b[0] == 0xD0 then ReadSigned(b, 1)
    else if b[0] == 0xD1 then ReadSigned(b, 2)
    else if b[0] == 0xD2 then ReadSigned(b, 4)
    else if b[0] == 0xD3 then ReadSigned(b, 8)
    else None
  }

  /** Fails on an unsigned value that a signed 64-bit integer cannot hold. */
  function ReadInt(b: bytes): Option<Read<int>> {
    match ReadInteger(b)
    case None => None
    case Some(r) => if r.value < TWO_63 then Some(r) else None
  }

  function ReadByte(b: bytes): Option<Read<byte>> {
    match ReadInteger(b)
    case None => None
    case Some(r) => if 0 <= r.value < 0x100 then Some(Read(r.value, r.rest)) else None
  }

  function Take(r: Option<Read<nat>>): Option<Read<bytes>> {
    match r
    case None => None
    case Some(n) => if n.value > |n.rest| then None else Some(Read(n.rest[..n.value], n.rest[n.value..]))
  }

  function ReadString(b: bytes): Option<Read<bytes>> {
    if b == [] then None
    else if 0xA0 <= b[0] < 0xC0 then Take(Some(Read(b[0] - 0xA0, b[1..])))
    else if b[0] == 0xD9 then Take(ReadNat(b, 1))
    else if b[0] == 0xDA then Take(ReadNat(b, 2))
    else if b[0] == 0xDB then Take(ReadNat(b, 4))
    else None
  }

  function ReadBytes(b: bytes): Option<Read<bytes>> {
    if b == [] then None
    else if b[0] == 0xC4 then Take(ReadNat(b, 1))
    else if b[0] == 0xC5 then Take(ReadNat(b, 2))
    else if b[0] == 0xC6 then Take(ReadNat(b, 4))
    else None
  }

  // ---- The formats, byte by byte ----

  /** The signed format of `size` bytes in all can hold `n`. */
  predicate Holds(size: nat, n: int) {
    || (size == 1 && -32 <= n <= 127)
    || (size == 2 && -128 <= n <= 127)
    || (size == 3 && -32768 <= n <= 32767)
    || (size == 5 && -2147483648 <= n <= 2147483647)
    || (size == 9 && IsInt64(n))
  }

  /** The lead byte of the signed format of `size` bytes, for all but the single byte. */
  function Lead(size: nat): byte {
    if size == 2 then 0xD0 else if size == 3 then 0xD1 else if size == 5 then 0xD2 else 0xD3
  }

  /** An integer takes the shortest signed format; its bytes are the number in two's complement, high byte first. */
  lemma IntTakesShortestFormat(n: int)
    requires IsInt64(n)
    ensures var b := AppendInt(n);
            && Holds(|b|, n) && (forall size | Holds(size, n) :: |b| <= size)
            && (|b| == 1 ==> b[0] as int == if n >= 0 then n else n + 256)
            && (|b| > 1 ==> b[0] == Lead(|b|) && FromBytes(b[1..]) == if n >= 0 then n else n + Pow256(|b| - 1))
  {
    hide Pow256, ToBytes, FromBytes;
    Pow256Values();
    var b := AppendInt(n);
    if |b| > 1 {
      var width := |b| - 1;
      SignedBytes(n, width);
      assert b[1..] == Signed(n, width);
    }
  }

  lemma SignedBytes(n: int, width: nat)
    requires width == 1 || width == 2 || width == 4 || width == 8
    requires -HalfRange(width) <= n < HalfRange(width)
    ensures 2 * HalfRange(width) == Pow256(width)
    ensures FromBytes(Signed(n, width)) == if n >= 0 then n else n + Pow256(width)
  {
    hide Pow256, ToBytes, FromBytes;
    Pow256Values();
    FromToBytes(if n >= 0 then n else n + Pow256(width), width);
  }

  /** A string of up to 31 bytes has its length in the lead byte, a longer one in 1, 2 or 4 bytes after it. */
  lemma StringFormat(s: bytes)
    requires |s| < TWO_32
    ensures var b := AppendString(s);
            && (|s| <= 31 ==> b == [160 + |s|] + s)
            && (32 <= |s| <= 255 ==> b == [0xD9, |s|] + s)
            && (256 <= |s| <= 65535 ==> b == [0xDA, |s| / 256, |s| % 256] + s)
            && (65536 <= |s| ==> b[0] == 0xDB && b[5..] == s && FromBytes(b[1..5]) == |s|)
  {
    hide FromBytes, ToBytes;
    LengthBytes(|s|);
  }

  /** A buffer has it in 1, 2 or 4 bytes. */
  lemma BytesFormat(s: bytes)
    requires |s| < TWO_32
    ensures var b := AppendBytes(s);
            && (|s| <= 255 ==> b == [0xC4, |s|] + s)
            && (256 <= |s| <= 65535 ==> b == [0xC5, |s| / 256, |s| % 256] + s)
            && (65536 <= |s| ==> b[0] == 0xC6 && b[5..] == s && FromBytes(b[1..5]) == |s|)
  {
    hide FromBytes, ToBytes;
    LengthBytes(|s|);
  }

  lemma LengthBytes(n: nat)
    requires n < TWO_32
    ensures n < 0x100 ==> ToBytes(n, 1) == [n]
    ensures n < 0x1_0000 ==> ToBytes(n, 2) == [n / 256, n % 256]
    ensures FromBytes(ToBytes(n, 4)) == n
  {
    hide Pow256, FromBytes, ToBytes;
    Pow256Values();
    FromToBytes(n, 4);
    LowByte(n, 0);
    LowByte(n, 1);
    LowByte(n / 256, 0);
    if n < 0x1_0000 {
      SmallBytes(n);
    }
  }

  lemma SmallBytes(n: nat)
    requires n < 0x1_0000
    ensures n / 256 < 256 && n / 256 % 256 == n / 256 && (n < 256 ==> n % 256 == n)
  {
  }

  lemma LowByte(n: nat, width: nat)
    ensures ToBytes(n, 0) == [] && ToBytes(n, width + 1) == ToBytes(n / 256, width) + [n % 256]
  {
  }

  /** Integers are read in every signed format ... */
  lemma SignedFormatsAreRead(n: int, width: nat, rest: bytes)
    requires width == 1 || width == 2 || width == 4 || width == 8
    requires -HalfRange(width) <= n < HalfRange(width)
    ensures ReadInt([Lead(width + 1)] + Signed(n, width) + rest) == Some(Read(n, rest))
  {
    ReadSignedOfSigned(Lead(width + 1), n, width, rest);
    hide ReadSigned, Signed;
  }

  function UnsignedLead(width: nat): byte {
    if width == 1 then 0xCC else if width == 2 then 0xCD else if width == 4 then 0xCE else 0xCF
  }

  /** ... and in every unsigned one, unless they need the highest of 64 bits. */
  lemma UnsignedFormatsAreRead(n: nat, width: nat, rest: bytes)
    requires width == 1 || width == 2 || width == 4 || width == 8
    requires n < Pow256(width)
    ensures ReadInt([UnsignedLead(width)] + ToBytes(n, width) + rest)
         == if n < TWO_63 then Some(Read(n, rest)) else None
  {
    ReadNatOfToBytes(UnsignedLead(width), n, width, rest);
    hide ReadNat, ToBytes, Pow256;
  }

  // ---- Round trips ----

  lemma ReadNatOfToBytes(lead: byte, n: nat, width: nat, rest: bytes)
    requires n < Pow256(width)
    ensures ReadNat([lead] + ToBytes(n, width) + rest, width) == Some(Read(n, rest))
  {
  }

  lemma ReadSignedOfSigned(lead: byte, n: int, width: nat, rest: bytes)
    requires width == 1 || width == 2 || width == 4 || width == 8
    requires -HalfRange(width) <= n < HalfRange(width)
    ensures ReadSigned([lead] + Signed(n, width) + rest, width) == Some(Read(n, rest))
  {
    Pow256Values();
    ReadNatOfToBytes(lead, if n >= 0 then n else n + 2 * HalfRange(width), width, rest);
  }

  /** Every 64-bit integer is read back, whatever follows it. */
  lemma IntRoundTrip(n: int, rest: bytes)
    requires IsInt64(n)
    ensures ReadInt(AppendInt(n) + rest) == Some(Read(n, rest))
  {
    if 0 <= n <= 0x7F || -0x20 <= n < 0 {
      assert (AppendInt(n) + rest)[1..] == rest;
    } else if -0x80 <= n < 0 {
      ReadSignedOfSigned(0xD0, n, 1, rest);
    } else if -0x8000 <= n < 0x8000 {
      ReadSignedOfSigned(0xD1, n, 2, rest);
    } else if -0x8000_0000 <= n < 0x8000_0000 {
      ReadSignedOfSigned(0xD2, n, 4, rest);
    } else {
      ReadSignedOfSigned(0xD3, n, 8, rest);
    }
  }

  lemma TakeAfterLength(lead: byte, s: bytes, width: nat, rest: bytes)
    requires |s| < Pow256(width)
    ensures Take(ReadNat([lead] + ToBytes(|s|, width) + s + rest, width)) == Some(Read(s, rest))
  {
    assert [lead] + ToBytes(|s|, width) + s + rest == [lead] + ToBytes(|s|, width) + (s + rest);
    ReadNatOfToBytes(lead, |s|, width, s + rest);
  }

  lemma StringRoundTrip(s: bytes, rest: bytes)
    requires |s| < TWO_32
    ensures ReadString(AppendString(s) + rest) == Some(Read(s, rest))
  {
    Pow256Values();
    if |s| < 0x20 {
      assert (AppendString(s) + rest)[1..] == s + rest;
    } else if |s| < 0x100 {
      TakeAfterLength(0xD9, s, 1, rest);
    } else if |s| < 0x1_0000 {
      TakeAfterLength(0xDA, s, 2, rest);
    } else {
      TakeAfterLength(0xDB, s, 4, rest);
    }
  }

  lemma BytesRoundTrip(s: bytes, rest: bytes)
    requires |s| < TWO_32
    ensures ReadBytes(AppendBytes(s) + rest) == Some(Read(s, rest))
  {
    Pow256Values();
    if |s| < 0x100 {
      TakeAfterLength(0xC4, s, 1, rest);
    } else if |s| < 0x1_0000 {
      TakeAfterLength(0xC5, s, 2, rest);
    } else {
      TakeAfterLength(0xC6, s, 4, rest);
    }
  }
}
