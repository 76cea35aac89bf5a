/** One character to and from its bytes (section 3 of RFC 3629, up to the bound 0x7ffff of the code). */
module Utf8Char {
  type Byte = bv8

  /** How many bytes follow from the first one. */
  function SizeFromUtf8Char(ch: Byte): int {
    if ch & 0x80 == 0x00 then 1
    else if ch & 0xe0 == 0xc0 then 2
    else if ch & 0xf0 == 0xe0 then 3
    else if ch & 0xf8 == 0xf0 then 4
    else -1
  }

  function Utf8SizeFromUnicodeChar(c: bv32): int {
    if c <= 0x7f then 1
    else if c > 0x7f && c <= 0x7ff then 2
    else if c > 0x7ff && c <= 0xffff then 3
    else if c > 0xffff && c <= 0x7ffff then 4
    else -1
  }

  // the bytes written: what comes first in two, three or four, and six bits each behind it
  function Only(c: bv32): Byte { ((0x7f & c) & 0xff) as Byte }
  function First2(c: bv32): Byte { ((0xc0 | ((0x07c0 & c) >> 6)) & 0xff) as Byte }
  function First3(c: bv32): Byte { ((0xe0 | ((0xf000 & c) >> 12)) & 0xff) as Byte }
  function First4(c: bv32): Byte { ((0xf0 | ((0x1c0000 & c) >> 18)) & 0xff) as Byte }
  function Next12(c: bv32): Byte { ((0x80 | ((0x03f000 & c) >> 12)) & 0xff) as Byte }
  function Next6(c: bv32): Byte { ((0x80 | ((0x000fc0 & c) >> 6)) & 0xff) as Byte }
  function Next0(c: bv32): Byte { ((0x80 | (0x00003f & c)) & 0xff) as Byte }

  /** The bytes written for a character that takes `n` of them. */
  function Inserted(c: bv32, n: int): seq<Byte> {
    if n == 1 then [Only(c)]
    else if n == 2 then [First2(c), Next0(c)]
    else if n == 3 then [First3(c), Next6(c), Next0(c)]
    else if n == 4 then [First4(c), Next12(c), Next6(c), Next0(c)]
    else []
  }

  // and the bytes read
  function Read1(b0: Byte): bv32 { (b0 & 0x7f) as bv32 }
  function Read2(b0: Byte, b1: Byte): bv32 { ((b0 & 0x1f) as bv32 << 6) | (b1 & 0x3f) as bv32 }
  function Read3(b0: Byte, b1: Byte, b2: Byte): bv32 {
    ((b0 & 0x0f) as bv32 << 12) | ((b1 & 0x3f) as bv32 << 6) | (b2 & 0x3f) as bv32
  }
  function Read4(b0: Byte, b1: Byte, b2: Byte, b3: Byte): bv32 {
    ((b0 & 0x07) as bv32 << 18) | ((b1 & 0x3f) as bv32 << 12) | ((b2 & 0x3f) as bv32 << 6) | (b3 & 0x3f) as bv32
  }

  /** The character of `size` bytes. */
  function UnicodeCharFromUtf8Char(size: int, b: seq<Byte>): bv32
    requires size <= |b|
  {
    if size == 1 then Read1(b[0])
    else if size == 2 then Read2(b[0], b[1])
    else if size == 3 then Read3(b[0], b[1], b[2])
    else if size == 4 then Read4(b[0], b[1], b[2], b[3])
    else 0
  }

  function Encoded(c: bv32): seq<Byte> { Inserted(c, Utf8SizeFromUnicodeChar(c)) }

  // Each step is small enough for bits: first written out, then by the names of the
  // functions that read, then by those of the functions that write.

  lemma Bits1(c: bv32)
    requires c <= 0x7f
    ensures ((0x7f & c) & 0xff) as Byte & 0x80 == 0x00
    ensures (((0x7f & c) & 0xff) as Byte & 0x7f) as bv32 == c
  {
  }

  lemma Bits2(c: bv32)
    requires 0x7f < c <= 0x7ff
    ensures ((0xc0 | ((0x07c0 & c) >> 6)) & 0xff) as Byte & 0x80 != 0x00
    ensures ((0xc0 | ((0x07c0 & c) >> 6)) & 0xff) as Byte & 0xe0 == 0xc0
    ensures ((((0xc0 | ((0x07c0 & c) >> 6)) & 0xff) as Byte & 0x1f) as bv32 << 6)
          | (((0x80 | (0x003f & c)) & 0xff) as Byte & 0x3f) as bv32 == c
  {
  }

  lemma Bits3(c: bv32)
    requires 0x7ff < c <= 0xffff
    ensures ((0xe0 | ((0xf000 & c) >> 12)) & 0xff) as Byte & 0x80 != 0x00
    ensures ((0xe0 | ((0xf000 & c) >> 12)) & 0xff) as Byte & 0xe0 != 0xc0
    ensures ((0xe0 | ((0xf000 & c) >> 12)) & 0xff) as Byte & 0xf0 == 0xe0
    ensures ((((0xe0 | ((0xf000 & c) >> 12)) & 0xff) as Byte & 0x0f) as bv32 << 12)
          | ((((0x80 | ((0x0fc0 & c) >> 6)) & 0xff) as Byte & 0x3f) as bv32 << 6)
          | (((0x80 | (0x003f & c)) & 0xff) as Byte & 0x3f) as bv32 == c
  {
  }

  lemma Bits4(c: bv32)
    requires 0xffff < c <= 0x7ffff
    ensures ((0xf0 | ((0x1c0000 & c) >> 18)) & 0xff) as Byte & 0x80 != 0x00
    ensures ((0xf0 | ((0x1c0000 & c) >> 18)) & 0xff) as Byte & 0xe0 != 0xc0
    ensures ((0xf0 | ((0x1c0000 & c) >> 18)) & 0xff) as Byte & 0xf0 != 0xe0
    ensures ((0xf0 | ((0x1c0000 & c) >> 18)) & 0xff) as Byte & 0xf8 == 0xf0
    ensures ((((0xf0 | ((0x1c0000 & c) >> 18)) & 0xff) as Byte & 0x07) as bv32 << 18)
          | ((((0x80 | ((0x03f000 & c) >> 12)) & 0xff) as Byte & 0x3f) as bv32 << 12)
          | ((((0x80 | ((0x000fc0 & c) >> 6)) & 0xff) as Byte & 0x3f) as bv32 << 6)
          | (((0x80 | (0x00003f & c)) & 0xff) as Byte & 0x3f) as bv32 == c
  {
  }

  lemma ReadBits1(c: bv32)
    requires c <= 0x7f
    ensures Read1(((0x7f & c) & 0xff) as Byte) == c
  {
    Bits1(c);
  }

  lemma SizeBits1(c: bv32)
    requires c <= 0x7f
    ensures SizeFromUtf8Char(((0x7f & c) & 0xff) as Byte) == 1
  {
    Bits1(c);
  }

  lemma RoundTrip1(c: bv32)
    requires c <= 0x7f
    ensures Read1(Only(c)) == c && SizeFromUtf8Char(Only(c)) == 1
  {
    hide Read1, SizeFromUtf8Char;
    ReadBits1(c);
    SizeBits1(c);
  }

  lemma ReadBits2(c: bv32)
    requires 0x7f < c <= 0x7ff
    ensures Read2(((0xc0 | ((0x07c0 & c) >> 6)) & 0xff) as Byte,
                  ((0x80 | (0x00003f & c)) & 0xff) as Byte) == c
  {
    Bits2(c);
  }

  lemma SizeBits2(c: bv32)
    requires 0x7f < c <= 0x7ff
    ensures SizeFromUtf8Char(((0xc0 | ((0x07c0 & c) >> 6)) & 0xff) as Byte) == 2
  {
    Bits2(c);
  }

  lemma RoundTrip2(c: bv32)
    requires 0x7f < c <= 0x7ff
    ensures Read2(First2(c), Next0(c)) == c && SizeFromUtf8Char(First2(c)) == 2
  {
    hide Read2, SizeFromUtf8Char;
    ReadBits2(c);
    SizeBits2(c);
  }

  lemma ReadBits3(c: bv32)
    requires 0x7ff < c <= 0xffff
    ensures Read3(((0xe0 | ((0xf000 & c) >> 12)) & 0xff) as Byte,
                  ((0x80 | ((0x000fc0 & c) >> 6)) & 0xff) as Byte,
                  ((0x80 | (0x00003f & c)) & 0xff) as Byte) == c
  {
    Bits3(c);
  }

  lemma SizeBits3(c: bv32)
    requires 0x7ff < c <= 0xffff
    ensures SizeFromUtf8Char(((0xe0 | ((0xf000 & c) >> 12)) & 0xff) as Byte) == 3
  {
    Bits3(c);
  }

  lemma RoundTrip3(c: bv32)
    requires 0x7ff < c <= 0xffff
    ensures Read3(First3(c), Next6(c), Next0(c)) == c && SizeFromUtf8Char(First3(c)) == 3
  {
    hide Read3, SizeFromUtf8Char;
    ReadBits3(c);
    SizeBits3(c);
  }

  lemma ReadBits4(c: bv32)
    requires 0xffff < c <= 0x7ffff
    ensures Read4(((0xf0 | ((0x1c0000 & c) >> 18)) & 0xff) as Byte,
                  ((0x80 | ((0x03f000 & c) >> 12)) & 0xff) as Byte,
                  ((0x80 | ((0x000fc0 & c) >> 6)) & 0xff) as Byte,
                  ((0x80 | (0x00003f & c)) & 0xff) as Byte) == c
  {
    Bits4(c);
  }

  lemma SizeBits4(c: bv32)
    requires 0xffff < c <= 0x7ffff
    ensures SizeFromUtf8Char(((0xf0 | ((0x1c0000 & c) >> 18)) & 0xff) as Byte) == 4
  {
    Bits4(c);
  }

  lemma RoundTrip4(c: bv32)
    requires 0xffff < c <= 0x7ffff
    ensures Read4(First4(c), Next12(c), Next6(c), Next0(c)) == c && SizeFromUtf8Char(First4(c)) == 4
  {
    hide Read4, SizeFromUtf8Char;
    ReadBits4(c);
    SizeBits4(c);
  }

  /** Encoding loses nothing up to the bound, and the first byte says how long it is. */
  lemma RoundTrip(c: bv32)
    requires c <= 0x7ffff
    ensures |Encoded(c)| == Utf8SizeFromUnicodeChar(c) >= 1
    ensures SizeFromUtf8Char(Encoded(c)[0]) == |Encoded(c)|
    ensures UnicodeCharFromUtf8Char(|Encoded(c)|, Encoded(c)) == c
    ensures Encoded(c)[0] == 0 <==> c == 0
  {
    hide SizeFromUtf8Char, Only, First2, First3, First4, Next0, Next6, Next12, Read1, Read2, Read3, Read4;
    if c <= 0x7f {
      RoundTrip1(c);
      ZeroByte(c);
    } else if c <= 0x7ff {
      RoundTrip2(c);
      LeadByte(First2(c));
    } else if c <= 0xffff {
      RoundTrip3(c);
      LeadByte(First3(c));
    } else {
      RoundTrip4(c);
      LeadByte(First4(c));
    }
  }

  lemma ZeroByte(c: bv32)
    requires c <= 0x7f
    ensures Only(c) == 0 <==> c == 0
  {
  }

  lemma LeadByte(b: Byte)
    requires SizeFromUtf8Char(b) > 1
    ensures b != 0
  {
  }

  /** The table of section 3 of RFC 3629. */
  function Octets(c: bv32): seq<Byte> {
    if c <= 0x7f then [(c & 0xff) as Byte]
    else if c <= 0x7ff then [Lead(0xc0, c >> 6), Continuation(c)]
    else if c <= 0xffff then [Lead(0xe0, c >> 12), Continuation(c >> 6), Continuation(c)]
    else [Lead(0xf0, c >> 18), Continuation(c >> 12), Continuation(c >> 6), Continuation(c)]
  }

  function Lead(mark: bv32, bits: bv32): Byte { ((mark | bits) & 0xff) as Byte }
  function Continuation(bits: bv32): Byte { ((0x80 | (bits & 0x3f)) & 0xff) as Byte }

  lemma OctetBits(c: bv32)
    ensures c <= 0x7f ==> ((0x7f & c) & 0xff) as Byte == (c & 0xff) as Byte
    ensures c <= 0x7ff ==> ((0xc0 | ((0x07c0 & c) >> 6)) & 0xff) as Byte == ((0xc0 | (c >> 6)) & 0xff) as Byte
    ensures c <= 0xffff ==> ((0xe0 | ((0xf000 & c) >> 12)) & 0xff) as Byte == ((0xe0 | (c >> 12)) & 0xff) as Byte
    ensures c <= 0x7ffff ==> ((0xf0 | ((0x1c0000 & c) >> 18)) & 0xff) as Byte == ((0xf0 | (c >> 18)) & 0xff) as Byte
    ensures ((0x80 | ((0x03f000 & c) >> 12)) & 0xff) as Byte == ((0x80 | ((c >> 12) & 0x3f)) & 0xff) as Byte
    ensures ((0x80 | ((0x000fc0 & c) >> 6)) & 0xff) as Byte == ((0x80 | ((c >> 6) & 0x3f)) & 0xff) as Byte
    ensures ((0x80 | (0x00003f & c)) & 0xff) as Byte == ((0x80 | (c & 0x3f)) & 0xff) as Byte
  {
  }

  lemma FirstOctets(c: bv32)
    ensures c <= 0x7f ==> Only(c) == (c & 0xff) as Byte
    ensures c <= 0x7ff ==> First2(c) == Lead(0xc0, c >> 6)
    ensures c <= 0xffff ==> First3(c) == Lead(0xe0, c >> 12)
    ensures c <= 0x7ffff ==> First4(c) == Lead(0xf0, c >> 18)
  {
    OctetBits(c);
  }

  lemma NextOctets(c: bv32)
    ensures Next12(c) == Continuation(c >> 12) && Next6(c) == Continuation(c >> 6) && Next0(c) == Continuation(c)
  {
    OctetBits(c);
  }

  lemma StandardBits4(c: bv32)
    requires 0xffff < c <= 0x1fffff
    ensures ((0xf0 | (c >> 18)) & 0xff) as Byte & 0x80 != 0x00
    ensures ((0xf0 | (c >> 18)) & 0xff) as Byte & 0xe0 != 0xc0
    ensures ((0xf0 | (c >> 18)) & 0xff) as Byte & 0xf0 != 0xe0
    ensures ((0xf0 | (c >> 18)) & 0xff) as Byte & 0xf8 == 0xf0
    ensures ((((0xf0 | (c >> 18)) & 0xff) as Byte & 0x07) as bv32 << 18)
          | ((((0x80 | ((c >> 12) & 0x3f)) & 0xff) as Byte & 0x3f) as bv32 << 12)
          | ((((0x80 | ((c >> 6) & 0x3f)) & 0xff) as Byte & 0x3f) as bv32 << 6)
          | (((0x80 | (c & 0x3f)) & 0xff) as Byte & 0x3f) as bv32 == c
  {
  }

  lemma StandardRead4(c: bv32)
    requires 0xffff < c <= 0x1fffff
    ensures Read4(((0xf0 | (c >> 18)) & 0xff) as Byte, ((0x80 | ((c >> 12) & 0x3f)) & 0xff) as Byte,
                  ((0x80 | ((c >> 6) & 0x3f)) & 0xff) as Byte, ((0x80 | (c & 0x3f)) & 0xff) as Byte) == c
  {
    StandardBits4(c);
  }

  lemma StandardSize4(c: bv32)
    requires 0xffff < c <= 0x1fffff
    ensures SizeFromUtf8Char(((0xf0 | (c >> 18)) & 0xff) as Byte) == 4
  {
    StandardBits4(c);
  }

  lemma StandardRoundTrip4(c: bv32)
    requires 0xffff < c <= 0x1fffff
    ensures Read4(Lead(0xf0, c >> 18), Continuation(c >> 12), Continuation(c >> 6), Continuation(c)) == c
    ensures SizeFromUtf8Char(Lead(0xf0, c >> 18)) == 4
  {
    hide Read4, SizeFromUtf8Char;
    StandardRead4(c);
    StandardSize4(c);
  }

  /** Reading covers the whole standard, although writing stops short of it. */
  lemma ReadsTheStandard(c: bv32)
    requires c <= 0x10ffff
    ensures SizeFromUtf8Char(Octets(c)[0]) == |Octets(c)|
    ensures UnicodeCharFromUtf8Char(|Octets(c)|, Octets(c)) == c
  {
    hide SizeFromUtf8Char, Lead, Continuation, Read1, Read2, Read3, Read4;
    if c <= 0x7ffff {
      EncodesTheStandard(c);
      RoundTrip(c);
    } else {
      StandardRoundTrip4(c);
    }
  }

  /** The first bytes of the table, and those that are none. */
  lemma SizeByRange(b: Byte)
    ensures SizeFromUtf8Char(b) ==
            if b <= 0x7f then 1
            else if 0xc0 <= b <= 0xdf then 2
            else if 0xe0 <= b <= 0xef then 3
            else if 0xf0 <= b <= 0xf7 then 4
            else -1
  {
  }

  lemma LowBits4(b0: Byte, b1: Byte, b2: Byte, b3: Byte)
    ensures var c := ((b0 & 0x07) as bv32 << 18) | ((b1 & 0x3f) as bv32 << 12) | ((b2 & 0x3f) as bv32 << 6) | (b3 & 0x3f) as bv32;
            && c <= 0x1fffff
            && ((0xf0 | (c >> 18)) & 0xff) as Byte == 0xf0 | (b0 & 0x07)
            && ((0x80 | ((c >> 12) & 0x3f)) & 0xff) as Byte == 0x80 | (b1 & 0x3f)
            && ((0x80 | ((c >> 6) & 0x3f)) & 0xff) as Byte == 0x80 | (b2 & 0x3f)
            && ((0x80 | (c & 0x3f)) & 0xff) as Byte == 0x80 | (b3 & 0x3f)
  {
  }

  lemma LowBits3(b0: Byte, b1: Byte, b2: Byte)
    ensures var c := ((b0 & 0x0f) as bv32 << 12) | ((b1 & 0x3f) as bv32 << 6) | (b2 & 0x3f) as bv32;
            && c <= 0xffff
            && ((0xe0 | (c >> 12)) & 0xff) as Byte == 0xe0 | (b0 & 0x0f)
            && ((0x80 | ((c >> 6) & 0x3f)) & 0xff) as Byte == 0x80 | (b1 & 0x3f)
            && ((0x80 | (c & 0x3f)) & 0xff) as Byte == 0x80 | (b2 & 0x3f)
  {
  }

  lemma LowBits2(b0: Byte, b1: Byte)
    ensures var c := ((b0 & 0x1f) as bv32 << 6) | (b1 & 0x3f) as bv32;
            && c <= 0x7ff
            && ((0xc0 | (c >> 6)) & 0xff) as Byte == 0xc0 | (b0 & 0x1f)
            && ((0x80 | (c & 0x3f)) & 0xff) as Byte == 0x80 | (b1 & 0x3f)
  {
  }

  lemma ReadLowBits4(b0: Byte, b1: Byte, b2: Byte, b3: Byte)
    ensures var c := Read4(b0, b1, b2, b3);
            && c <= 0x1fffff
            && ((0xf0 | (c >> 18)) & 0xff) as Byte == 0xf0 | (b0 & 0x07)
            && ((0x80 | ((c >> 12) & 0x3f)) & 0xff) as Byte == 0x80 | (b1 & 0x3f)
            && ((0x80 | ((c >> 6) & 0x3f)) & 0xff) as Byte == 0x80 | (b2 & 0x3f)
            && ((0x80 | (c & 0x3f)) & 0xff) as Byte == 0x80 | (b3 & 0x3f)
  {
    LowBits4(b0, b1, b2, b3);
  }

  lemma ReadLowBits3(b0: Byte, b1: Byte, b2: Byte)
    ensures var c := Read3(b0, b1, b2);
            && c <= 0xffff
            && ((0xe0 | (c >> 12)) & 0xff) as Byte == 0xe0 | (b0 & 0x0f)
            && ((0x80 | ((c >> 6) & 0x3f)) & 0xff) as Byte == 0x80 | (b1 & 0x3f)
            && ((0x80 | (c & 0x3f)) & 0xff) as Byte == 0x80 | (b2 & 0x3f)
  {
    LowBits3(b0, b1, b2);
  }

  lemma ReadLowBits2(b0: Byte, b1: Byte)
    ensures var c := Read2(b0, b1);
            && c <= 0x7ff
            && ((0xc0 | (c >> 6)) & 0xff) as Byte == 0xc0 | (b0 & 0x1f)
            && ((0x80 | (c & 0x3f)) & 0xff) as Byte == 0x80 | (b1 & 0x3f)
  {
    LowBits2(b0, b1);
  }

  /** Of any bytes whatever, continuations or not, exactly the bits that the table gives to the
      character are read: with those bits it lays the same bytes. */
  lemma ReadsTheBits4(b0: Byte, b1: Byte, b2: Byte, b3: Byte)
    ensures var c := Read4(b0, b1, b2, b3);
            && c <= 0x1fffff && Lead(0xf0, c >> 18) == 0xf0 | (b0 & 0x07)
            && Continuation(c >> 12) == 0x80 | (b1 & 0x3f)
            && Continuation(c >> 6) == 0x80 | (b2 & 0x3f) && Continuation(c) == 0x80 | (b3 & 0x3f)
  {
    hide Read4;
    ReadLowBits4(b0, b1, b2, b3);
  }

  lemma ReadsTheBits3(b0: Byte, b1: Byte, b2: Byte)
    ensures var c := Read3(b0, b1, b2);
            && c <= 0xffff && Lead(0xe0, c >> 12) == 0xe0 | (b0 & 0x0f)
            && Continuation(c >> 6) == 0x80 | (b1 & 0x3f) && Continuation(c) == 0x80 | (b2 & 0x3f)
  {
    hide Read3;
    ReadLowBits3(b0, b1, b2);
  }

  lemma ReadsTheBits2(b0: Byte, b1: Byte)
    ensures var c := Read2(b0, b1);
            c <= 0x7ff && Lead(0xc0, c >> 6) == 0xc0 | (b0 & 0x1f) && Continuation(c) == 0x80 | (b1 & 0x3f)
  {
    hide Read2;
    ReadLowBits2(b0, b1);
  }

  /** The code writes the octets of the standard exactly when the character is within its own
      bound, short of the standard's 0x10ffff; beyond it the size is no size and nothing is written. */
  lemma EncodesTheStandard(c: bv32)
    ensures Encoded(c) == Octets(c) <==> c <= 0x7ffff
    ensures c > 0x7ffff ==> Utf8SizeFromUnicodeChar(c) == -1 && Encoded(c) == []
  {
    hide Only, First2, First3, First4, Next0, Next6, Next12, Lead, Continuation;
    FirstOctets(c);
    NextOctets(c);
  }
}

/** Strings of such characters in a block of bytes ended by a zero byte. */
module Utf8String {
  import opened Utf8Char

  ghost predicate Encodable(chars: seq<bv32>) { forall i | 0 <= i < |chars| :: chars[i] <= 0x7ffff }

  /** These are exactly the characters for which there is a size. */
  lemma EncodableMeans(chars: seq<bv32>)
    ensures Encodable(chars) <==> forall i | 0 <= i < |chars| :: Utf8SizeFromUnicodeChar(chars[i]) != -1
  {
  }

  function EncodeAll(chars: seq<bv32>): seq<Byte> {
    if chars == [] then [] else Encoded(chars[0]) + EncodeAll(chars[1..])
  }

  /** What the reading functions see: characters up to a zero byte, a byte that starts none, or
      one whose character does not end in time. */
  function CharsOf(b: seq<Byte>, i: nat): seq<bv32>
    decreases |b| - i
  {
    if i >= |b| || b[i] == 0 || SizeFromUtf8Char(b[i]) == -1 || i + SizeFromUtf8Char(b[i]) > |b| then []
    else
      var n := SizeFromUtf8Char(b[i]);
      [UnicodeCharFromUtf8Char(n, b[i..])] + CharsOf(b, i + n)
  }

  function UpToZero(chars: seq<bv32>): (read: seq<bv32>)
    ensures read <= chars
  {
    if chars == [] || chars[0] == 0 then [] else [chars[0]] + UpToZero(chars[1..])
  }

  /** Reading what was written gives it back, up to a zero character if there is one. */
  lemma {:induction false} DecodeEncode(before: seq<Byte>, chars: seq<bv32>)
    requires Encodable(chars)
    ensures CharsOf(before + EncodeAll(chars), |before|) == UpToZero(chars)
    decreases |chars|
  {
    hide SizeFromUtf8Char, UnicodeCharFromUtf8Char, Encoded;
    if chars != [] {
      var c, b := chars[0], before + EncodeAll(chars);
      var e := Encoded(c);
      RoundTrip(c);
      assert b == (before + e) + EncodeAll(chars[1..]);
      assert b[|before|] == e[0];
      DecodeEncode(before + e, chars[1..]);
      DecodesPrefix(e, b[|before|..]);
    }
  }

  /** Only the character's own bytes are read. */
  lemma DecodesPrefix(e: seq<Byte>, b: seq<Byte>)
    requires |e| >= 1 && e <= b
    ensures UnicodeCharFromUtf8Char(|e|, b) == UnicodeCharFromUtf8Char(|e|, e)
  {
    hide Read1, Read2, Read3, Read4;
  }

  /** What no character starts at: nothing, a zero byte, a byte that starts none, or a character
      without its last bytes. */
  ghost predicate Stops(rest: seq<Byte>) {
    || rest == [] || rest[0] == 0 || 0x80 <= rest[0] <= 0xbf || rest[0] >= 0xf8
    || (0xc0 <= rest[0] <= 0xdf && |rest| < 2) || (0xe0 <= rest[0] <= 0xef && |rest| < 3)
    || (0xf0 <= rest[0] <= 0xf7 && |rest| < 4)
  }

  /** A decoding goes on to the first such place and no further. */
  lemma {:induction false} DecodesUpToStop(before: seq<Byte>, chars: seq<bv32>, rest: seq<Byte>)
    requires Encodable(chars) && 0 !in chars && Stops(rest)
    ensures CharsOf(before + EncodeAll(chars) + rest, |before|) == chars
    decreases |chars|
  {
    hide SizeFromUtf8Char, UnicodeCharFromUtf8Char, Encoded;
    var b := before + EncodeAll(chars) + rest;
    if chars == [] {
      assert b == before + rest;
      if rest != [] {
        SizeByRange(rest[0]);
        assert b[|before|] == rest[0];
      }
    } else {
      var c := chars[0];
      var e := Encoded(c);
      RoundTrip(c);
      assert b == (before + e) + EncodeAll(chars[1..]) + rest;
      assert b[|before|] == e[0];
      DecodesUpToStop(before + e, chars[1..], rest);
      DecodesPrefix(e, b[|before|..]);
      assert chars == [c] + chars[1..];
    }
  }

  /** So it is exactly the strings without a zero character that come back whole. */
  lemma {:induction false} ComesBackWhole(chars: seq<bv32>)
    requires Encodable(chars)
    ensures CharsOf(EncodeAll(chars), 0) == chars <==> 0 !in chars
  {
    hide EncodeAll, CharsOf;
    DecodeEncode([], chars);
    assert [] + EncodeAll(chars) == EncodeAll(chars);
    WholeUpToZero(chars);
  }

  lemma {:induction false} WholeUpToZero(chars: seq<bv32>)
    ensures UpToZero(chars) == chars <==> 0 !in chars
    ensures UpToZero(chars) <= chars
    ensures var n := |UpToZero(chars)|; n < |chars| ==> chars[n] == 0
    ensures 0 !in UpToZero(chars)
  {
    if chars != [] && chars[0] != 0 {
      WholeUpToZero(chars[1..]);
      assert chars == [chars[0]] + chars[1..];
    }
  }

  lemma {:induction false} EncodeConcat(a: seq<bv32>, b: seq<bv32>)
    ensures EncodeAll(a + b) == EncodeAll(a) + EncodeAll(b)
  {
    hide Encoded;
    if a == [] {
      assert a + b == b;
    } else {
      assert (a + b)[1..] == a[1..] + b;
      EncodeConcat(a[1..], b);
    }
  }

  lemma EncodeOne(c: bv32)
    ensures EncodeAll([c]) == Encoded(c)
  {
    hide Encoded;
    assert [c][1..] == [];
  }

  /** Where character `k` starts, and what stands there. */
  lemma CharAt(chars: seq<bv32>, k: nat)
    requires Encodable(chars) && k < |chars|
    ensures EncodeAll(chars[..k + 1]) == EncodeAll(chars[..k]) + Encoded(chars[k])
    ensures EncodeAll(chars) == EncodeAll(chars[..k]) + Encoded(chars[k]) + EncodeAll(chars[k + 1..])
    ensures |Encoded(chars[k])| == Utf8SizeFromUnicodeChar(chars[k]) >= 1
    ensures SizeFromUtf8Char(Encoded(chars[k])[0]) == |Encoded(chars[k])|
    ensures Encoded(chars[k])[0] == 0 <==> chars[k] == 0
  {
    hide Encoded, EncodeAll, SizeFromUtf8Char;
    assert chars[..k + 1] == chars[..k] + [chars[k]];
    EncodeConcat(chars[..k], [chars[k]]);
    EncodeOne(chars[k]);
    assert chars == chars[..k + 1] + chars[k + 1..];
    EncodeConcat(chars[..k + 1], chars[k + 1..]);
    RoundTrip(chars[k]);
  }
}
