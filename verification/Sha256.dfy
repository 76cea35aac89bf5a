/** SHA-256 on words kept as four bytes, whatever the host makes of them. */
module Sha256 {
  import opened Common
  import opened Words
  import opened InputStreams
  import opened MessagePadding
  import opened Sha256Spec

  datatype Bitset32 = Bitset32(byte0: Byte, byte1: Byte, byte2: Byte, byte3: Byte)

  /** The number the four bytes stand for. */
  function Value(b: Bitset32): bv32 { BigEndian32(b.byte0, b.byte1, b.byte2, b.byte3) }

  // the last bits of one byte followed by the first bits of the next
  function Take1(x: Byte, y: Byte): Byte { ((x & 0x01) << 7) | ((y & 0xfe) >> 1) }
  function Take2(x: Byte, y: Byte): Byte { ((x & 0x03) << 6) | ((y & 0xfc) >> 2) }
  function Take3(x: Byte, y: Byte): Byte { ((x & 0x07) << 5) | ((y & 0xf8) >> 3) }
  function Take5(x: Byte, y: Byte): Byte { ((x & 0x1f) << 3) | ((y & 0xe0) >> 5) }
  function Take6(x: Byte, y: Byte): Byte { ((x & 0x3f) << 2) | ((y & 0xc0) >> 6) }
  function Take7(x: Byte, y: Byte): Byte { ((x & 0x7f) << 1) | ((y & 0x80) >> 7) }

  function RightShift3(b: Bitset32): Bitset32 {
    Bitset32(0 | ((b.byte0 & 0xf8) >> 3), Take3(b.byte0, b.byte1), Take3(b.byte1, b.byte2), Take3(b.byte2, b.byte3))
  }

  function RightShift10(b: Bitset32): Bitset32 {
    Bitset32(0, 0 | ((b.byte0 & 0xfc) >> 2), Take2(b.byte0, b.byte1), Take2(b.byte1, b.byte2))
  }

  function RightRotate2(b: Bitset32): Bitset32 {
    Bitset32(Take2(b.byte3, b.byte0), Take2(b.byte0, b.byte1), Take2(b.byte1, b.byte2), Take2(b.byte2, b.byte3))
  }

  function RightRotate6(b: Bitset32): Bitset32 {
    Bitset32(Take6(b.byte3, b.byte0), Take6(b.byte0, b.byte1), Take6(b.byte1, b.byte2), Take6(b.byte2, b.byte3))
  }

  function RightRotate7(b: Bitset32): Bitset32 {
    Bitset32(Take7(b.byte3, b.byte0), Take7(b.byte0, b.byte1), Take7(b.byte1, b.byte2), Take7(b.byte2, b.byte3))
  }

  function RightRotate11(b: Bitset32): Bitset32 {
    Bitset32(Take3(b.byte2, b.byte3), Take3(b.byte3, b.byte0), Take3(b.byte0, b.byte1), Take3(b.byte1, b.byte2))
  }

  function RightRotate13(b: Bitset32): Bitset32 {
    Bitset32(Take5(b.byte2, b.byte3), Take5(b.byte3, b.byte0), Take5(b.byte0, b.byte1), Take5(b.byte1, b.byte2))
  }

  function RightRotate17(b: Bitset32): Bitset32 {
    Bitset32(Take1(b.byte1, b.byte2), Take1(b.byte2, b.byte3), Take1(b.byte3, b.byte0), Take1(b.byte0, b.byte1))
  }

  function RightRotate18(b: Bitset32): Bitset32 {
    Bitset32(Take2(b.byte1, b.byte2), Take2(b.byte2, b.byte3), Take2(b.byte3, b.byte0), Take2(b.byte0, b.byte1))
  }

  function RightRotate19(b: Bitset32): Bitset32 {
    Bitset32(Take3(b.byte1, b.byte2), Take3(b.byte2, b.byte3), Take3(b.byte3, b.byte0), Take3(b.byte0, b.byte1))
  }

  function RightRotate22(b: Bitset32): Bitset32 {
    Bitset32(Take6(b.byte1, b.byte2), Take6(b.byte2, b.byte3), Take6(b.byte3, b.byte0), Take6(b.byte0, b.byte1))
  }

  function RightRotate25(b: Bitset32): Bitset32 {
    Bitset32(Take1(b.byte0, b.byte1), Take1(b.byte1, b.byte2), Take1(b.byte2, b.byte3), Take1(b.byte3, b.byte0))
  }

  function And(x: Bitset32, y: Bitset32): Bitset32 {
    Bitset32(x.byte0 & y.byte0, x.byte1 & y.byte1, x.byte2 & y.byte2, x.byte3 & y.byte3)
  }

  function Xor(x: Bitset32, y: Bitset32): Bitset32 {
    Bitset32(x.byte0 ^ y.byte0, x.byte1 ^ y.byte1, x.byte2 ^ y.byte2, x.byte3 ^ y.byte3)
  }

  function Not(x: Bitset32): Bitset32 { Bitset32(!x.byte0, !x.byte1, !x.byte2, !x.byte3) }

  /** The four bytes read as one word of the host. */
  function Raw(host: Host, b: Bitset32): bv32 {
    if host.BigEndian? then BigEndian32(b.byte0, b.byte1, b.byte2, b.byte3)
    else BigEndian32(b.byte3, b.byte2, b.byte1, b.byte0)
  }

  function Stored(host: Host, w: bv32): Bitset32 {
    var m := Memory32(host, w);
    Bitset32(m[0], m[1], m[2], m[3])
  }

  function Make(host: Host, w: bv32): Bitset32 { Stored(host, BigEndianOf32(host, w)) }

  function Add(host: Host, x: Bitset32, y: Bitset32): Bitset32 {
    Stored(host, BigEndianOf32(host, Plus(BigEndianOf32(host, Raw(host, x)), BigEndianOf32(host, Raw(host, y)))))
  }

  // ------------------------------------------- bytewise operations on words

  // Each step below is small enough for bits: first the words written out, then their
  // names, then those of the pieces of bytes.

  lemma RotatedBits(b0: Byte, b1: Byte, b2: Byte, b3: Byte)
    ensures ((((b3 & 0x01) << 7) | ((b0 & 0xfe) >> 1)) as bv32 << 24)
          | ((((b0 & 0x01) << 7) | ((b1 & 0xfe) >> 1)) as bv32 << 16)
          | ((((b1 & 0x01) << 7) | ((b2 & 0xfe) >> 1)) as bv32 << 8)
          | (((b2 & 0x01) << 7) | ((b3 & 0xfe) >> 1)) as bv32
         == ((b0 as bv32 << 24) | (b1 as bv32 << 16) | (b2 as bv32 << 8) | b3 as bv32).RotateRight(1)
    ensures ((((b3 & 0x03) << 6) | ((b0 & 0xfc) >> 2)) as bv32 << 24)
          | ((((b0 & 0x03) << 6) | ((b1 & 0xfc) >> 2)) as bv32 << 16)
          | ((((b1 & 0x03) << 6) | ((b2 & 0xfc) >> 2)) as bv32 << 8)
          | (((b2 & 0x03) << 6) | ((b3 & 0xfc) >> 2)) as bv32
         == ((b0 as bv32 << 24) | (b1 as bv32 << 16) | (b2 as bv32 << 8) | b3 as bv32).RotateRight(2)
    ensures ((((b3 & 0x07) << 5) | ((b0 & 0xf8) >> 3)) as bv32 << 24)
          | ((((b0 & 0x07) << 5) | ((b1 & 0xf8) >> 3)) as bv32 << 16)
          | ((((b1 & 0x07) << 5) | ((b2 & 0xf8) >> 3)) as bv32 << 8)
          | (((b2 & 0x07) << 5) | ((b3 & 0xf8) >> 3)) as bv32
         == ((b0 as bv32 << 24) | (b1 as bv32 << 16) | (b2 as bv32 << 8) | b3 as bv32).RotateRight(3)
    ensures ((((b3 & 0x1f) << 3) | ((b0 & 0xe0) >> 5)) as bv32 << 24)
          | ((((b0 & 0x1f) << 3) | ((b1 & 0xe0) >> 5)) as bv32 << 16)
          | ((((b1 & 0x1f) << 3) | ((b2 & 0xe0) >> 5)) as bv32 << 8)
          | (((b2 & 0x1f) << 3) | ((b3 & 0xe0) >> 5)) as bv32
         == ((b0 as bv32 << 24) | (b1 as bv32 << 16) | (b2 as bv32 << 8) | b3 as bv32).RotateRight(5)
    ensures ((((b3 & 0x3f) << 2) | ((b0 & 0xc0) >> 6)) as bv32 << 24)
          | ((((b0 & 0x3f) << 2) | ((b1 & 0xc0) >> 6)) as bv32 << 16)
          | ((((b1 & 0x3f) << 2) | ((b2 & 0xc0) >> 6)) as bv32 << 8)
          | (((b2 & 0x3f) << 2) | ((b3 & 0xc0) >> 6)) as bv32
         == ((b0 as bv32 << 24) | (b1 as bv32 << 16) | (b2 as bv32 << 8) | b3 as bv32).RotateRight(6)
    ensures ((((b3 & 0x7f) << 1) | ((b0 & 0x80) >> 7)) as bv32 << 24)
          | ((((b0 & 0x7f) << 1) | ((b1 & 0x80) >> 7)) as bv32 << 16)
          | ((((b1 & 0x7f) << 1) | ((b2 & 0x80) >> 7)) as bv32 << 8)
          | (((b2 & 0x7f) << 1) | ((b3 & 0x80) >> 7)) as bv32
         == ((b0 as bv32 << 24) | (b1 as bv32 << 16) | (b2 as bv32 << 8) | b3 as bv32).RotateRight(7)
    ensures (b3 as bv32 << 24) | (b0 as bv32 << 16) | (b1 as bv32 << 8) | b2 as bv32 == ((b0 as bv32 << 24) | (b1 as bv32 << 16) | (b2 as bv32 << 8) | b3 as bv32).RotateRight(8)
    ensures ((0 | ((b0 & 0xf8) >> 3)) as bv32 << 24)
          | ((((b0 & 0x07) << 5) | ((b1 & 0xf8) >> 3)) as bv32 << 16)
          | ((((b1 & 0x07) << 5) | ((b2 & 0xf8) >> 3)) as bv32 << 8)
          | (((b2 & 0x07) << 5) | ((b3 & 0xf8) >> 3)) as bv32
         == ((b0 as bv32 << 24) | (b1 as bv32 << 16) | (b2 as bv32 << 8) | b3 as bv32) >> 3
    ensures ((0 as Byte) as bv32 << 24)
          | ((0 | ((b0 & 0xfc) >> 2)) as bv32 << 16)
          | ((((b0 & 0x03) << 6) | ((b1 & 0xfc) >> 2)) as bv32 << 8)
          | (((b1 & 0x03) << 6) | ((b2 & 0xfc) >> 2)) as bv32
         == ((b0 as bv32 << 24) | (b1 as bv32 << 16) | (b2 as bv32 << 8) | b3 as bv32) >> 10
  {
  }

  lemma RotatedWord1(b0: Byte, b1: Byte, b2: Byte, b3: Byte)
    ensures BigEndian32(((b3 & 0x01) << 7) | ((b0 & 0xfe) >> 1),
                        ((b0 & 0x01) << 7) | ((b1 & 0xfe) >> 1),
                        ((b1 & 0x01) << 7) | ((b2 & 0xfe) >> 1),
                        ((b2 & 0x01) << 7) | ((b3 & 0xfe) >> 1))
         == BigEndian32(b0, b1, b2, b3).RotateRight(1)
  {
    RotatedBits(b0, b1, b2, b3);
  }

  lemma RotatedWord2(b0: Byte, b1: Byte, b2: Byte, b3: Byte)
    ensures BigEndian32(((b3 & 0x03) << 6) | ((b0 & 0xfc) >> 2),
                        ((b0 & 0x03) << 6) | ((b1 & 0xfc) >> 2),
                        ((b1 & 0x03) << 6) | ((b2 & 0xfc) >> 2),
                        ((b2 & 0x03) << 6) | ((b3 & 0xfc) >> 2))
         == BigEndian32(b0, b1, b2, b3).RotateRight(2)
  {
    RotatedBits(b0, b1, b2, b3);
  }

  lemma RotatedWord3(b0: Byte, b1: Byte, b2: Byte, b3: Byte)
    ensures BigEndian32(((b3 & 0x07) << 5) | ((b0 & 0xf8) >> 3),
                        ((b0 & 0x07) << 5) | ((b1 & 0xf8) >> 3),
                        ((b1 & 0x07) << 5) | ((b2 & 0xf8) >> 3),
                        ((b2 & 0x07) << 5) | ((b3 & 0xf8) >> 3))
         == BigEndian32(b0, b1, b2, b3).RotateRight(3)
  {
    RotatedBits(b0, b1, b2, b3);
  }

  lemma RotatedWord5(b0: Byte, b1: Byte, b2: Byte, b3: Byte)
    ensures BigEndian32(((b3 & 0x1f) << 3) | ((b0 & 0xe0) >> 5),
                        ((b0 & 0x1f) << 3) | ((b1 & 0xe0) >> 5),
                        ((b1 & 0x1f) << 3) | ((b2 & 0xe0) >> 5),
                        ((b2 & 0x1f) << 3) | ((b3 & 0xe0) >> 5))
         == BigEndian32(b0, b1, b2, b3).RotateRight(5)
  {
    RotatedBits(b0, b1, b2, b3);
  }

  lemma RotatedWord6(b0: Byte, b1: Byte, b2: Byte, b3: Byte)
    ensures BigEndian32(((b3 & 0x3f) << 2) | ((b0 & 0xc0) >> 6),
                        ((b0 & 0x3f) << 2) | ((b1 & 0xc0) >> 6),
                        ((b1 & 0x3f) << 2) | ((b2 & 0xc0) >> 6),
                        ((b2 & 0x3f) << 2) | ((b3 & 0xc0) >> 6))
         == BigEndian32(b0, b1, b2, b3).RotateRight(6)
  {
    RotatedBits(b0, b1, b2, b3);
  }

  lemma RotatedWord7(b0: Byte, b1: Byte, b2: Byte, b3: Byte)
    ensures BigEndian32(((b3 & 0x7f) << 1) | ((b0 & 0x80) >> 7),
                        ((b0 & 0x7f) << 1) | ((b1 & 0x80) >> 7),
                        ((b1 & 0x7f) << 1) | ((b2 & 0x80) >> 7),
                        ((b2 & 0x7f) << 1) | ((b3 & 0x80) >> 7))
         == BigEndian32(b0, b1, b2, b3).RotateRight(7)
  {
    RotatedBits(b0, b1, b2, b3);
  }

  lemma RotatedWord8(b0: Byte, b1: Byte, b2: Byte, b3: Byte)
    ensures BigEndian32(b3, b0, b1, b2) == BigEndian32(b0, b1, b2, b3).RotateRight(8)
  {
    RotatedBits(b0, b1, b2, b3);
  }

  lemma ShiftedWord3(b0: Byte, b1: Byte, b2: Byte, b3: Byte)
    ensures BigEndian32(0 | ((b0 & 0xf8) >> 3),
                        ((b0 & 0x07) << 5) | ((b1 & 0xf8) >> 3),
                        ((b1 & 0x07) << 5) | ((b2 & 0xf8) >> 3),
                        ((b2 & 0x07) << 5) | ((b3 & 0xf8) >> 3))
         == BigEndian32(b0, b1, b2, b3) >> 3
  {
    RotatedBits(b0, b1, b2, b3);
  }

  lemma ShiftedWord10(b0: Byte, b1: Byte, b2: Byte, b3: Byte)
    ensures BigEndian32(0,
                        0 | ((b0 & 0xfc) >> 2),
                        ((b0 & 0x03) << 6) | ((b1 & 0xfc) >> 2),
                        ((b1 & 0x03) << 6) | ((b2 & 0xfc) >> 2))
         == BigEndian32(b0, b1, b2, b3) >> 10
  {
    RotatedBits(b0, b1, b2, b3);
  }

  lemma RotatedPieces(b0: Byte, b1: Byte, b2: Byte, b3: Byte)
    ensures BigEndian32(Take1(b3, b0), Take1(b0, b1), Take1(b1, b2), Take1(b2, b3)) == BigEndian32(b0, b1, b2, b3).RotateRight(1)
    ensures BigEndian32(Take2(b3, b0), Take2(b0, b1), Take2(b1, b2), Take2(b2, b3)) == BigEndian32(b0, b1, b2, b3).RotateRight(2)
    ensures BigEndian32(Take3(b3, b0), Take3(b0, b1), Take3(b1, b2), Take3(b2, b3)) == BigEndian32(b0, b1, b2, b3).RotateRight(3)
    ensures BigEndian32(Take5(b3, b0), Take5(b0, b1), Take5(b1, b2), Take5(b2, b3)) == BigEndian32(b0, b1, b2, b3).RotateRight(5)
    ensures BigEndian32(Take6(b3, b0), Take6(b0, b1), Take6(b1, b2), Take6(b2, b3)) == BigEndian32(b0, b1, b2, b3).RotateRight(6)
    ensures BigEndian32(Take7(b3, b0), Take7(b0, b1), Take7(b1, b2), Take7(b2, b3)) == BigEndian32(b0, b1, b2, b3).RotateRight(7)
    ensures BigEndian32(0 | ((b0 & 0xf8) >> 3), Take3(b0, b1), Take3(b1, b2), Take3(b2, b3)) == BigEndian32(b0, b1, b2, b3) >> 3
    ensures BigEndian32(0, 0 | ((b0 & 0xfc) >> 2), Take2(b0, b1), Take2(b1, b2)) == BigEndian32(b0, b1, b2, b3) >> 10
    ensures BigEndian32(b3, b0, b1, b2) == BigEndian32(b0, b1, b2, b3).RotateRight(8)
  {
    hide BigEndian32;
    RotatedWord1(b0, b1, b2, b3);
    RotatedWord2(b0, b1, b2, b3);
    RotatedWord3(b0, b1, b2, b3);
    RotatedWord5(b0, b1, b2, b3);
    RotatedWord6(b0, b1, b2, b3);
    RotatedWord7(b0, b1, b2, b3);
    RotatedWord8(b0, b1, b2, b3);
    ShiftedWord3(b0, b1, b2, b3);
    ShiftedWord10(b0, b1, b2, b3);
  }

  lemma RotatedPiecesByName(b0: Byte, b1: Byte, b2: Byte, b3: Byte)
    ensures BigEndian32(Take1(b3, b0), Take1(b0, b1), Take1(b1, b2), Take1(b2, b3)) == Ror(BigEndian32(b0, b1, b2, b3), 1)
    ensures BigEndian32(Take2(b3, b0), Take2(b0, b1), Take2(b1, b2), Take2(b2, b3)) == Ror(BigEndian32(b0, b1, b2, b3), 2)
    ensures BigEndian32(Take3(b3, b0), Take3(b0, b1), Take3(b1, b2), Take3(b2, b3)) == Ror(BigEndian32(b0, b1, b2, b3), 3)
    ensures BigEndian32(Take5(b3, b0), Take5(b0, b1), Take5(b1, b2), Take5(b2, b3)) == Ror(BigEndian32(b0, b1, b2, b3), 5)
    ensures BigEndian32(Take6(b3, b0), Take6(b0, b1), Take6(b1, b2), Take6(b2, b3)) == Ror(BigEndian32(b0, b1, b2, b3), 6)
    ensures BigEndian32(Take7(b3, b0), Take7(b0, b1), Take7(b1, b2), Take7(b2, b3)) == Ror(BigEndian32(b0, b1, b2, b3), 7)
    ensures BigEndian32(0 | ((b0 & 0xf8) >> 3), Take3(b0, b1), Take3(b1, b2), Take3(b2, b3)) == Shr(BigEndian32(b0, b1, b2, b3), 3)
    ensures BigEndian32(0, 0 | ((b0 & 0xfc) >> 2), Take2(b0, b1), Take2(b1, b2)) == Shr(BigEndian32(b0, b1, b2, b3), 10)
    ensures BigEndian32(b3, b0, b1, b2) == Ror(BigEndian32(b0, b1, b2, b3), 8)
  {
    hide BigEndian32, Take1, Take2, Take3, Take5, Take6, Take7, Ror, Shr;
    RotatedPieces(b0, b1, b2, b3);
    RorByName(BigEndian32(b0, b1, b2, b3));
    ShrByName(BigEndian32(b0, b1, b2, b3));
  }

  lemma RotatedTwiceBits(w: bv32)
    ensures w.RotateRight(8).RotateRight(3) == w.RotateRight(11)
    ensures w.RotateRight(8).RotateRight(5) == w.RotateRight(13)
    ensures w.RotateRight(8).RotateRight(8).RotateRight(1) == w.RotateRight(17)
    ensures w.RotateRight(8).RotateRight(8).RotateRight(2) == w.RotateRight(18)
    ensures w.RotateRight(8).RotateRight(8).RotateRight(3) == w.RotateRight(19)
    ensures w.RotateRight(8).RotateRight(8).RotateRight(6) == w.RotateRight(22)
    ensures w.RotateRight(8).RotateRight(8).RotateRight(8).RotateRight(1) == w.RotateRight(25)
  {
  }

  lemma ShrByName(w: bv32)
    ensures Shr(w, 3) == w >> 3 && Shr(w, 10) == w >> 10
  {
  }

  lemma RorByName(w: bv32)
    ensures Ror(w, 1) == w.RotateRight(1) && Ror(w, 2) == w.RotateRight(2) && Ror(w, 3) == w.RotateRight(3)
    ensures Ror(w, 5) == w.RotateRight(5) && Ror(w, 6) == w.RotateRight(6) && Ror(w, 7) == w.RotateRight(7)
    ensures Ror(w, 8) == w.RotateRight(8)
    ensures Ror(w, 11) == w.RotateRight(11) && Ror(w, 13) == w.RotateRight(13) && Ror(w, 17) == w.RotateRight(17)
    ensures Ror(w, 18) == w.RotateRight(18) && Ror(w, 19) == w.RotateRight(19) && Ror(w, 22) == w.RotateRight(22)
    ensures Ror(w, 25) == w.RotateRight(25)
  {
  }

  lemma RotatedTwice11(w: bv32)
    ensures Ror(Ror(w, 8), 3) == Ror(w, 11)
  {
    hide Ror;
    RorByName(w);
    RorByName(Ror(w, 8));
    RotatedTwiceBits(w);
  }

  lemma RotatedTwice13(w: bv32)
    ensures Ror(Ror(w, 8), 5) == Ror(w, 13)
  {
    hide Ror;
    RorByName(w);
    RorByName(Ror(w, 8));
    RotatedTwiceBits(w);
  }

  lemma RotatedTwice17(w: bv32)
    ensures Ror(Ror(Ror(w, 8), 8), 1) == Ror(w, 17)
  {
    hide Ror;
    RorByName(w);
    RorByName(Ror(w, 8));
    RorByName(Ror(Ror(w, 8), 8));
    RotatedTwiceBits(w);
  }

  lemma RotatedTwice18(w: bv32)
    ensures Ror(Ror(Ror(w, 8), 8), 2) == Ror(w, 18)
  {
    hide Ror;
    RorByName(w);
    RorByName(Ror(w, 8));
    RorByName(Ror(Ror(w, 8), 8));
    RotatedTwiceBits(w);
  }

  lemma RotatedTwice19(w: bv32)
    ensures Ror(Ror(Ror(w, 8), 8), 3) == Ror(w, 19)
  {
    hide Ror;
    RorByName(w);
    RorByName(Ror(w, 8));
    RorByName(Ror(Ror(w, 8), 8));
    RotatedTwiceBits(w);
  }

  lemma RotatedTwice22(w: bv32)
    ensures Ror(Ror(Ror(w, 8), 8), 6) == Ror(w, 22)
  {
    hide Ror;
    RorByName(w);
    RorByName(Ror(w, 8));
    RorByName(Ror(Ror(w, 8), 8));
    RotatedTwiceBits(w);
  }

  lemma RotatedTwice25(w: bv32)
    ensures Ror(Ror(Ror(Ror(w, 8), 8), 8), 1) == Ror(w, 25)
  {
    hide Ror;
    RorByName(w);
    RorByName(Ror(w, 8));
    RorByName(Ror(Ror(w, 8), 8));
    RorByName(Ror(Ror(Ror(w, 8), 8), 8));
    RotatedTwiceBits(w);
  }

  lemma ShiftsAgree(b: Bitset32)
    ensures Value(RightShift3(b)) == Shr(Value(b), 3) && Value(RightShift10(b)) == Shr(Value(b), 10)
  {
    hide BigEndian32, Take3, Take2, Shr;
    RotatedPiecesByName(b.byte0, b.byte1, b.byte2, b.byte3);
  }

  lemma SmallSigmaRotationsAgree(b: Bitset32)
    ensures Value(RightRotate7(b)) == Ror(Value(b), 7)
    ensures Value(RightRotate17(b)) == Ror(Value(b), 17)
    ensures Value(RightRotate18(b)) == Ror(Value(b), 18)
    ensures Value(RightRotate19(b)) == Ror(Value(b), 19)
  {
    hide BigEndian32, Take1, Take2, Take3, Take5, Take6, Take7, Ror, Shr;
    var b0, b1, b2, b3 := b.byte0, b.byte1, b.byte2, b.byte3;
    RotatedPiecesByName(b0, b1, b2, b3);
    RotatedPiecesByName(b3, b0, b1, b2);
    RotatedPiecesByName(b2, b3, b0, b1);
    RotatedTwice17(Value(b));
    RotatedTwice18(Value(b));
    RotatedTwice19(Value(b));
  }

  lemma BigSigmaRotationsAgree(b: Bitset32)
    ensures Value(RightRotate2(b)) == Ror(Value(b), 2)
    ensures Value(RightRotate6(b)) == Ror(Value(b), 6)
    ensures Value(RightRotate11(b)) == Ror(Value(b), 11)
    ensures Value(RightRotate13(b)) == Ror(Value(b), 13)
    ensures Value(RightRotate22(b)) == Ror(Value(b), 22)
    ensures Value(RightRotate25(b)) == Ror(Value(b), 25)
  {
    hide BigEndian32, Take1, Take2, Take3, Take5, Take6, Take7, Ror, Shr;
    var b0, b1, b2, b3 := b.byte0, b.byte1, b.byte2, b.byte3;
    RotatedPiecesByName(b0, b1, b2, b3);
    RotatedPiecesByName(b3, b0, b1, b2);
    RotatedPiecesByName(b2, b3, b0, b1);
    RotatedPiecesByName(b1, b2, b3, b0);
    RotatedTwice11(Value(b));
    RotatedTwice13(Value(b));
    RotatedTwice22(Value(b));
    RotatedTwice25(Value(b));
  }

  lemma AndAgrees(x: Bitset32, y: Bitset32)
    ensures Value(And(x, y)) == Value(x) & Value(y)
  {
  }

  lemma XorAgrees(x: Bitset32, y: Bitset32)
    ensures Value(Xor(x, y)) == Value(x) ^ Value(y)
  {
  }

  lemma NotAgrees(x: Bitset32)
    ensures Value(Not(x)) == !Value(x)
  {
  }

  lemma StoredValue(host: Host, w: bv32)
    ensures Value(Make(host, w)) == w
  {
    hide BigEndianOf32, Memory32;
    BigEndianInMemory32(host, w);
    Joined(w);
  }

  lemma Joined(w: bv32)
    ensures BigEndian32(((w >> 24) & 0xff) as Byte, ((w >> 16) & 0xff) as Byte, ((w >> 8) & 0xff) as Byte, (w & 0xff) as Byte) == w
  {
  }

  lemma RawValue(host: Host, b: Bitset32)
    ensures BigEndianOf32(host, Raw(host, b)) == Value(b)
  {
  }

  lemma AddAgrees(host: Host, x: Bitset32, y: Bitset32)
    ensures Value(Add(host, x, y)) == Plus(Value(x), Value(y))
  {
    hide BigEndianOf32, Raw, Value, Plus, Stored;
    RawValue(host, x);
    RawValue(host, y);
    StoredValue(host, Plus(Value(x), Value(y)));
  }

  // --------------------------------------------------------- schedule and rounds

  function Tmp0(p1: Bitset32): Bitset32 { Xor(Xor(RightRotate7(p1), RightRotate18(p1)), RightShift3(p1)) }
  function Tmp1(p3: Bitset32): Bitset32 { Xor(Xor(RightRotate17(p3), RightRotate19(p3)), RightShift10(p3)) }
  function Choice(e: Bitset32, f: Bitset32, g: Bitset32): Bitset32 { Xor(And(e, f), And(Not(e), g)) }
  function Majority(a: Bitset32, b: Bitset32, c: Bitset32): Bitset32 { Xor(Xor(And(a, b), And(a, c)), And(b, c)) }
  function Rotated0(a: Bitset32): Bitset32 { Xor(Xor(RightRotate2(a), RightRotate13(a)), RightRotate22(a)) }
  function Rotated1(e: Bitset32): Bitset32 { Xor(Xor(RightRotate6(e), RightRotate11(e)), RightRotate25(e)) }

  lemma Xor3Agrees(x: Bitset32, y: Bitset32, z: Bitset32)
    ensures Value(Xor(Xor(x, y), z)) == Xor3(Value(x), Value(y), Value(z))
  {
    hide Value, Xor;
    XorAgrees(x, y);
    XorAgrees(Xor(x, y), z);
  }

  lemma SmallSigmasAgree(b: Bitset32)
    ensures Value(Tmp0(b)) == Sigma0(Value(b)) && Value(Tmp1(b)) == Sigma1(Value(b))
  {
    hide Value, Xor, Xor3, Ror, Shr, RightRotate7, RightRotate17, RightRotate18, RightRotate19, RightShift3, RightShift10;
    SmallSigmaRotationsAgree(b);
    ShiftsAgree(b);
    Xor3Agrees(RightRotate7(b), RightRotate18(b), RightShift3(b));
    Xor3Agrees(RightRotate17(b), RightRotate19(b), RightShift10(b));
  }

  lemma BigSigmasAgree(b: Bitset32)
    ensures Value(Rotated0(b)) == BigSigma0(Value(b)) && Value(Rotated1(b)) == BigSigma1(Value(b))
  {
    hide Value, Xor, Xor3, Ror, RightRotate2, RightRotate6, RightRotate11, RightRotate13, RightRotate22, RightRotate25;
    BigSigmaRotationsAgree(b);
    Xor3Agrees(RightRotate2(b), RightRotate13(b), RightRotate22(b));
    Xor3Agrees(RightRotate6(b), RightRotate11(b), RightRotate25(b));
  }

  lemma ChoiceAgrees(e: Bitset32, f: Bitset32, g: Bitset32)
    ensures Value(Choice(e, f, g)) == Ch(Value(e), Value(f), Value(g))
  {
    hide Value, Xor, And, Not;
    AndAgrees(e, f);
    NotAgrees(e);
    AndAgrees(Not(e), g);
    XorAgrees(And(e, f), And(Not(e), g));
  }

  lemma MajorityAgrees(a: Bitset32, b: Bitset32, c: Bitset32)
    ensures Value(Majority(a, b, c)) == Maj(Value(a), Value(b), Value(c))
  {
    hide Value, Xor, And;
    AndAgrees(a, b);
    AndAgrees(a, c);
    AndAgrees(b, c);
    XorAgrees(And(a, b), And(a, c));
    XorAgrees(Xor(And(a, b), And(a, c)), And(b, c));
  }

  lemma PlusCommutes(x: bv32, y: bv32)
    ensures Plus(x, y) == Plus(y, x)
  {
  }

  lemma SumRegroups(x: bv32, y: bv32, z: bv32)
    ensures (x + y) + z == x + (y + z)
  {
  }

  lemma PlusOfSums(x: bv32, y: bv32, z: bv32)
    ensures Plus(x + y, z) == Plus(x, y + z)
  {
    SumRegroups(x, y, z);
  }

  lemma PlusIsSum(x: bv32, y: bv32)
    ensures Plus(x, y) == x + y
  {
  }

  lemma PlusRegroups(x: bv32, y: bv32, z: bv32)
    ensures Plus(Plus(x, y), z) == Plus(x, Plus(y, z))
  {
    hide Plus;
    PlusIsSum(x, y);
    PlusIsSum(y, z);
    PlusOfSums(x, y, z);
  }

  lemma PlusesReorder(a: bv32, b: bv32, c: bv32, d: bv32)
    ensures Plus(Plus(Plus(a, b), c), d) == Plus(Plus(Plus(d, c), b), a)
  {
    hide Plus;
    PlusCommutes(Plus(Plus(a, b), c), d);
    PlusCommutes(Plus(a, b), c);
    PlusRegroups(d, c, Plus(a, b));
    PlusCommutes(a, b);
    PlusRegroups(Plus(d, c), b, a);
  }

  /** Makes the word sixteen places on from the one at `i`. */
  method Structure(buffer: array<Bitset32>, i: nat, host: Host)
    requires i + 16 < buffer.Length
    modifies buffer
    ensures forall j | 0 <= j < buffer.Length && j != i + 16 :: buffer[j] == old(buffer[j])
    ensures Value(buffer[i + 16])
         == Expanded(Value(old(buffer[i + 14])), Value(old(buffer[i + 9])), Value(old(buffer[i + 1])), Value(old(buffer[i])))
  {
    hide Value, Add, Sigma0, Sigma1, Plus, Tmp0, Tmp1;
    var p0, p1, p2, p3 := buffer[i], buffer[i + 1], buffer[i + 9], buffer[i + 14];
    SmallSigmasAgree(p1);
    SmallSigmasAgree(p3);
    AddAgrees(host, p0, Tmp0(p1));
    AddAgrees(host, Add(host, p0, Tmp0(p1)), p2);
    AddAgrees(host, Add(host, Add(host, p0, Tmp0(p1)), p2), Tmp1(p3));
    PlusesReorder(Value(p0), Sigma0(Value(p1)), Value(p2), Sigma1(Value(p3)));
    buffer[i + 16] := Add(host, Add(host, Add(host, p0, Tmp0(p1)), p2), Tmp1(p3));
  }

  ghost function StateOf(v: seq<Bitset32>): State
    requires |v| == 8
  {
    State(Value(v[0]), Value(v[1]), Value(v[2]), Value(v[3]), Value(v[4]), Value(v[5]), Value(v[6]), Value(v[7]))
  }

  /** One round on the eight registers in place. */
  method EncodeRound(value: array<Bitset32>, word: Bitset32, k: Bitset32, host: Host)
    requires value.Length == 8
    modifies value
    ensures StateOf(value[..]) == Round(old(StateOf(value[..])), Value(k), Value(word))
  {
    hide Value, Add, Plus, Choice, Majority, Rotated0, Rotated1, BigSigma0, BigSigma1, Ch, Maj;
    var a, b, c, d := value[0], value[1], value[2], value[3];
    var e, f, g, h := value[4], value[5], value[6], value[7];
    ghost var was := StateOf(value[..]);
    var choice := Choice(e, f, g);
    var majority := Majority(a, b, c);
    var sigma0 := Rotated0(a);
    var sigma1 := Rotated1(e);
    var tmp1 := Add(host, Add(host, Add(host, Add(host, h, sigma1), choice), k), word);
    var tmp2 := Add(host, sigma0, majority);
    FirstSum(host, e, f, g, h, k, word, was);
    SecondSum(host, a, b, c, was);
    AddAgrees(host, d, tmp1);
    AddAgrees(host, tmp1, tmp2);
    value[7] := value[6];
    value[6] := value[5];
    value[5] := value[4];
    value[4] := Add(host, value[3], tmp1);
    value[3] := value[2];
    value[2] := value[1];
    value[1] := value[0];
    value[0] := Add(host, tmp1, tmp2);
  }

  lemma FirstSum(host: Host, e: Bitset32, f: Bitset32, g: Bitset32, h: Bitset32, k: Bitset32, word: Bitset32, s: State)
    requires s.e == Value(e) && s.f == Value(f) && s.g == Value(g) && s.h == Value(h)
    ensures Value(Add(host, Add(host, Add(host, Add(host, h, Rotated1(e)), Choice(e, f, g)), k), word))
         == T1(s, Value(k), Value(word))
  {
    hide Value, Add, Plus, Choice, Rotated1, BigSigma1, Ch;
    BigSigmasAgree(e);
    ChoiceAgrees(e, f, g);
    AddAgrees(host, h, Rotated1(e));
    AddAgrees(host, Add(host, h, Rotated1(e)), Choice(e, f, g));
    AddAgrees(host, Add(host, Add(host, h, Rotated1(e)), Choice(e, f, g)), k);
    AddAgrees(host, Add(host, Add(host, Add(host, h, Rotated1(e)), Choice(e, f, g)), k), word);
  }

  lemma SecondSum(host: Host, a: Bitset32, b: Bitset32, c: Bitset32, s: State)
    requires s.a == Value(a) && s.b == Value(b) && s.c == Value(c)
    ensures Value(Add(host, Rotated0(a), Majority(a, b, c))) == T2(s)
  {
    hide Value, Add, Plus, Majority, Rotated0, BigSigma0, Maj;
    BigSigmasAgree(a);
    MajorityAgrees(a, b, c);
    AddAgrees(host, Rotated0(a), Majority(a, b, c));
  }

  /** The first `n` words of the schedule are in the buffer. */
  ghost predicate Scheduled(buffer: seq<Bitset32>, m: seq<bv32>, n: nat) {
    |m| == 16 && n <= |buffer| && forall j | 0 <= j < n :: Value(buffer[j]) == W(m, j)
  }

  lemma ScheduleGrows(before: seq<Bitset32>, after: seq<Bitset32>, m: seq<bv32>, i: nat)
    requires Scheduled(before, m, 16 + i) && |after| == |before| > 16 + i
    requires forall j | 0 <= j < |before| && j != i + 16 :: after[j] == before[j]
    requires Value(after[i + 16])
          == Expanded(Value(before[i + 14]), Value(before[i + 9]), Value(before[i + 1]), Value(before[i]))
    ensures Scheduled(after, m, 16 + i + 1)
  {
    hide Value, Expanded;
  }

  /** One block: the schedule, the rounds, and the sum with the state before. */
  method Block(hash: array<Bitset32>, value: array<Bitset32>, buffer: array<Bitset32>, host: Host, ghost m: seq<bv32>)
    requires hash.Length == 8 && value.Length == 8 && buffer.Length == 64
    requires hash != value && hash != buffer && value != buffer && Scheduled(buffer[..], m, 16)
    modifies hash, value, buffer
    ensures StateOf(hash[..]) == Compress(old(StateOf(hash[..])), m)
  {
    hide Value, Expanded, StateOf, Scheduled, W, Rounds, Round;
    ghost var s0 := StateOf(hash[..]);
    ScheduleLength(buffer[..], m, 16);
    for i := 0 to 48
      invariant Scheduled(buffer[..], m, 16 + i) && hash[..] == old(hash[..])
    {
      ghost var before := buffer[..];
      Structure(buffer, i, host);
      ScheduleGrows(before, buffer[..], m, i);
    }
    for i := 0 to 8
      invariant value[..i] == hash[..i] && hash[..] == old(hash[..])
      invariant Scheduled(buffer[..], m, 64)
    {
      value[i] := hash[i];
    }
    assert value[..] == hash[..];
    NoRounds(s0, m);
    for i := 0 to 64
      invariant Scheduled(buffer[..], m, 64) && hash[..] == old(hash[..])
      invariant StateOf(value[..]) == Rounds(s0, m, i)
    {
      WordAt(buffer[..], m, 64, i);
      StoredValue(host, K()[i]);
      OneRound(s0, m, i);
      EncodeRound(value, buffer[i], Make(host, K()[i]), host);
    }
    AddBack(hash, value, host);
  }

  lemma ScheduleLength(buffer: seq<Bitset32>, m: seq<bv32>, n: nat)
    requires Scheduled(buffer, m, n)
    ensures |m| == 16
  {
  }

  lemma WordAt(buffer: seq<Bitset32>, m: seq<bv32>, n: nat, i: nat)
    requires Scheduled(buffer, m, n) && i < n
    ensures Value(buffer[i]) == W(m, i)
  {
  }

  lemma NoRounds(s0: State, m: seq<bv32>)
    requires |m| == 16
    ensures Rounds(s0, m, 0) == s0
  {
  }

  lemma OneRound(s0: State, m: seq<bv32>, i: nat)
    requires |m| == 16 && i < 64
    ensures Rounds(s0, m, i + 1) == Round(Rounds(s0, m, i), K()[i], W(m, i))
  {
  }

  method AddBack(hash: array<Bitset32>, value: array<Bitset32>, host: Host)
    requires hash.Length == 8 && value.Length == 8 && hash != value
    modifies hash
    ensures StateOf(hash[..]) == Sum(old(StateOf(hash[..])), StateOf(value[..]))
  {
    hide Value, Add, Plus;
    AddAgrees(host, hash[0], value[0]);
    AddAgrees(host, hash[1], value[1]);
    AddAgrees(host, hash[2], value[2]);
    AddAgrees(host, hash[3], value[3]);
    AddAgrees(host, hash[4], value[4]);
    AddAgrees(host, hash[5], value[5]);
    AddAgrees(host, hash[6], value[6]);
    AddAgrees(host, hash[7], value[7]);
    hash[0] := Add(host, hash[0], value[0]);
    hash[1] := Add(host, hash[1], value[1]);
    hash[2] := Add(host, hash[2], value[2]);
    hash[3] := Add(host, hash[3], value[3]);
    hash[4] := Add(host, hash[4], value[4]);
    hash[5] := Add(host, hash[5], value[5]);
    hash[6] := Add(host, hash[6], value[6]);
    hash[7] := Add(host, hash[7], value[7]);
  }

  /** The bytes read seen as the first words of the buffer. */
  method View(block: array<Byte>, buffer: array<Bitset32>)
    requires block.Length >= 64 && buffer.Length == 64 && block as object != buffer as object
    modifies buffer
    ensures Scheduled(buffer[..], WordsOf(block[..64]), 16)
  {
    hide WordsOf, BigEndian32;
    ghost var bytes := block[..64];
    for i := 0 to 16
      invariant block[..64] == bytes && forall j | 0 <= j < i :: Value(buffer[j]) == WordsOf(bytes)[j]
    {
      WordsOfAt(bytes, i);
      assert bytes[4 * i] == block[4 * i] && bytes[4 * i + 1] == block[4 * i + 1];
      assert bytes[4 * i + 2] == block[4 * i + 2] && bytes[4 * i + 3] == block[4 * i + 3];
      buffer[i] := Bitset32(block[4 * i], block[4 * i + 1], block[4 * i + 2], block[4 * i + 3]);
      assert Value(buffer[i]) == WordsOf(bytes)[i];
    }
    FirstWords(buffer[..], WordsOf(bytes));
  }

  lemma FirstWords(buffer: seq<Bitset32>, m: seq<bv32>)
    requires |m| == 16 <= |buffer| && forall j | 0 <= j < 16 :: Value(buffer[j]) == m[j]
    ensures Scheduled(buffer, m, 16)
  {
  }

  /** The hash of the whole blocks up to `done`, and the words of the next one. */
  ghost function HashedTo(message: seq<Byte>, done: nat): State
    requires done % 64 == 0 && done <= |message|
  {
    Hashed(message[..done])
  }

  ghost function BlockAt(message: seq<Byte>, done: nat): (m: seq<bv32>)
    requires done + 64 <= |message|
    ensures |m| == 16
  {
    WordsOf(message[done..done + 64])
  }

  lemma HashedOneMore(message: seq<Byte>, done: nat, next: nat)
    requires done % 64 == 0 && next % 64 == 0 && next == done + 64 <= |message|
    ensures HashedTo(message, next) == Compress(HashedTo(message, done), BlockAt(message, done))
  {
    hide Compress, WordsOf;
    var all := message[..next];
    assert all[..done] == message[..done] && all[done..] == message[done..next];
  }

  method Initial(host: Host) returns (hash: array<Bitset32>)
    ensures fresh(hash) && hash.Length == 8 && StateOf(hash[..]) == Hashed([])
  {
    hide Make, Value;
    StoredValue(host, 0x6a09e667);
    StoredValue(host, 0xbb67ae85);
    StoredValue(host, 0x3c6ef372);
    StoredValue(host, 0xa54ff53a);
    StoredValue(host, 0x510e527f);
    StoredValue(host, 0x9b05688c);
    StoredValue(host, 0x1f83d9ab);
    StoredValue(host, 0x5be0cd19);
    hash := new Bitset32[8]
      [Make(host, 0x6a09e667), Make(host, 0xbb67ae85), Make(host, 0x3c6ef372), Make(host, 0xa54ff53a),
       Make(host, 0x510e527f), Make(host, 0x9b05688c), Make(host, 0x1f83d9ab), Make(host, 0x5be0cd19)];
  }

  /** What the first 64 bytes of memory hold before the next read: the block before, or the
      zeros they start with. */
  function Behind(message: seq<Byte>, done: nat): (b: seq<Byte>)
    requires done <= |message|
    ensures |b| == 64
  {
    if done < 64 then Zeros(64) else message[done - 64..done]
  }

  /** The words of one block, in memory as bytes, go into the state. */
  method Absorb(hash: array<Bitset32>, value: array<Bitset32>, buffer: array<Bitset32>, block: array<Byte>, host: Host)
    requires hash.Length == 8 && value.Length == 8 && buffer.Length == 64 && block.Length >= 64
    requires hash != value && hash != buffer && value != buffer && block as object != buffer as object
    modifies hash, value, buffer
    ensures StateOf(hash[..]) == Compress(old(StateOf(hash[..])), WordsOf(block[..64]))
  {
    hide StateOf, Compress, WordsOf, Scheduled;
    View(block, buffer);
    Block(hash, value, buffer, host, WordsOf(block[..64]));
  }

  /** Whole blocks are taken in until a read comes up short; the state is then the hash of
      all of them, the rest of the message is at the start of the block, and behind it still
      lies what was there before. */
  method FullBlocks(input: InputStream, hash: array<Bitset32>, value: array<Bitset32>, buffer: array<Bitset32>,
                    block: array<Byte>, host: Host)
    returns (size: nat, total: nat, ghost done: nat)
    requires hash.Length == 8 && value.Length == 8 && buffer.Length == 64 && block.Length == 256
    requires hash != value && hash != buffer && value != buffer && block as object != buffer as object
    requires block as object != hash as object && block as object != value as object
    requires StateOf(hash[..]) == Hashed([]) && block[..64] == Zeros(64)
    modifies input, hash, value, buffer, block
    ensures done % 64 == 0 && done + size == |old(input.unread)| && size < 64 && input.unread == []
    ensures total == Wrapped(done)
    ensures StateOf(hash[..]) == Hashed(old(input.unread)[..done]) && block[..size] == old(input.unread)[done..]
    ensures block[size..64] == Behind(old(input.unread), done)[size..]
  {
    hide Hashed, StateOf, Compress, WordsOf, Zeros, Behind;
    ghost var message := input.unread;
    total, done := 0, 0;
    ghost var memory := block[..];
    size := input.Read(block, 64);
    FirstRead(message, memory, block[..], size);
    while size == 64
      invariant done + size <= |message| && done % 64 == 0 && size <= 64
      invariant input.unread == message[done + size..] && block[..size] == message[done..done + size]
      invariant block[size..64] == Behind(message, done)[size..]
      invariant size < 64 ==> input.unread == []
      invariant total == Wrapped(done) && StateOf(hash[..]) == Hashed(message[..done])
      decreases |message| - done
    {
      OneBlockMore(done);
      CountGrows(done, 64);
      total := Wrapped(total + size);
      HashedOneMore(message, done, done + 64);
      assert block[..64] == block[..size];
      Absorb(hash, value, buffer, block, host);
      memory := block[..];
      assert memory[..64] == message[done..done + 64];
      done := done + 64;
      size := input.Read(block, 64);
      NextRead(message, done, memory, block[..], size);
    }
  }

  lemma FirstRead(message: seq<Byte>, memory: seq<Byte>, after: seq<Byte>, size: nat)
    requires |memory| == 256 && memory[..64] == Zeros(64) && size <= 64 && size <= |message|
    requires after == message[..size] + memory[size..]
    ensures message[..0] == [] && after[..size] == message[0..size] && message[size..] == message[0 + size..]
    ensures after[size..64] == Behind(message, 0)[size..]
  {
    hide Zeros;
    assert after[size..64] == memory[..64][size..];
  }

  lemma NextRead(message: seq<Byte>, done: nat, memory: seq<Byte>, after: seq<Byte>, size: nat)
    requires |memory| == 256 && 64 <= done <= |message| && memory[..64] == message[done - 64..done]
    requires size <= 64 && done + size <= |message| && after == message[done..][..size] + memory[size..]
    ensures message[done..][..size] == message[done..done + size] && message[done..][size..] == message[done + size..]
    ensures after[..size] == message[done..done + size]
    ensures after[size..64] == Behind(message, done)[size..]
  {
    assert after[size..64] == memory[..64][size..];
  }

  // ------------------------------------------------------------- the last blocks

  /** How far the code clears a block whose tail is to take the length as well. */
  function Cleared(size: nat): nat
    requires size <= 47
  {
    if size <= 44 then 56 else 189 - 3 * size
  }

  /** The byte that marks the end: the lowest of a word that has been swapped for the host. */
  function Mark(host: Host): Byte { (LittleEndianOf32(host, 0x80) & 0xff) as Byte }

  lemma MarkExactly(host: Host)
    ensures Mark(host) == if host.LittleEndian? then 0x80 else 0
  {
  }

  /** The block it then takes in. */
  function ShortBlock(host: Host, tail: seq<Byte>, behind: seq<Byte>, length: seq<Byte>): (last: seq<Byte>)
    requires |tail| <= 47 && |behind| == 64 && |length| == 8
    ensures |last| == 64
  {
    tail + [Mark(host)] + Zeros(Cleared(|tail|) - |tail| - 1) + behind[Cleared(|tail|)..56] + length
  }

  ghost predicate ClearAnyway(size: nat, behind: seq<Byte>)
    requires size <= 47 && |behind| == 64
  {
    forall p | Cleared(size) <= p < 56 :: behind[p] == 0
  }

  /** It is the padded block of the standard exactly when the host is little-endian, so that the
      mark is there, and the bytes it does not clear are zero, as they always are for a tail of
      up to 44 bytes. */
  lemma ShortBlockIsPadded(host: Host, tail: seq<Byte>, behind: seq<Byte>, length: seq<Byte>)
    requires |tail| <= 47 && |behind| == 64 && |length| == 8
    ensures ShortBlock(host, tail, behind, length) == tail + [0x80] + Zeros(55 - |tail|) + length <==>
            host.LittleEndian? && ClearAnyway(|tail|, behind)
    ensures |tail| <= 44 ==> ClearAnyway(|tail|, behind)
  {
    hide Mark;
    MarkExactly(host);
    var n, end := |tail|, Cleared(|tail|);
    var made, padded := ShortBlock(host, tail, behind, length), tail + [0x80] + Zeros(55 - n) + length;
    assert |made| == |padded| == 64;
    assert made[n] == Mark(host) && padded[n] == 0x80;
    assert forall p | 0 <= p < end && p != n :: made[p] == padded[p];
    assert forall p | end <= p < 56 :: made[p] == behind[p] && padded[p] == 0;
    assert forall p | 56 <= p < 64 :: made[p] == length[p - 56] && padded[p] == length[p - 56];
    if made == padded {
      forall p | end <= p < 56
        ensures behind[p] == 0
      {
        assert made[p] == padded[p];
      }
    }
  }

  /** So a tail of 47 bytes behind a block of ones is padded with eight of them. */
  lemma LeftoversSpoilPadding(host: Host, tail: seq<Byte>, behind: seq<Byte>, length: seq<Byte>)
    requires |tail| == 47 && |length| == 8 && behind == seq(64, _ => 1)
    ensures ShortBlock(host, tail, behind, length) != tail + [0x80] + Zeros(8) + length
  {
    ShortBlockIsPadded(host, tail, behind, length);
    assert behind[50] == 1;
  }

  /** The first of two last blocks. */
  function LongBlock(host: Host, tail: seq<Byte>): (first: seq<Byte>)
    requires 55 < |tail| < 64
    ensures |first| == 64
  {
    tail + [Mark(host)] + Zeros(63 - |tail|)
  }

  lemma LongBlockIsPadded(host: Host, tail: seq<Byte>)
    requires 55 < |tail| < 64
    ensures LongBlock(host, tail) == tail + [0x80] + Zeros(63 - |tail|) <==> host.LittleEndian?
  {
    hide Mark;
    MarkExactly(host);
    assert LongBlock(host, tail)[|tail|] == Mark(host);
    assert (tail + [0x80] + Zeros(63 - |tail|))[|tail|] == 0x80;
  }

  /** All the code takes in of a message whose whole blocks end at `done`. */
  function Absorbed(host: Host, message: seq<Byte>, done: nat): (all: seq<Byte>)
    requires done % 64 == 0 && (done <= |message| <= done + 47 || done + 55 < |message| < done + 64)
    ensures |all| == done + (if |message| <= done + 47 then 64 else 128) && |all| % 64 == 0
  {
    OneBlockMore(done);
    OneBlockMore(done + 64);
    var tail, length := message[done..], LengthField(|message|);
    message[..done] +
      if |tail| <= 47 then ShortBlock(host, tail, Behind(message, done), length)
      else LongBlock(host, tail) + (Zeros(56) + length)
  }

  /** When the bytes the clearing misses are zero, or there are none. */
  ghost predicate NothingMissed(message: seq<Byte>, done: nat)
    requires done <= |message|
  {
    |message| - done <= 47 ==> ClearAnyway(|message| - done, Behind(message, done))
  }

  lemma SamePrefix(a: seq<Byte>, x: seq<Byte>, y: seq<Byte>)
    ensures a + x == a + y <==> x == y
  {
    assert (a + x)[|a|..] == x && (a + y)[|a|..] == y;
  }

  lemma SameSuffix(x: seq<Byte>, y: seq<Byte>, b: seq<Byte>)
    ensures x + b == y + b <==> x == y
  {
    if x + b == y + b {
      assert (x + b)[..|x|] == x && (y + b)[..|y|] == y;
    }
  }

  /** What is taken in is the padded message of the standard exactly when the host is
      little-endian and the clearing misses nothing: on a big-endian host every message is
      hashed without its mark. */
  lemma AbsorbedIsPadded(host: Host, message: seq<Byte>, done: nat)
    requires done % 64 == 0 && (done <= |message| <= done + 47 || done + 55 < |message| < done + 64)
    ensures Absorbed(host, message, done) == message + Padding(|message|) <==>
            host.LittleEndian? && NothingMissed(message, done)
  {
    hide LengthField, ShortBlock, LongBlock, Behind, ClearAnyway, Padding, Zeros;
    var tail, length, n := message[done..], LengthField(|message|), |message| - done;
    if n <= 47 {
      ShortTail(message, done);
      ShortBlockIsPadded(host, tail, Behind(message, done), length);
      SamePrefix(message[..done], ShortBlock(host, tail, Behind(message, done), length),
                 tail + [0x80] + Zeros(55 - n) + length);
    } else {
      LongTail(message, done);
      LongBlockIsPadded(host, tail);
      var standard := tail + [0x80] + Zeros(63 - n);
      SamePrefix(message[..done], LongBlock(host, tail) + (Zeros(56) + length), standard + (Zeros(56) + length));
      SameSuffix(LongBlock(host, tail), standard, Zeros(56) + length);
      assert message[..done] + standard + (Zeros(56) + length) == message[..done] + (standard + (Zeros(56) + length));
    }
  }

  /** The empty message is one block of zeros on a big-endian host, and one that starts with
      the mark on the other and in the standard. */
  lemma EmptyMessageHasNoMark()
    ensures Absorbed(BigEndian, [], 0) == Zeros(64)
    ensures Absorbed(LittleEndian, [], 0) == [] + Padding(0) == [0x80] + Zeros(63)
  {
    MarkExactly(BigEndian);
    AbsorbedIsPadded(LittleEndian, [], 0);
    NoLength();
  }

  lemma NoLength()
    ensures LengthField(0) == Zeros(8)
  {
    assert 0 * 8 % TWO64 == 0;
    NoBits();
    hide BytesOf64, Word64;
    assert BytesOf64(Word64(0)) == Zeros(8);
  }

  lemma NoBits()
    ensures BytesOf64(Word64(0)) == [0, 0, 0, 0, 0, 0, 0, 0]
  {
  }

  method FinishShort(hash: array<Bitset32>, value: array<Bitset32>, buffer: array<Bitset32>, block: array<Byte>, host: Host,
                     size: nat, length: seq<Byte>, ghost behind: seq<Byte>)
    requires hash.Length == 8 && value.Length == 8 && buffer.Length == 64 && block.Length == 256
    requires hash != value && hash != buffer && value != buffer && block as object != buffer as object
    requires block as object != hash as object && block as object != value as object
    requires size <= 47 && |length| == 8 && |behind| == 64 && block[size..64] == behind[size..]
    modifies hash, value, buffer, block
    ensures var last := ShortBlock(host, old(block[..size]), behind, length);
            StateOf(hash[..]) == Compress(old(StateOf(hash[..])), WordsOf(last))
  {
    hide StateOf, Compress, WordsOf, Zeros, ShortBlock, Mark;
    ghost var before := block[..];
    ZerosLength(4 * (47 - size));
    MemCpy(block, size + 1, Zeros(4 * (47 - size)));
    block[size] := Mark(host);
    MemCpy(block, 56, length);
    ShortBlockMade(host, before, block[..], behind, size, length);
    Absorb(hash, value, buffer, block, host);
  }

  lemma ShortBlockMade(host: Host, before: seq<Byte>, after: seq<Byte>, behind: seq<Byte>, size: nat, length: seq<Byte>)
    requires size <= 47 && |before| == 256 && |length| == 8 && |behind| == 64 && before[size..64] == behind[size..]
    requires var cleared := before[..size + 1] + Zeros(4 * (47 - size)) + before[size + 1 + |Zeros(4 * (47 - size))|..];
             |cleared| == 256 && var marked := cleared[size := Mark(host)]; after == marked[..56] + length + marked[64..]
    ensures after[..64] == ShortBlock(host, before[..size], behind, length)
  {
    hide Mark;
    var end := Cleared(size);
    var made := ShortBlock(host, before[..size], behind, length);
    assert forall p | end <= p < 56 :: before[p] == before[size..64][p - size] == behind[p];
    assert after[..64] == made;
  }

  method FinishLong(hash: array<Bitset32>, value: array<Bitset32>, buffer: array<Bitset32>, block: array<Byte>, host: Host,
                    size: nat, length: seq<Byte>)
    requires hash.Length == 8 && value.Length == 8 && buffer.Length == 64 && block.Length == 256
    requires hash != value && hash != buffer && value != buffer && block as object != buffer as object
    requires block as object != hash as object && block as object != value as object
    requires 55 < size < 64 && |length| == 8
    modifies hash, value, buffer, block
    ensures var first, last := LongBlock(host, old(block[..size])), Zeros(56) + length;
            && |last| == 64
            && StateOf(hash[..]) == Compress(Compress(old(StateOf(hash[..])), WordsOf(first)), WordsOf(last))
  {
    hide StateOf, Compress, WordsOf, Zeros, Mark;
    ghost var tail := block[..size];
    ZerosLength(63 - size);
    block[size] := Mark(host);
    assert block[..size + 1] == tail + [Mark(host)];
    MemCpy(block, size + 1, Zeros(63 - size));
    assert block[..64] == LongBlock(host, tail);
    Absorb(hash, value, buffer, block, host);
    ZerosLength(56);
    MemCpy(block, 0, Zeros(56));
    MemCpy(block, 56, length);
    assert block[..64] == Zeros(56) + length;
    Absorb(hash, value, buffer, block, host);
  }

  method Finish(hash: array<Bitset32>, value: array<Bitset32>, buffer: array<Bitset32>, block: array<Byte>, host: Host,
                size: nat, length: seq<Byte>, ghost message: seq<Byte>, ghost done: nat)
    requires hash.Length == 8 && value.Length == 8 && buffer.Length == 64 && block.Length == 256
    requires hash != value && hash != buffer && value != buffer && block as object != buffer as object
    requires block as object != hash as object && block as object != value as object
    requires size <= 47 || 55 < size < 64
    requires done % 64 == 0 && done + size == |message| && block[..size] == message[done..]
    requires block[size..64] == Behind(message, done)[size..]
    requires length == LengthField(|message|) && |length| == 8 && StateOf(hash[..]) == Hashed(message[..done])
    modifies hash, value, buffer, block
    ensures StateOf(hash[..]) == Hashed(Absorbed(host, message, done))
  {
    hide Hashed, StateOf, Compress, WordsOf, LengthField, Zeros, ShortBlock, LongBlock, Behind, Absorbed;
    AbsorbedParts(host, message, done);
    OneBlockMore(done);
    OneBlockMore(done + 64);
    if size <= 55 {
      FinishShort(hash, value, buffer, block, host, size, length, Behind(message, done));
      HashedWith(message[..done], ShortBlock(host, message[done..], Behind(message, done), length));
    } else {
      FinishLong(hash, value, buffer, block, host, size, length);
      HashedWith(message[..done], LongBlock(host, message[done..]));
      HashedWith(message[..done] + LongBlock(host, message[done..]), Zeros(56) + length);
    }
  }

  /** The hash of what is taken in, which is the digest of the standard whenever the host is
      little-endian and the clearing misses nothing.  For tails of 48 to 55 bytes the clearing
      count is negative, and what the code does is undefined. */
  method Encode(input: InputStream, host: Host) returns (output: seq<Byte>)
    requires var size := |input.unread| - Whole(|input.unread|); size <= 47 || size > 55
    modifies input
    ensures input.unread == []
    ensures var message := old(input.unread);
            && output == BytesOfState(Hashed(Absorbed(host, message, Whole(|message|))))
            && (host.LittleEndian? && NothingMissed(message, Whole(|message|)) ==> output == Digest(message))
  {
    hide Hashed, StateOf, LengthField, Memory64, BigEndianOf64, Word64, Wrapped, Zeros, BytesOfState, Behind, Absorbed, NothingMissed;
    ghost var message := input.unread;
    var hash := Initial(host);
    var value := new Bitset32[8];
    var buffer := new Bitset32[64];
    var block := new Byte[256](_ => 0);
    ZeroMemory(block[..]);
    var size, total, done := FullBlocks(input, hash, value, buffer, block, host);
    WholeIs(|message|, done);
    CountGrows(done, size);
    total := Wrapped(total + size);
    var length := Memory64(host, BigEndianOf64(host, Word64(Wrapped(total * 8))));
    LengthBytes(host, |message|);
    Finish(hash, value, buffer, block, host, size, length, message, done);
    if host.LittleEndian? && NothingMissed(message, done) { AbsorbedDigest(host, message, done); }
    output := Write(hash);
  }

  lemma ZeroMemory(memory: seq<Byte>)
    requires |memory| == 256 && forall i | 0 <= i < 256 :: memory[i] == 0
    ensures memory[..64] == Zeros(64)
  {
  }

  lemma HashedWith(before: seq<Byte>, last: seq<Byte>)
    requires |before| % 64 == 0 && |last| == 64 && |before + last| % 64 == 0
    ensures Hashed(before + last) == Compress(Hashed(before), WordsOf(last))
  {
    hide Compress, WordsOf;
    assert (before + last)[..|before|] == before && (before + last)[|before|..] == last;
  }

  lemma AbsorbedParts(host: Host, message: seq<Byte>, done: nat)
    requires done % 64 == 0 && (done <= |message| <= done + 47 || done + 55 < |message| < done + 64)
    ensures |message[..done]| % 64 == 0
    ensures |message| <= done + 47 ==>
              Absorbed(host, message, done) ==
              message[..done] + ShortBlock(host, message[done..], Behind(message, done), LengthField(|message|))
    ensures |message| > done + 55 ==>
              Absorbed(host, message, done) ==
              message[..done] + LongBlock(host, message[done..]) + (Zeros(56) + LengthField(|message|))
  {
    hide LengthField, ShortBlock, LongBlock, Behind;
  }

  lemma AbsorbedDigest(host: Host, message: seq<Byte>, done: nat)
    requires done % 64 == 0 && (done <= |message| <= done + 47 || done + 55 < |message| < done + 64)
    requires host.LittleEndian? && NothingMissed(message, done)
    ensures BytesOfState(Hashed(Absorbed(host, message, done))) == Digest(message)
  {
    hide Absorbed, NothingMissed, Hashed, BytesOfState, Padding;
    AbsorbedIsPadded(host, message, done);
  }

  /** A word kept as bytes is written as it stands. */
  method Write(hash: array<Bitset32>) returns (output: seq<Byte>)
    requires hash.Length == 8
    ensures output == BytesOfState(StateOf(hash[..]))
  {
    hide Value, BytesOf32;
    forall i | 0 <= i < 8
      ensures BytesOf32(Value(hash[i])) == Memory(hash[i])
    {
      InMemory(hash[i]);
    }
    output := Memory(hash[0]) + Memory(hash[1]) + Memory(hash[2]) + Memory(hash[3])
            + Memory(hash[4]) + Memory(hash[5]) + Memory(hash[6]) + Memory(hash[7]);
  }

  function Memory(b: Bitset32): seq<Byte> { [b.byte0, b.byte1, b.byte2, b.byte3] }

  lemma InMemory(b: Bitset32)
    ensures BytesOf32(Value(b)) == [b.byte0, b.byte1, b.byte2, b.byte3]
  {
    hide BigEndian32;
    Taken(b.byte0, b.byte1, b.byte2, b.byte3);
  }

  lemma TakenBits(b0: Byte, b1: Byte, b2: Byte, b3: Byte)
    ensures ((((b0 as bv32 << 24) | (b1 as bv32 << 16) | (b2 as bv32 << 8) | b3 as bv32) >> 24) & 0xff) as Byte == b0
    ensures ((((b0 as bv32 << 24) | (b1 as bv32 << 16) | (b2 as bv32 << 8) | b3 as bv32) >> 16) & 0xff) as Byte == b1
    ensures ((((b0 as bv32 << 24) | (b1 as bv32 << 16) | (b2 as bv32 << 8) | b3 as bv32) >> 8) & 0xff) as Byte == b2
    ensures (((b0 as bv32 << 24) | (b1 as bv32 << 16) | (b2 as bv32 << 8) | b3 as bv32) & 0xff) as Byte == b3
  {
  }

  lemma Taken(b0: Byte, b1: Byte, b2: Byte, b3: Byte)
    ensures var w := BigEndian32(b0, b1, b2, b3);
            && ((w >> 24) & 0xff) as Byte == b0 && ((w >> 16) & 0xff) as Byte == b1
            && ((w >> 8) & 0xff) as Byte == b2 && (w & 0xff) as Byte == b3
  {
    TakenBits(b0, b1, b2, b3);
  }
}
