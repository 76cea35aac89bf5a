/** SHA-1 as sections 4.1.1, 4.2.1, 5.2.1, 5.3.1 and 6.1.2 of FIPS 180-4 define it. */
module Sha1Spec {
  import opened MessagePadding
  import opened Words

  datatype Regs = Regs(a: bv32, b: bv32, c: bv32, d: bv32, e: bv32)

  const INITIAL := Regs(0x67452301, 0xEFCDAB89, 0x98BADCFE, 0x10325476, 0xC3D2E1F0)

  function Ch(x: bv32, y: bv32, z: bv32): bv32 { (x & y) ^ (!x & z) }
  function Parity(x: bv32, y: bv32, z: bv32): bv32 { x ^ y ^ z }
  function Maj(x: bv32, y: bv32, z: bv32): bv32 { (x & y) ^ (x & z) ^ (y & z) }

  function F(t: nat, x: bv32, y: bv32, z: bv32): bv32 {
    if t < 20 then Ch(x, y, z) else if t < 40 then Parity(x, y, z) else if t < 60 then Maj(x, y, z) else Parity(x, y, z)
  }

  function K(t: nat): bv32 {
    if t < 20 then 0x5a827999 else if t < 40 then 0x6ed9eba1 else if t < 60 then 0x8f1bbcdc else 0xca62c1d6
  }

  function Total(a: bv32, f: bv32, e: bv32, k: bv32, w: bv32): bv32 { a + f + e + k + w }

  function Rotated(w: bv32, bits: nat): bv32
    requires bits < 32
  {
    w.RotateLeft(bits)
  }

  function Expanded(w3: bv32, w8: bv32, w14: bv32, w16: bv32): bv32 { Rotated(w3 ^ w8 ^ w14 ^ w16, 1) }

  /** The message schedule. */
  function W(m: seq<bv32>, t: nat): bv32
    requires |m| == 16
  {
    if t < 16 then m[t]
    else Expanded(W(m, t - 3), W(m, t - 8), W(m, t - 14), W(m, t - 16))
  }

  function Round(r: Regs, t: nat, w: bv32): Regs {
    Regs(Total(Rotated(r.a, 5), F(t, r.b, r.c, r.d), r.e, K(t), w), r.a, Rotated(r.b, 30), r.c, r.d)
  }

  function Rounds(h: Regs, m: seq<bv32>, n: nat): Regs
    requires |m| == 16
  {
    if n == 0 then h else Round(Rounds(h, m, n - 1), n - 1, W(m, n - 1))
  }

  function Plus(x: bv32, y: bv32): bv32 { x + y }

  function Sum(g: Regs, h: Regs): Regs {
    Regs(Plus(g.a, h.a), Plus(g.b, h.b), Plus(g.c, h.c), Plus(g.d, h.d), Plus(g.e, h.e))
  }

  function Compress(h: Regs, m: seq<bv32>): Regs
    requires |m| == 16
  {
    Sum(h, Rounds(h, m, 80))
  }

  /** The blocks hashed one after the other. */
  function Hashed(bytes: seq<Byte>): Regs
    requires |bytes| % 64 == 0
  {
    if bytes == [] then INITIAL else
      var before := |bytes| - 64;
      Compress(Hashed(bytes[..before]), WordsOf(bytes[before..]))
  }

  function BytesOfRegs(r: Regs): seq<Byte> {
    BytesOf32(r.a) + BytesOf32(r.b) + BytesOf32(r.c) + BytesOf32(r.d) + BytesOf32(r.e)
  }

  /** The digest of a message. */
  function Digest(message: seq<Byte>): seq<Byte> {
    PaddedLength(message);
    BytesOfRegs(Hashed(message + Padding(|message|)))
  }

  /** A square root in units of its 30th bit behind the point. */
  ghost predicate SquareRoot(n: nat, r: bv32) {
    var x := r as nat;
    x * x <= n * 0x1000_0000_0000_0000 < (x + 1) * (x + 1)
  }

  /** The constants of the rounds are the square roots of 2, 3, 5 and 10. */
  lemma ConstantsAreRoots(t: nat)
    ensures SquareRoot(if t < 20 then 2 else if t < 40 then 3 else if t < 60 then 5 else 10, K(t))
  {
  }

  /** The initial state counts up and down in half bytes, least significant byte first. */
  lemma InitialCounts()
    ensures Memory32(LittleEndian, INITIAL.a) == [0x01, 0x23, 0x45, 0x67] && Memory32(LittleEndian, INITIAL.b) == [0x89, 0xab, 0xcd, 0xef]
    ensures Memory32(LittleEndian, INITIAL.c) == [0xfe, 0xdc, 0xba, 0x98] && Memory32(LittleEndian, INITIAL.d) == [0x76, 0x54, 0x32, 0x10]
    ensures Memory32(LittleEndian, INITIAL.e) == [0xf0, 0xe1, 0xd2, 0xc3]
  {
  }
}
