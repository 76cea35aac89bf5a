/** SHA-256 as sections 4.1.2, 4.2.2, 5.3.3 and 6.2.2 of FIPS 180-4 define it. */
module Sha256Spec {
  import opened MessagePadding
  import opened Words

  datatype State = State(a: bv32, b: bv32, c: bv32, d: bv32, e: bv32, f: bv32, g: bv32, h: bv32)

  const INITIAL := State(0x6a09e667, 0xbb67ae85, 0x3c6ef372, 0xa54ff53a, 0x510e527f, 0x9b05688c, 0x1f83d9ab, 0x5be0cd19)

  /** The constants of the rounds, four to a row. */
  function Row(r: nat): (bv32, bv32, bv32, bv32)
    requires r < 16
  {
    match r
    case 0 => (0x428a2f98, 0x71374491, 0xb5c0fbcf, 0xe9b5dba5)
    case 1 => (0x3956c25b, 0x59f111f1, 0x923f82a4, 0xab1c5ed5)
    case 2 => (0xd807aa98, 0x12835b01, 0x243185be, 0x550c7dc3)
    case 3 => (0x72be5d74, 0x80deb1fe, 0x9bdc06a7, 0xc19bf174)
    case 4 => (0xe49b69c1, 0xefbe4786, 0x0fc19dc6, 0x240ca1cc)
    case 5 => (0x2de92c6f, 0x4a7484aa, 0x5cb0a9dc, 0x76f988da)
    case 6 => (0x983e5152, 0xa831c66d, 0xb00327c8, 0xbf597fc7)
    case 7 => (0xc6e00bf3, 0xd5a79147, 0x06ca6351, 0x14292967)
    case 8 => (0x27b70a85, 0x2e1b2138, 0x4d2c6dfc, 0x53380d13)
    case 9 => (0x650a7354, 0x766a0abb, 0x81c2c92e, 0x92722c85)
    case 10 => (0xa2bfe8a1, 0xa81a664b, 0xc24b8b70, 0xc76c51a3)
    case 11 => (0xd192e819, 0xd6990624, 0xf40e3585, 0x106aa070)
    case 12 => (0x19a4c116, 0x1e376c08, 0x2748774c, 0x34b0bcb5)
    case 13 => (0x391c0cb3, 0x4ed8aa4a, 0x5b9cca4f, 0x682e6ff3)
    case 14 => (0x748f82ee, 0x78a5636f, 0x84c87814, 0x8cc70208)
    case _ => (0x90befffa, 0xa4506ceb, 0xbef9a3f7, 0xc67178f2)
  }

  function Four(row: (bv32, bv32, bv32, bv32)): (k: seq<bv32>)
    ensures |k| == 4
  {
    [row.0, row.1, row.2, row.3]
  }

  function K(): (k: seq<bv32>)
    ensures |k| == 64
  {
    Four(Row(0)) + Four(Row(1)) + Four(Row(2)) + Four(Row(3)) + Four(Row(4)) + Four(Row(5)) + Four(Row(6)) + Four(Row(7))
    + Four(Row(8)) + Four(Row(9)) + Four(Row(10)) + Four(Row(11)) + Four(Row(12)) + Four(Row(13)) + Four(Row(14)) + Four(Row(15))
  }

  function Ch(x: bv32, y: bv32, z: bv32): bv32 { (x & y) ^ (!x & z) }
  function Maj(x: bv32, y: bv32, z: bv32): bv32 { (x & y) ^ (x & z) ^ (y & z) }
  /** Rotation to the right. */
  function Ror(x: bv32, n: nat): bv32
    requires n < 32
  {
    x.RotateRight(n)
  }

  function Shr(x: bv32, n: nat): bv32
    requires n < 32
  {
    x >> n
  }

  function Xor3(x: bv32, y: bv32, z: bv32): bv32 { x ^ y ^ z }

  function BigSigma0(x: bv32): bv32 { Xor3(Ror(x, 2), Ror(x, 13), Ror(x, 22)) }
  function BigSigma1(x: bv32): bv32 { Xor3(Ror(x, 6), Ror(x, 11), Ror(x, 25)) }
  function Sigma0(x: bv32): bv32 { Xor3(Ror(x, 7), Ror(x, 18), Shr(x, 3)) }
  function Sigma1(x: bv32): bv32 { Xor3(Ror(x, 17), Ror(x, 19), Shr(x, 10)) }

  function Plus(x: bv32, y: bv32): bv32 { x + y }

  function Expanded(w2: bv32, w7: bv32, w15: bv32, w16: bv32): bv32 {
    Plus(Plus(Plus(Sigma1(w2), w7), Sigma0(w15)), w16)
  }

  /** The message schedule. */
  function W(m: seq<bv32>, t: nat): bv32
    requires |m| == 16
  {
    if t < 16 then m[t] else Expanded(W(m, t - 2), W(m, t - 7), W(m, t - 15), W(m, t - 16))
  }

  function T1(s: State, k: bv32, w: bv32): bv32 {
    Plus(Plus(Plus(Plus(s.h, BigSigma1(s.e)), Ch(s.e, s.f, s.g)), k), w)
  }

  function T2(s: State): bv32 { Plus(BigSigma0(s.a), Maj(s.a, s.b, s.c)) }

  function Round(s: State, k: bv32, w: bv32): State {
    State(Plus(T1(s, k, w), T2(s)), s.a, s.b, s.c, Plus(s.d, T1(s, k, w)), s.e, s.f, s.g)
  }

  function Rounds(s: State, m: seq<bv32>, n: nat): State
    requires |m| == 16 && n <= 64
  {
    if n == 0 then s else Round(Rounds(s, m, n - 1), K()[n - 1], W(m, n - 1))
  }

  function Sum(s: State, r: State): State {
    State(Plus(s.a, r.a), Plus(s.b, r.b), Plus(s.c, r.c), Plus(s.d, r.d),
          Plus(s.e, r.e), Plus(s.f, r.f), Plus(s.g, r.g), Plus(s.h, r.h))
  }

  function Compress(s: State, m: seq<bv32>): State
    requires |m| == 16
  {
    Sum(s, Rounds(s, m, 64))
  }

  /** The blocks hashed one after the other. */
  function Hashed(bytes: seq<Byte>): State
    requires |bytes| % 64 == 0
  {
    if bytes == [] then INITIAL else
      var before := |bytes| - 64;
      Compress(Hashed(bytes[..before]), WordsOf(bytes[before..]))
  }

  function BytesOfState(s: State): seq<Byte> {
    BytesOf32(s.a) + BytesOf32(s.b) + BytesOf32(s.c) + BytesOf32(s.d)
    + BytesOf32(s.e) + BytesOf32(s.f) + BytesOf32(s.g) + BytesOf32(s.h)
  }

  /** The digest of a message. */
  function Digest(message: seq<Byte>): seq<Byte> {
    PaddedLength(message);
    BytesOfState(Hashed(message + Padding(|message|)))
  }

  // ------------------------------------------------- where the constants come from

  const ONE: nat := 0x1_0000_0000

  /** A root in units of its 32nd bit behind the point. */
  ghost predicate CubeRoot(p: nat, r: nat) { r * r * r <= p * ONE * ONE * ONE < (r + 1) * (r + 1) * (r + 1) }

  ghost predicate SquareRoot(p: nat, r: nat) { r * r <= p * ONE * ONE < (r + 1) * (r + 1) }

  /** The first 32 bits behind the point. */
  ghost predicate CubeRootPart(p: nat, part: bv32) { exists r: nat :: CubeRoot(p, r) && r % ONE == part as nat }

  ghost predicate SquareRootPart(p: nat, part: bv32) { exists r: nat :: SquareRoot(p, r) && r % ONE == part as nat }

  /** The first 64 prime numbers, four to a row. */
  function Primes(r: nat): (nat, nat, nat, nat)
    requires r < 16
  {
    match r
    case 0 => (2, 3, 5, 7)
    case 1 => (11, 13, 17, 19)
    case 2 => (23, 29, 31, 37)
    case 3 => (41, 43, 47, 53)
    case 4 => (59, 61, 67, 71)
    case 5 => (73, 79, 83, 89)
    case 6 => (97, 101, 103, 107)
    case 7 => (109, 113, 127, 131)
    case 8 => (137, 139, 149, 151)
    case 9 => (157, 163, 167, 173)
    case 10 => (179, 181, 191, 193)
    case 11 => (197, 199, 211, 223)
    case 12 => (227, 229, 233, 239)
    case 13 => (241, 251, 257, 263)
    case 14 => (269, 271, 277, 281)
    case _ => (283, 293, 307, 311)
  }

  ghost predicate RowIsRoots(r: nat)
    requires r < 16
  {
    var p, k := Primes(r), Row(r);
    CubeRootPart(p.0, k.0) && CubeRootPart(p.1, k.1) && CubeRootPart(p.2, k.2) && CubeRootPart(p.3, k.3)
  }

  /** The constants of the rounds are the cube roots of the first 64 primes, as section 4.2.2 says. */
  lemma ConstantsAreRoots()
    ensures forall r | 0 <= r < 16 :: RowIsRoots(r)
  {
    hide RowIsRoots;
    Roots0();
    Roots1();
    Roots2();
    Roots3();
    Roots4();
    Roots5();
    Roots6();
    Roots7();
    Roots8();
    Roots9();
    Roots10();
    Roots11();
    Roots12();
    Roots13();
    Roots14();
    Roots15();
  }

  lemma Roots0()
    ensures RowIsRoots(0)
  {
    IsCubeRoot(2, 0x1_428a2f98, Row(0).0);
    IsCubeRoot(3, 0x1_71374491, Row(0).1);
    IsCubeRoot(5, 0x1_b5c0fbcf, Row(0).2);
    IsCubeRoot(7, 0x1_e9b5dba5, Row(0).3);
  }

  lemma Roots1()
    ensures RowIsRoots(1)
  {
    IsCubeRoot(11, 0x2_3956c25b, Row(1).0);
    IsCubeRoot(13, 0x2_59f111f1, Row(1).1);
    IsCubeRoot(17, 0x2_923f82a4, Row(1).2);
    IsCubeRoot(19, 0x2_ab1c5ed5, Row(1).3);
  }

  lemma Roots2()
    ensures RowIsRoots(2)
  {
    IsCubeRoot(23, 0x2_d807aa98, Row(2).0);
    IsCubeRoot(29, 0x3_12835b01, Row(2).1);
    IsCubeRoot(31, 0x3_243185be, Row(2).2);
    IsCubeRoot(37, 0x3_550c7dc3, Row(2).3);
  }

  lemma Roots3()
    ensures RowIsRoots(3)
  {
    IsCubeRoot(41, 0x3_72be5d74, Row(3).0);
    IsCubeRoot(43, 0x3_80deb1fe, Row(3).1);
    IsCubeRoot(47, 0x3_9bdc06a7, Row(3).2);
    IsCubeRoot(53, 0x3_c19bf174, Row(3).3);
  }

  lemma Roots4()
    ensures RowIsRoots(4)
  {
    IsCubeRoot(59, 0x3_e49b69c1, Row(4).0);
    IsCubeRoot(61, 0x3_efbe4786, Row(4).1);
    IsCubeRoot(67, 0x4_0fc19dc6, Row(4).2);
    IsCubeRoot(71, 0x4_240ca1cc, Row(4).3);
  }

  lemma Roots5()
    ensures RowIsRoots(5)
  {
    IsCubeRoot(73, 0x4_2de92c6f, Row(5).0);
    IsCubeRoot(79, 0x4_4a7484aa, Row(5).1);
    IsCubeRoot(83, 0x4_5cb0a9dc, Row(5).2);
    IsCubeRoot(89, 0x4_76f988da, Row(5).3);
  }

  lemma Roots6()
    ensures RowIsRoots(6)
  {
    IsCubeRoot(97, 0x4_983e5152, Row(6).0);
    IsCubeRoot(101, 0x4_a831c66d, Row(6).1);
    IsCubeRoot(103, 0x4_b00327c8, Row(6).2);
    IsCubeRoot(107, 0x4_bf597fc7, Row(6).3);
  }

  lemma Roots7()
    ensures RowIsRoots(7)
  {
    IsCubeRoot(109, 0x4_c6e00bf3, Row(7).0);
    IsCubeRoot(113, 0x4_d5a79147, Row(7).1);
    IsCubeRoot(127, 0x5_06ca6351, Row(7).2);
    IsCubeRoot(131, 0x5_14292967, Row(7).3);
  }

  lemma Roots8()
    ensures RowIsRoots(8)
  {
    IsCubeRoot(137, 0x5_27b70a85, Row(8).0);
    IsCubeRoot(139, 0x5_2e1b2138, Row(8).1);
    IsCubeRoot(149, 0x5_4d2c6dfc, Row(8).2);
    IsCubeRoot(151, 0x5_53380d13, Row(8).3);
  }

  lemma Roots9()
    ensures RowIsRoots(9)
  {
    IsCubeRoot(157, 0x5_650a7354, Row(9).0);
    IsCubeRoot(163, 0x5_766a0abb, Row(9).1);
    IsCubeRoot(167, 0x5_81c2c92e, Row(9).2);
    IsCubeRoot(173, 0x5_92722c85, Row(9).3);
  }

  lemma Roots10()
    ensures RowIsRoots(10)
  {
    IsCubeRoot(179, 0x5_a2bfe8a1, Row(10).0);
    IsCubeRoot(181, 0x5_a81a664b, Row(10).1);
    IsCubeRoot(191, 0x5_c24b8b70, Row(10).2);
    IsCubeRoot(193, 0x5_c76c51a3, Row(10).3);
  }

  lemma Roots11()
    ensures RowIsRoots(11)
  {
    IsCubeRoot(197, 0x5_d192e819, Row(11).0);
    IsCubeRoot(199, 0x5_d6990624, Row(11).1);
    IsCubeRoot(211, 0x5_f40e3585, Row(11).2);
    IsCubeRoot(223, 0x6_106aa070, Row(11).3);
  }

  lemma Roots12()
    ensures RowIsRoots(12)
  {
    IsCubeRoot(227, 0x6_19a4c116, Row(12).0);
    IsCubeRoot(229, 0x6_1e376c08, Row(12).1);
    IsCubeRoot(233, 0x6_2748774c, Row(12).2);
    IsCubeRoot(239, 0x6_34b0bcb5, Row(12).3);
  }

  lemma Roots13()
    ensures RowIsRoots(13)
  {
    IsCubeRoot(241, 0x6_391c0cb3, Row(13).0);
    IsCubeRoot(251, 0x6_4ed8aa4a, Row(13).1);
    IsCubeRoot(257, 0x6_5b9cca4f, Row(13).2);
    IsCubeRoot(263, 0x6_682e6ff3, Row(13).3);
  }

  lemma Roots14()
    ensures RowIsRoots(14)
  {
    IsCubeRoot(269, 0x6_748f82ee, Row(14).0);
    IsCubeRoot(271, 0x6_78a5636f, Row(14).1);
    IsCubeRoot(277, 0x6_84c87814, Row(14).2);
    IsCubeRoot(281, 0x6_8cc70208, Row(14).3);
  }

  lemma Roots15()
    ensures RowIsRoots(15)
  {
    IsCubeRoot(283, 0x6_90befffa, Row(15).0);
    IsCubeRoot(293, 0x6_a4506ceb, Row(15).1);
    IsCubeRoot(307, 0x6_bef9a3f7, Row(15).2);
    IsCubeRoot(311, 0x6_c67178f2, Row(15).3);
  }

  lemma IsCubeRoot(p: nat, r: nat, part: bv32)
    requires CubeRoot(p, r) && r % ONE == part as nat
    ensures CubeRootPart(p, part)
  {
  }

  /** The initial state is the square roots of the first eight, as section 5.3.3 says. */
  lemma InitialIsRoots()
    ensures SquareRootPart(2, INITIAL.a) && SquareRootPart(3, INITIAL.b) && SquareRootPart(5, INITIAL.c)
    ensures SquareRootPart(7, INITIAL.d) && SquareRootPart(11, INITIAL.e) && SquareRootPart(13, INITIAL.f)
    ensures SquareRootPart(17, INITIAL.g) && SquareRootPart(19, INITIAL.h)
  {
    IsSquareRoot(2, 0x1_6a09e667, INITIAL.a);
    IsSquareRoot(3, 0x1_bb67ae85, INITIAL.b);
    IsSquareRoot(5, 0x2_3c6ef372, INITIAL.c);
    IsSquareRoot(7, 0x2_a54ff53a, INITIAL.d);
    IsSquareRoot(11, 0x3_510e527f, INITIAL.e);
    IsSquareRoot(13, 0x3_9b05688c, INITIAL.f);
    IsSquareRoot(17, 0x4_1f83d9ab, INITIAL.g);
    IsSquareRoot(19, 0x4_5be0cd19, INITIAL.h);
  }

  lemma IsSquareRoot(p: nat, r: nat, part: bv32)
    requires SquareRoot(p, r) && r % ONE == part as nat
    ensures SquareRootPart(p, part)
  {
  }
}
