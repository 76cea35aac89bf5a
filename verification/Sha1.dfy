/** SHA-1 on a rolling window of sixteen words, with registers that are renamed instead of shifted. */
module Sha1 {
  import opened Common
  import opened Words
  import opened InputStreams
  import opened MessagePadding
  import opened Sha1Spec

  function Rol(value: bv32, bits: nat): bv32
    requires 0 < bits < 32
  {
    (value << bits) | (value >> (32 - bits))
  }

  function Mixed(w13: bv32, w8: bv32, w2: bv32, w0: bv32): bv32 { Rol(w13 ^ w8 ^ w2 ^ w0, 1) }

  function Blk(block: seq<bv32>, i: nat): bv32
    requires |block| == 16 && i < 16
  {
    Mixed(block[(i + 13) % 16], block[(i + 8) % 16], block[(i + 2) % 16], block[i])
  }

  // what the rounds make of three registers
  function Choice(w: bv32, x: bv32, y: bv32): bv32 { (w & (x ^ y)) ^ y }
  function Majority(w: bv32, x: bv32, y: bv32): bv32 { ((w | x) & y) | (w & x) }

  /** The sum in the order of the code. */
  function Added(z: bv32, f: bv32, w: bv32, k: bv32, v: bv32): bv32 { z + f + w + k + v }

  lemma RolIsRotate(w: bv32)
    ensures Rol(w, 1) == Rotated(w, 1) && Rol(w, 5) == Rotated(w, 5) && Rol(w, 30) == Rotated(w, 30)
  {
  }

  lemma MixedIsExpanded(w13: bv32, w8: bv32, w2: bv32, w0: bv32)
    ensures Mixed(w13, w8, w2, w0) == Expanded(w13, w8, w2, w0)
  {
    hide Rol, Rotated;
    RolIsRotate(w13 ^ w8 ^ w2 ^ w0);
  }

  lemma ChoiceBits(x: bv32, y: bv32, z: bv32)
    ensures (x & (y ^ z)) ^ z == (x & y) ^ (!x & z)
  {
  }

  lemma MajorityBits(x: bv32, y: bv32, z: bv32)
    ensures ((x | y) & z) | (x & y) == (x & y) ^ (x & z) ^ (y & z)
  {
  }

  lemma ChoiceIsCh(x: bv32, y: bv32, z: bv32)
    ensures Choice(x, y, z) == Ch(x, y, z)
  {
    ChoiceBits(x, y, z);
  }

  lemma MajorityIsMaj(x: bv32, y: bv32, z: bv32)
    ensures Majority(x, y, z) == Maj(x, y, z)
  {
    MajorityBits(x, y, z);
  }

  /** The expressions of the code for the functions of the standard. */
  lemma FunctionsAgree(t: nat, w: bv32, x: bv32, y: bv32)
    ensures t < 20 ==> Choice(w, x, y) == F(t, w, x, y)
    ensures 20 <= t < 40 || 60 <= t ==> Parity(w, x, y) == F(t, w, x, y)
    ensures 40 <= t < 60 ==> Majority(w, x, y) == F(t, w, x, y)
  {
    hide Choice, Ch, Majority, Maj, Parity;
    ChoiceIsCh(w, x, y);
    MajorityIsMaj(w, x, y);
  }

  lemma AddedIsTotal(z: bv32, f: bv32, w: bv32, k: bv32, v: bv32)
    ensures Added(z, f, w, k, v) == Total(v, f, z, k, w)
  {
  }

  /** The window when `t` rounds are done: the last sixteen words of the schedule that have
      been made, each at its index modulo sixteen. */
  ghost predicate Window(block: seq<bv32>, m: seq<bv32>, t: nat) {
    && |m| == 16 && |block| == 16
    && forall j: nat | (if t < 16 then 0 else t - 16) <= j < (if t < 16 then 16 else t) :: block[j % 16] == W(m, j)
  }

  lemma Indices(t: nat)
    requires t >= 16
    ensures (t % 16 + 13) % 16 == (t - 3) % 16 && (t % 16 + 8) % 16 == (t - 8) % 16
    ensures (t % 16 + 2) % 16 == (t - 14) % 16 && t % 16 == (t - 16) % 16
    ensures forall j | t - 16 < j < t :: j % 16 != t % 16
  {
    var q, r := t / 16, t % 16;
    assert t == 16 * q + r;
  }

  lemma WindowMoves(block: seq<bv32>, m: seq<bv32>, t: nat)
    requires Window(block, m, t) && t >= 16
    ensures Window(block[t % 16 := W(m, t)], m, t + 1)
  {
    hide W;
    Indices(t);
    var block' := block[t % 16 := W(m, t)];
    forall j: nat | t + 1 - 16 <= j < t + 1
      ensures block'[j % 16] == W(m, j)
    {
      if j < t {
        assert block[j % 16] == W(m, j);
      }
    }
  }

  lemma WindowWords(block: seq<bv32>, m: seq<bv32>, t: nat)
    requires Window(block, m, t) && t >= 16
    ensures |m| == 16 && |block| == 16 && 0 <= t % 16 < 16
    ensures block[(t % 16 + 13) % 16] == W(m, t - 3) && block[(t % 16 + 8) % 16] == W(m, t - 8)
    ensures block[(t % 16 + 2) % 16] == W(m, t - 14) && block[t % 16] == W(m, t - 16)
  {
    hide W;
    Indices(t);
    assert block[(t - 3) % 16] == W(m, t - 3);
    assert block[(t - 8) % 16] == W(m, t - 8);
    assert block[(t - 14) % 16] == W(m, t - 14);
    assert block[(t - 16) % 16] == W(m, t - 16);
  }

  lemma BlkMixes(block: seq<bv32>, i: nat, a: bv32, b: bv32, c: bv32, d: bv32)
    requires |block| == 16 && i < 16
    requires block[(i + 13) % 16] == a && block[(i + 8) % 16] == b && block[(i + 2) % 16] == c && block[i] == d
    ensures Blk(block, i) == Mixed(a, b, c, d)
  {
    hide Mixed;
  }

  /** One step in place on the window makes the next word of the schedule. */
  lemma BlkIsNextWord(block: seq<bv32>, m: seq<bv32>, t: nat)
    requires Window(block, m, t) && t >= 16
    ensures Blk(block, t % 16) == W(m, t)
    ensures Window(block[t % 16 := W(m, t)], m, t + 1)
  {
    hide Mixed, Expanded, W, Window, Blk;
    WindowMoves(block, m, t);
    WindowWords(block, m, t);
    BlkMixes(block, t % 16, W(m, t - 3), W(m, t - 8), W(m, t - 14), W(m, t - 16));
    MixedIsExpanded(W(m, t - 3), W(m, t - 8), W(m, t - 14), W(m, t - 16));
    ScheduleStep(m, t);
  }

  lemma ScheduleStep(m: seq<bv32>, t: nat)
    requires |m| == 16 && t >= 16
    ensures W(m, t) == Expanded(W(m, t - 3), W(m, t - 8), W(m, t - 14), W(m, t - 16))
  {
  }

  /** After `t` rounds the registers, by their present names, are those of the standard. */
  ghost predicate At(h0: Regs, m: seq<bv32>, t: nat, a: bv32, b: bv32, c: bv32, d: bv32, e: bv32) {
    |m| == 16 && Rounds(h0, m, t) == Regs(a, b, c, d, e)
  }

  lemma RoundDone(h0: Regs, m: seq<bv32>, t: nat, v: bv32, w: bv32, x: bv32, y: bv32, z: bv32, f: bv32, word: bv32, k: bv32)
    requires At(h0, m, t, v, w, x, y, z) && f == F(t, w, x, y) && word == W(m, t) && k == K(t)
    ensures At(h0, m, t + 1, Added(z, f, word, k, Rol(v, 5)), v, Rol(w, 30), x, y)
  {
    hide F, K, W, Added, Total, Rol, Rotated;
    RolIsRotate(v);
    RolIsRotate(w);
    AddedIsTotal(z, f, word, k, Rotated(v, 5));
  }

  lemma WindowLength(block: seq<bv32>, m: seq<bv32>, t: nat)
    requires Window(block, m, t)
    ensures |block| == 16 && |m| == 16
  {
  }

  /** In the first sixteen rounds the window is the block itself. */
  lemma WindowFirst(block: seq<bv32>, m: seq<bv32>, t: nat)
    requires Window(block, m, t) && t < 16
    ensures block[t] == W(m, t) && Window(block, m, t + 1)
  {
    assert block[t % 16] == W(m, t);
  }

  /** One of the first sixteen rounds: its word is still in the block. */
  method R0(block: array<bv32>, v: bv32, w: bv32, x: bv32, y: bv32, z: bv32, i: nat,
            ghost h0: Regs, ghost m: seq<bv32>, ghost t: nat)
    returns (w': bv32, z': bv32)
    requires Window(block[..], m, t) && At(h0, m, t, v, w, x, y, z) && i == t < 16
    ensures Window(block[..], m, t + 1) && At(h0, m, t + 1, z', v, w', x, y)
  {
    hide Window, At, W, F, Rol, Choice, Parity, Majority, Added, Blk;
    WindowLength(block[..], m, t);
    WindowFirst(block[..], m, t);
    FunctionsAgree(t, w, x, y);
    z' := Added(z, Choice(w, x, y), block[i], 0x5a827999, Rol(v, 5));
    w' := Rol(w, 30);
    RoundDone(h0, m, t, v, w, x, y, z, Choice(w, x, y), block[i], 0x5a827999);
  }

  /** One of the four after that, with the same function: first the next word is made in place. */
  method R1(block: array<bv32>, v: bv32, w: bv32, x: bv32, y: bv32, z: bv32, i: nat,
            ghost h0: Regs, ghost m: seq<bv32>, ghost t: nat)
    returns (w': bv32, z': bv32)
    requires Window(block[..], m, t) && At(h0, m, t, v, w, x, y, z) && i == t % 16 && 16 <= t < 20
    modifies block
    ensures Window(block[..], m, t + 1) && At(h0, m, t + 1, z', v, w', x, y)
  {
    hide Window, At, W, F, Rol, Choice, Parity, Majority, Added, Blk;
    WindowLength(block[..], m, t);
    BlkIsNextWord(block[..], m, t);
    block[i] := Blk(block[..], i);
    FunctionsAgree(t, w, x, y);
    z' := Added(z, Choice(w, x, y), block[i], 0x5a827999, Rol(v, 5));
    w' := Rol(w, 30);
    RoundDone(h0, m, t, v, w, x, y, z, Choice(w, x, y), block[i], 0x5a827999);
  }

  /** A round with the parity of three registers. */
  method R2(block: array<bv32>, v: bv32, w: bv32, x: bv32, y: bv32, z: bv32, i: nat,
            ghost h0: Regs, ghost m: seq<bv32>, ghost t: nat)
    returns (w': bv32, z': bv32)
    requires Window(block[..], m, t) && At(h0, m, t, v, w, x, y, z) && i == t % 16 && 20 <= t < 40
    modifies block
    ensures Window(block[..], m, t + 1) && At(h0, m, t + 1, z', v, w', x, y)
  {
    hide Window, At, W, F, Rol, Choice, Parity, Majority, Added, Blk;
    WindowLength(block[..], m, t);
    BlkIsNextWord(block[..], m, t);
    block[i] := Blk(block[..], i);
    FunctionsAgree(t, w, x, y);
    z' := Added(z, Parity(w, x, y), block[i], 0x6ed9eba1, Rol(v, 5));
    w' := Rol(w, 30);
    RoundDone(h0, m, t, v, w, x, y, z, Parity(w, x, y), block[i], 0x6ed9eba1);
  }

  /** A round with their majority. */
  method R3(block: array<bv32>, v: bv32, w: bv32, x: bv32, y: bv32, z: bv32, i: nat,
            ghost h0: Regs, ghost m: seq<bv32>, ghost t: nat)
    returns (w': bv32, z': bv32)
    requires Window(block[..], m, t) && At(h0, m, t, v, w, x, y, z) && i == t % 16 && 40 <= t < 60
    modifies block
    ensures Window(block[..], m, t + 1) && At(h0, m, t + 1, z', v, w', x, y)
  {
    hide Window, At, W, F, Rol, Choice, Parity, Majority, Added, Blk;
    WindowLength(block[..], m, t);
    BlkIsNextWord(block[..], m, t);
    block[i] := Blk(block[..], i);
    FunctionsAgree(t, w, x, y);
    z' := Added(z, Majority(w, x, y), block[i], 0x8f1bbcdc, Rol(v, 5));
    w' := Rol(w, 30);
    RoundDone(h0, m, t, v, w, x, y, z, Majority(w, x, y), block[i], 0x8f1bbcdc);
  }

  /** Parity again, with the last constant. */
  method R4(block: array<bv32>, v: bv32, w: bv32, x: bv32, y: bv32, z: bv32, i: nat,
            ghost h0: Regs, ghost m: seq<bv32>, ghost t: nat)
    returns (w': bv32, z': bv32)
    requires Window(block[..], m, t) && At(h0, m, t, v, w, x, y, z) && i == t % 16 && 60 <= t < 80
    modifies block
    ensures Window(block[..], m, t + 1) && At(h0, m, t + 1, z', v, w', x, y)
  {
    hide Window, At, W, F, Rol, Choice, Parity, Majority, Added, Blk;
    WindowLength(block[..], m, t);
    BlkIsNextWord(block[..], m, t);
    block[i] := Blk(block[..], i);
    FunctionsAgree(t, w, x, y);
    z' := Added(z, Parity(w, x, y), block[i], 0xca62c1d6, Rol(v, 5));
    w' := Rol(w, 30);
    RoundDone(h0, m, t, v, w, x, y, z, Parity(w, x, y), block[i], 0xca62c1d6);
  }

  // the eighty calls of the source, twenty at a time: the registers change names, not places

  method FirstTwenty(block: array<bv32>, a0: bv32, b0: bv32, c0: bv32, d0: bv32, e0: bv32, ghost h0: Regs, ghost m: seq<bv32>)
    returns (a: bv32, b: bv32, c: bv32, d: bv32, e: bv32)
    requires Window(block[..], m, 0) && At(h0, m, 0, a0, b0, c0, d0, e0)
    modifies block
    ensures Window(block[..], m, 20) && At(h0, m, 20, a, b, c, d, e)
  {
    hide Window, At;
    a, b, c, d, e := a0, b0, c0, d0, e0;
    b, e := R0(block, a, b, c, d, e, 0, h0, m, 0);
    a, d := R0(block, e, a, b, c, d, 1, h0, m, 1);
    e, c := R0(block, d, e, a, b, c, 2, h0, m, 2);
    d, b := R0(block, c, d, e, a, b, 3, h0, m, 3);
    c, a := R0(block, b, c, d, e, a, 4, h0, m, 4);
    b, e := R0(block, a, b, c, d, e, 5, h0, m, 5);
    a, d := R0(block, e, a, b, c, d, 6, h0, m, 6);
    e, c := R0(block, d, e, a, b, c, 7, h0, m, 7);
    d, b := R0(block, c, d, e, a, b, 8, h0, m, 8);
    c, a := R0(block, b, c, d, e, a, 9, h0, m, 9);
    b, e := R0(block, a, b, c, d, e, 10, h0, m, 10);
    a, d := R0(block, e, a, b, c, d, 11, h0, m, 11);
    e, c := R0(block, d, e, a, b, c, 12, h0, m, 12);
    d, b := R0(block, c, d, e, a, b, 13, h0, m, 13);
    c, a := R0(block, b, c, d, e, a, 14, h0, m, 14);
    b, e := R0(block, a, b, c, d, e, 15, h0, m, 15);
    a, d := R1(block, e, a, b, c, d, 0, h0, m, 16);
    e, c := R1(block, d, e, a, b, c, 1, h0, m, 17);
    d, b := R1(block, c, d, e, a, b, 2, h0, m, 18);
    c, a := R1(block, b, c, d, e, a, 3, h0, m, 19);
  }

  method SecondTwenty(block: array<bv32>, a0: bv32, b0: bv32, c0: bv32, d0: bv32, e0: bv32, ghost h0: Regs, ghost m: seq<bv32>)
    returns (a: bv32, b: bv32, c: bv32, d: bv32, e: bv32)
    requires Window(block[..], m, 20) && At(h0, m, 20, a0, b0, c0, d0, e0)
    modifies block
    ensures Window(block[..], m, 40) && At(h0, m, 40, a, b, c, d, e)
  {
    hide Window, At;
    a, b, c, d, e := a0, b0, c0, d0, e0;
    b, e := R2(block, a, b, c, d, e, 4, h0, m, 20);
    a, d := R2(block, e, a, b, c, d, 5, h0, m, 21);
    e, c := R2(block, d, e, a, b, c, 6, h0, m, 22);
    d, b := R2(block, c, d, e, a, b, 7, h0, m, 23);
    c, a := R2(block, b, c, d, e, a, 8, h0, m, 24);
    b, e := R2(block, a, b, c, d, e, 9, h0, m, 25);
    a, d := R2(block, e, a, b, c, d, 10, h0, m, 26);
    e, c := R2(block, d, e, a, b, c, 11, h0, m, 27);
    d, b := R2(block, c, d, e, a, b, 12, h0, m, 28);
    c, a := R2(block, b, c, d, e, a, 13, h0, m, 29);
    b, e := R2(block, a, b, c, d, e, 14, h0, m, 30);
    a, d := R2(block, e, a, b, c, d, 15, h0, m, 31);
    e, c := R2(block, d, e, a, b, c, 0, h0, m, 32);
    d, b := R2(block, c, d, e, a, b, 1, h0, m, 33);
    c, a := R2(block, b, c, d, e, a, 2, h0, m, 34);
    b, e := R2(block, a, b, c, d, e, 3, h0, m, 35);
    a, d := R2(block, e, a, b, c, d, 4, h0, m, 36);
    e, c := R2(block, d, e, a, b, c, 5, h0, m, 37);
    d, b := R2(block, c, d, e, a, b, 6, h0, m, 38);
    c, a := R2(block, b, c, d, e, a, 7, h0, m, 39);
  }

  method ThirdTwenty(block: array<bv32>, a0: bv32, b0: bv32, c0: bv32, d0: bv32, e0: bv32, ghost h0: Regs, ghost m: seq<bv32>)
    returns (a: bv32, b: bv32, c: bv32, d: bv32, e: bv32)
    requires Window(block[..], m, 40) && At(h0, m, 40, a0, b0, c0, d0, e0)
    modifies block
    ensures Window(block[..], m, 60) && At(h0, m, 60, a, b, c, d, e)
  {
    hide Window, At;
    a, b, c, d, e := a0, b0, c0, d0, e0;
    b, e := R3(block, a, b, c, d, e, 8, h0, m, 40);
    a, d := R3(block, e, a, b, c, d, 9, h0, m, 41);
    e, c := R3(block, d, e, a, b, c, 10, h0, m, 42);
    d, b := R3(block, c, d, e, a, b, 11, h0, m, 43);
    c, a := R3(block, b, c, d, e, a, 12, h0, m, 44);
    b, e := R3(block, a, b, c, d, e, 13, h0, m, 45);
    a, d := R3(block, e, a, b, c, d, 14, h0, m, 46);
    e, c := R3(block, d, e, a, b, c, 15, h0, m, 47);
    d, b := R3(block, c, d, e, a, b, 0, h0, m, 48);
    c, a := R3(block, b, c, d, e, a, 1, h0, m, 49);
    b, e := R3(block, a, b, c, d, e, 2, h0, m, 50);
    a, d := R3(block, e, a, b, c, d, 3, h0, m, 51);
    e, c := R3(block, d, e, a, b, c, 4, h0, m, 52);
    d, b := R3(block, c, d, e, a, b, 5, h0, m, 53);
    c, a := R3(block, b, c, d, e, a, 6, h0, m, 54);
    b, e := R3(block, a, b, c, d, e, 7, h0, m, 55);
    a, d := R3(block, e, a, b, c, d, 8, h0, m, 56);
    e, c := R3(block, d, e, a, b, c, 9, h0, m, 57);
    d, b := R3(block, c, d, e, a, b, 10, h0, m, 58);
    c, a := R3(block, b, c, d, e, a, 11, h0, m, 59);
  }

  method FourthTwenty(block: array<bv32>, a0: bv32, b0: bv32, c0: bv32, d0: bv32, e0: bv32, ghost h0: Regs, ghost m: seq<bv32>)
    returns (a: bv32, b: bv32, c: bv32, d: bv32, e: bv32)
    requires Window(block[..], m, 60) && At(h0, m, 60, a0, b0, c0, d0, e0)
    modifies block
    ensures Window(block[..], m, 80) && At(h0, m, 80, a, b, c, d, e)
  {
    hide Window, At;
    a, b, c, d, e := a0, b0, c0, d0, e0;
    b, e := R4(block, a, b, c, d, e, 12, h0, m, 60);
    a, d := R4(block, e, a, b, c, d, 13, h0, m, 61);
    e, c := R4(block, d, e, a, b, c, 14, h0, m, 62);
    d, b := R4(block, c, d, e, a, b, 15, h0, m, 63);
    c, a := R4(block, b, c, d, e, a, 0, h0, m, 64);
    b, e := R4(block, a, b, c, d, e, 1, h0, m, 65);
    a, d := R4(block, e, a, b, c, d, 2, h0, m, 66);
    e, c := R4(block, d, e, a, b, c, 3, h0, m, 67);
    d, b := R4(block, c, d, e, a, b, 4, h0, m, 68);
    c, a := R4(block, b, c, d, e, a, 5, h0, m, 69);
    b, e := R4(block, a, b, c, d, e, 6, h0, m, 70);
    a, d := R4(block, e, a, b, c, d, 7, h0, m, 71);
    e, c := R4(block, d, e, a, b, c, 8, h0, m, 72);
    d, b := R4(block, c, d, e, a, b, 9, h0, m, 73);
    c, a := R4(block, b, c, d, e, a, 10, h0, m, 74);
    b, e := R4(block, a, b, c, d, e, 11, h0, m, 75);
    a, d := R4(block, e, a, b, c, d, 12, h0, m, 76);
    e, c := R4(block, d, e, a, b, c, 13, h0, m, 77);
    d, b := R4(block, c, d, e, a, b, 14, h0, m, 78);
    c, a := R4(block, b, c, d, e, a, 15, h0, m, 79);
  }

  ghost function RegsOf(h: seq<bv32>): Regs
    requires |h| == 5
  {
    Regs(h[0], h[1], h[2], h[3], h[4])
  }

  /** One block, in place: the sixteen words of `block` are overwritten by the schedule. */
  method Transform(h: array<bv32>, block: array<bv32>)
    requires h.Length == 5 && block.Length == 16 && h != block
    modifies h, block
    ensures RegsOf(h[..]) == Compress(old(RegsOf(h[..])), old(block[..]))
  {
    hide Window, At, RegsOf, Sum;
    ghost var h0, m := RegsOf(h[..]), block[..];
    var a, b, c, d, e := h[0], h[1], h[2], h[3], h[4];
    Named(h[..]);
    Begins(h0, m);
    a, b, c, d, e := FirstTwenty(block, a, b, c, d, e, h0, m);
    a, b, c, d, e := SecondTwenty(block, a, b, c, d, e, h0, m);
    a, b, c, d, e := ThirdTwenty(block, a, b, c, d, e, h0, m);
    a, b, c, d, e := FourthTwenty(block, a, b, c, d, e, h0, m);
    Ends(h0, m, Regs(a, b, c, d, e));
    AddBack(h, a, b, c, d, e);
  }

  function AddTo(x: bv32, y: bv32): bv32 { x + y }

  lemma AddToIsPlus(x: bv32, y: bv32)
    ensures AddTo(x, y) == Plus(x, y)
  {
  }

  method AddBack(h: array<bv32>, a: bv32, b: bv32, c: bv32, d: bv32, e: bv32)
    requires h.Length == 5
    modifies h
    ensures RegsOf(h[..]) == Sum(old(RegsOf(h[..])), Regs(a, b, c, d, e))
  {
    hide Plus, AddTo;
    AddToIsPlus(h[0], a);
    AddToIsPlus(h[1], b);
    AddToIsPlus(h[2], c);
    AddToIsPlus(h[3], d);
    AddToIsPlus(h[4], e);
    h[0] := AddTo(h[0], a);
    h[1] := AddTo(h[1], b);
    h[2] := AddTo(h[2], c);
    h[3] := AddTo(h[3], d);
    h[4] := AddTo(h[4], e);
  }

  lemma Named(h: seq<bv32>)
    requires |h| == 5
    ensures RegsOf(h) == Regs(h[0], h[1], h[2], h[3], h[4])
  {
  }

  lemma Begins(h0: Regs, m: seq<bv32>)
    requires |m| == 16
    ensures Window(m, m, 0) && At(h0, m, 0, h0.a, h0.b, h0.c, h0.d, h0.e)
  {
  }

  lemma Ends(h0: Regs, m: seq<bv32>, r: Regs)
    requires At(h0, m, 80, r.a, r.b, r.c, r.d, r.e)
    ensures |m| == 16 && Compress(h0, m) == Sum(h0, r)
  {
  }

  function LoadWord(b0: Byte, b1: Byte, b2: Byte, b3: Byte): bv32 {
    b3 as bv32 | (b2 as bv32 << 8) | (b1 as bv32 << 16) | (b0 as bv32 << 24)
  }

  lemma LoadIsBigEndian(b0: Byte, b1: Byte, b2: Byte, b3: Byte)
    ensures LoadWord(b0, b1, b2, b3) == BigEndian32(b0, b1, b2, b3)
  {
  }

  method BufferToBlock(buffer: array<Byte>, block: array<bv32>)
    requires buffer.Length == 64 && block.Length == 16
    modifies block
    ensures block[..] == WordsOf(buffer[..])
  {
    hide WordsOf, LoadWord, BigEndian32;
    for i := 0 to 16
      invariant block[..i] == WordsOf(buffer[..])[..i]
    {
      LoadIsBigEndian(buffer[4 * i], buffer[4 * i + 1], buffer[4 * i + 2], buffer[4 * i + 3]);
      WordsOfAt(buffer[..], i);
      block[i] := LoadWord(buffer[4 * i], buffer[4 * i + 1], buffer[4 * i + 2], buffer[4 * i + 3]);
    }
  }

  /** One padded or full block in the buffer goes into the state. */
  method Absorb(h: array<bv32>, buffer: array<Byte>, block: array<bv32>, ghost before: seq<Byte>)
    requires h.Length == 5 && buffer.Length == 64 && block.Length == 16 && h != block
    requires |before| % 64 == 0 && RegsOf(h[..]) == Hashed(before)
    modifies h, block
    ensures |before + buffer[..]| % 64 == 0 && RegsOf(h[..]) == Hashed(before + buffer[..])
  {
    hide Compress, Hashed, WordsOf, RegsOf;
    BufferToBlock(buffer, block);
    HashedOneMore(before, buffer[..]);
    Transform(h, block);
  }

  lemma HashedOneMore(before: seq<Byte>, last: seq<Byte>)
    requires |before| % 64 == 0 && |last| == 64
    ensures |before + last| % 64 == 0
    ensures Hashed(before + last) == Compress(Hashed(before), WordsOf(last))
  {
    hide Compress, WordsOf;
    var all := before + last;
    assert all[..|all| - 64] == before && all[|all| - 64..] == last;
  }

  /** The last block of a message whose tail leaves room for the length. */
  method FinishShort(h: array<bv32>, buffer: array<Byte>, block: array<bv32>, size: nat, length: seq<Byte>, ghost before: seq<Byte>)
    requires h.Length == 5 && buffer.Length == 64 && block.Length == 16 && h != block
    requires size <= 55 && |length| == 8
    requires |before| % 64 == 0 && RegsOf(h[..]) == Hashed(before)
    modifies h, buffer, block
    ensures var all := before + (old(buffer[..size]) + [0x80] + Zeros(55 - size) + length);
            |all| % 64 == 0 && RegsOf(h[..]) == Hashed(all)
  {
    hide Hashed, Zeros, RegsOf;
    ghost var tail := buffer[..size];
    Pad(buffer, size, 55 - size);
    MemCpy(buffer, 56, length);
    assert buffer[..] == tail + [0x80] + Zeros(55 - size) + length;
    Absorb(h, buffer, block, before);
  }

  /** The last two blocks of one whose tail does not. */
  method FinishLong(h: array<bv32>, buffer: array<Byte>, block: array<bv32>, size: nat, length: seq<Byte>, ghost before: seq<Byte>)
    requires h.Length == 5 && buffer.Length == 64 && block.Length == 16 && h != block
    requires 55 < size < 64 && |length| == 8
    requires |before| % 64 == 0 && RegsOf(h[..]) == Hashed(before)
    modifies h, buffer, block
    ensures var all := before + (old(buffer[..size]) + [0x80] + Zeros(63 - size)) + (Zeros(56) + length);
            |all| % 64 == 0 && RegsOf(h[..]) == Hashed(all)
  {
    hide Hashed, Zeros, RegsOf;
    ghost var tail := buffer[..size];
    Pad(buffer, size, 63 - size);
    assert buffer[..] == tail + [0x80] + Zeros(63 - size);
    Absorb(h, buffer, block, before);
    ZerosLength(56);
    MemCpy(buffer, 0, Zeros(56));
    MemCpy(buffer, 56, length);
    assert buffer[..] == Zeros(56) + length;
    Absorb(h, buffer, block, before + (tail + [0x80] + Zeros(63 - size)));
  }

  /** Takes in whole blocks until a read comes up short. */
  method FullBlocks(input: InputStream, h: array<bv32>, buffer: array<Byte>, block: array<bv32>)
    returns (size: nat, total: nat, ghost done: nat)
    requires h.Length == 5 && buffer.Length == 64 && block.Length == 16 && h != block
    requires RegsOf(h[..]) == Hashed([])
    modifies input, h, buffer, block
    ensures input.unread == [] && size < 64 && done % 64 == 0 && done + size == |old(input.unread)|
    ensures total == Wrapped(done) && buffer[..size] == old(input.unread)[done..]
    ensures RegsOf(h[..]) == Hashed(old(input.unread)[..done])
  {
    hide Hashed, RegsOf;
    ghost var message := input.unread;
    total, done := 0, 0;
    size := input.Read(buffer, 64);
    assert message[..0] == [];
    while size == 64
      invariant done + size <= |message| && done % 64 == 0 && size <= 64
      invariant input.unread == message[done + size..] && buffer[..size] == message[done..done + size]
      invariant size < 64 ==> input.unread == []
      invariant total == Wrapped(done) && RegsOf(h[..]) == Hashed(message[..done])
      decreases |message| - done
    {
      CountGrows(done, 64);
      total := Wrapped(total + size);
      Slices(message, done, 64);
      OneBlockMore(done);
      assert buffer[..] == buffer[..size];
      Absorb(h, buffer, block, message[..done]);
      done := done + 64;
      size := input.Read(buffer, 64);
      Slices(message, done, size);
    }
  }

  method Finish(h: array<bv32>, buffer: array<Byte>, block: array<bv32>, size: nat, length: seq<Byte>,
                ghost message: seq<Byte>, ghost done: nat)
    requires h.Length == 5 && buffer.Length == 64 && block.Length == 16 && h != block
    requires size < 64 && done + size == |message| && done % 64 == 0 && buffer[..size] == message[done..]
    requires length == LengthField(|message|) && |length| == 8 && RegsOf(h[..]) == Hashed(message[..done])
    modifies h, buffer, block
    ensures |message + Padding(|message|)| % 64 == 0 && RegsOf(h[..]) == Hashed(message + Padding(|message|))
  {
    hide Hashed, Padding, Zeros, RegsOf, LengthField;
    if size > 55 {
      LongTail(message, done);
      FinishLong(h, buffer, block, size, length, message[..done]);
    } else {
      ShortTail(message, done);
      FinishShort(h, buffer, block, size, length, message[..done]);
    }
  }

  /** For every message the digest of the standard, on either kind of host. */
  method Encode(input: InputStream, host: Host) returns (output: seq<Byte>)
    modifies input
    ensures output == Digest(old(input.unread)) && input.unread == []
  {
    hide Hashed, LengthField, Memory64, BigEndianOf64, Digest, Padding, Zeros, RegsOf, BytesOfRegs, Word64, Wrapped;
    ghost var message := input.unread;
    var h := new bv32[5] [0x67452301, 0xEFCDAB89, 0x98BADCFE, 0x10325476, 0xC3D2E1F0];
    var buffer := new Byte[64];
    var block := new bv32[16];
    StateStarts(h[..]);
    var size, total, done := FullBlocks(input, h, buffer, block);
    CountGrows(done, size);
    total := Wrapped(total + size);
    var length := Memory64(host, BigEndianOf64(host, Word64(Wrapped(total * 8))));
    LengthBytes(host, |message|);
    Finish(h, buffer, block, size, length, message, done);
    DigestIs(message);
    output := Write(h, host);
  }

  method Write(h: array<bv32>, host: Host) returns (output: seq<Byte>)
    requires h.Length == 5
    ensures output == BytesOfRegs(RegsOf(h[..]))
  {
    hide BytesOf32, Memory32, BigEndianOf32;
    BigEndianInMemory32(host, h[0]);
    BigEndianInMemory32(host, h[1]);
    BigEndianInMemory32(host, h[2]);
    BigEndianInMemory32(host, h[3]);
    BigEndianInMemory32(host, h[4]);
    output := Memory32(host, BigEndianOf32(host, h[0])) + Memory32(host, BigEndianOf32(host, h[1]))
            + Memory32(host, BigEndianOf32(host, h[2])) + Memory32(host, BigEndianOf32(host, h[3]))
            + Memory32(host, BigEndianOf32(host, h[4]));
  }

  lemma DigestIs(message: seq<Byte>)
    requires |message + Padding(|message|)| % 64 == 0
    ensures Digest(message) == BytesOfRegs(Hashed(message + Padding(|message|)))
  {
  }

  lemma StateStarts(h: seq<bv32>)
    requires h == [0x67452301, 0xEFCDAB89, 0x98BADCFE, 0x10325476, 0xC3D2E1F0]
    ensures RegsOf(h) == Hashed([])
  {
  }
}
