/** Machine words and their bytes, as the two hash functions use them. */
module Words {
  type Byte = bv8

  /** Four bytes as a word, the first one the most significant. */
  function BigEndian32(b0: Byte, b1: Byte, b2: Byte, b3: Byte): bv32 {
    (b0 as bv32 << 24) | (b1 as bv32 << 16) | (b2 as bv32 << 8) | b3 as bv32
  }

  function BytesOf32(w: bv32): seq<Byte> {
    [((w >> 24) & 0xff) as Byte, ((w >> 16) & 0xff) as Byte, ((w >> 8) & 0xff) as Byte, (w & 0xff) as Byte]
  }

  function BytesOf64(w: bv64): seq<Byte> {
    [((w >> 56) & 0xff) as Byte, ((w >> 48) & 0xff) as Byte, ((w >> 40) & 0xff) as Byte, ((w >> 32) & 0xff) as Byte,
     ((w >> 24) & 0xff) as Byte, ((w >> 16) & 0xff) as Byte, ((w >> 8) & 0xff) as Byte, (w & 0xff) as Byte]
  }

  /** How the machine lays a word out in memory. */
  datatype Host = LittleEndian | BigEndian

  function Memory32(host: Host, w: bv32): seq<Byte> {
    var b := BytesOf32(w);
    if host.BigEndian? then b else [b[3], b[2], b[1], b[0]]
  }

  function Memory64(host: Host, w: bv64): seq<Byte> {
    var b := BytesOf64(w);
    if host.BigEndian? then b else [b[7], b[6], b[5], b[4], b[3], b[2], b[1], b[0]]
  }

  function ByteSwap32(w: bv32): bv32 {
    ((w & 0x000000FF) << 24) | ((w & 0x0000FF00) << 8) | ((w & 0x00FF0000) >> 8) | ((w & 0xFF000000) >> 24)
  }

  function ByteSwap64(w: bv64): bv64 {
    ((w & 0x00000000000000FF) << 56) | ((w & 0x000000000000FF00) << 40)
    | ((w & 0x0000000000FF0000) << 24) | ((w & 0x00000000FF000000) << 8)
    | ((w & 0x000000FF00000000) >> 8) | ((w & 0x0000FF0000000000) >> 24)
    | ((w & 0x00FF000000000000) >> 40) | ((w & 0xFF00000000000000) >> 56)
  }

  /** To big endian and, being the same swap, from it. */
  function BigEndianOf32(host: Host, w: bv32): bv32 { if host.BigEndian? then w else ByteSwap32(w) }
  function BigEndianOf64(host: Host, w: bv64): bv64 { if host.BigEndian? then w else ByteSwap64(w) }

  function LittleEndianOf32(host: Host, w: bv32): bv32 { if host.LittleEndian? then w else ByteSwap32(w) }

  /** The bytes of words, one by one. */
  lemma BytesInOrder()
    ensures BigEndian32(1, 2, 3, 4) == 0x01020304 && BytesOf32(0x01020304) == [1, 2, 3, 4]
    ensures BytesOf64(0x0102030405060708) == [1, 2, 3, 4, 5, 6, 7, 8]
    ensures Memory32(LittleEndian, 0x01020304) == [4, 3, 2, 1] && Memory32(BigEndian, 0x01020304) == [1, 2, 3, 4]
    ensures Memory64(LittleEndian, 0x0102030405060708) == [8, 7, 6, 5, 4, 3, 2, 1]
    ensures Memory64(BigEndian, 0x0102030405060708) == [1, 2, 3, 4, 5, 6, 7, 8]
  {
  }

  /** Either way a word ends up in memory with its most significant byte first. */
  lemma BigEndianInMemory32(host: Host, w: bv32)
    ensures Memory32(host, BigEndianOf32(host, w)) == BytesOf32(w)
  {
    hide ByteSwap32;
    SwapBits32(w);
  }

  lemma SwapBits32(w: bv32)
    ensures (ByteSwap32(w) >> 24) & 0xff == w & 0xff && (ByteSwap32(w) >> 16) & 0xff == (w >> 8) & 0xff
    ensures (ByteSwap32(w) >> 8) & 0xff == (w >> 16) & 0xff && ByteSwap32(w) & 0xff == (w >> 24) & 0xff
  {
  }

  lemma BigEndianInMemory64(host: Host, w: bv64)
    ensures Memory64(host, BigEndianOf64(host, w)) == BytesOf64(w)
  {
    hide ByteSwap64;
    SwapBits64(w);
  }

  lemma SwapBits64(w: bv64)
    ensures (ByteSwap64(w) >> 56) & 0xff == w & 0xff && (ByteSwap64(w) >> 48) & 0xff == (w >> 8) & 0xff
    ensures (ByteSwap64(w) >> 40) & 0xff == (w >> 16) & 0xff && (ByteSwap64(w) >> 32) & 0xff == (w >> 24) & 0xff
    ensures (ByteSwap64(w) >> 24) & 0xff == (w >> 32) & 0xff && (ByteSwap64(w) >> 16) & 0xff == (w >> 40) & 0xff
    ensures (ByteSwap64(w) >> 8) & 0xff == (w >> 48) & 0xff && ByteSwap64(w) & 0xff == (w >> 56) & 0xff
  {
  }

  /** The words of a stretch of bytes. */
  function WordsOf(bytes: seq<Byte>): (words: seq<bv32>)
    requires |bytes| % 4 == 0
    ensures |words| == |bytes| / 4
  {
    if bytes == [] then [] else
      [BigEndian32(bytes[0], bytes[1], bytes[2], bytes[3])] + WordsOf(bytes[4..])
  }

  lemma {:induction false} WordsOfAt(bytes: seq<Byte>, i: nat)
    requires |bytes| % 4 == 0 && i < |bytes| / 4
    ensures WordsOf(bytes)[i] == BigEndian32(bytes[4 * i], bytes[4 * i + 1], bytes[4 * i + 2], bytes[4 * i + 3])
  {
    hide BigEndian32;
    if i > 0 {
      WordsOfAt(bytes[4..], i - 1);
    }
  }
}

/** How both hash functions fill up a message: section 5.1.1 of FIPS 180-4. */
module MessagePadding {
  import opened Words

  const TWO64 := 0x1_0000_0000_0000_0000

  function Zeros(n: nat): seq<Byte> { seq(n, _ => 0) }

  /** The 64-bit field that says how many bits the message has. */
  function LengthField(n: nat): (field: seq<Byte>)
    ensures |field| == 8
  {
    BytesOf64(Word64(n * 8 % TWO64))
  }

  /** A number of at most 64 bits as a machine word. */
  function Word64(n: nat): bv64
    requires n < TWO64
  {
    n as bv64
  }

  /** One bit, as few zero bits as fill a block up to its last 64 bits, and the length. */
  function Padding(n: nat): seq<Byte> { [0x80] + Zeros((55 - n) % 64) + LengthField(n) }

  /** How much of `n` bytes is in whole blocks. */
  ghost function Whole(n: nat): (done: nat)
    ensures done <= n < done + 64 && done % 64 == 0
  {
    n / 64 * 64
  }

  lemma WholeIs(n: nat, done: nat)
    requires done <= n < done + 64 && done % 64 == 0
    ensures done == Whole(n)
  {
  }

  lemma OneBlockMore(done: nat)
    requires done % 64 == 0
    ensures (done + 64) % 64 == 0
  {
  }

  /** A 64-bit counter. */
  function Wrapped(n: nat): (r: nat)
    ensures r < TWO64
  {
    n % TWO64
  }

  lemma CountGrows(done: nat, size: nat)
    ensures Wrapped(Wrapped(done) + size) == Wrapped(done + size)
  {
    var q := done / TWO64;
    assert done + size == Wrapped(done) + size + TWO64 * q;
    MultipleDrops(Wrapped(done) + size, q);
  }

  lemma PaddedLength(message: seq<Byte>)
    ensures |Padding(|message|)| == 9 + (55 - |message|) % 64 && |message + Padding(|message|)| % 64 == 0
  {
    hide BytesOf64;
    Rounded(|message|);
  }

  lemma Rounded(n: nat)
    ensures (n + 9 + (55 - n) % 64) % 64 == 0
  {
  }

  /** A tail that leaves room for the length is padded within its block. */
  lemma ShortTail(message: seq<Byte>, done: nat)
    requires done <= |message| <= done + 55 && done % 64 == 0
    ensures message + Padding(|message|)
         == message[..done] + (message[done..] + [0x80] + Zeros(55 - (|message| - done)) + LengthField(|message|))
  {
    hide LengthField;
    var size := |message| - done;
    assert (55 - |message|) % 64 == 55 - size;
    assert message == message[..done] + message[done..];
  }

  /** A longer one needs a second block. */
  lemma LongTail(message: seq<Byte>, done: nat)
    requires done + 55 < |message| < done + 64 && done % 64 == 0
    ensures message + Padding(|message|)
         == message[..done] + (message[done..] + [0x80] + Zeros(63 - (|message| - done))) + (Zeros(56) + LengthField(|message|))
  {
    hide LengthField;
    var size := |message| - done;
    assert (55 - |message|) % 64 == 119 - size;
    assert Zeros(119 - size) == Zeros(63 - size) + Zeros(56);
    assert message == message[..done] + message[done..];
  }

  lemma ZerosLength(n: nat)
    ensures |Zeros(n)| == n
  {
  }

  lemma Slices(message: seq<Byte>, done: nat, size: nat)
    requires done + size <= |message|
    ensures message[done..][..size] == message[done..done + size] && message[done..][size..] == message[done + size..]
    ensures message[..done] + message[done..done + size] == message[..done + size]
  {
  }

  lemma {:induction false} MultipleDrops(x: nat, k: nat)
    ensures (x + TWO64 * k) % TWO64 == x % TWO64
  {
    if k > 0 {
      MultipleDrops(x, k - 1);
      assert x + TWO64 * k == (x + TWO64 * (k - 1)) + TWO64;
    }
  }

  lemma BitsWrap(n: nat)
    ensures Wrapped(Wrapped(n) * 8) == n * 8 % TWO64
  {
    var q := n / TWO64;
    assert n * 8 == Wrapped(n) * 8 + TWO64 * (q * 8);
    MultipleDrops(Wrapped(n) * 8, q * 8);
  }

  lemma LengthBytes(host: Host, n: nat)
    ensures Memory64(host, BigEndianOf64(host, Word64(Wrapped(Wrapped(n) * 8)))) == LengthField(n) && |LengthField(n)| == 8
  {
    hide Memory64, BigEndianOf64, BytesOf64;
    BitsWrap(n);
    BigEndianInMemory64(host, Word64(Wrapped(Wrapped(n) * 8)));
  }
}

/** What both hash functions read from. */
module InputStreams {
  import opened Common
  import opened MessagePadding
  import opened Words

  /** The bytes not yet read of a stream that comes up short only at its end. */
  class InputStream {
    var unread: seq<Byte>

    method Read(buffer: array<Byte>, n: nat) returns (size: nat)
      requires n <= buffer.Length
      modifies this, buffer
      ensures size == if |old(unread)| < n then |old(unread)| else n
      ensures unread == old(unread)[size..] && buffer[..] == old(unread)[..size] + old(buffer[size..])
    {
      size := if |unread| < n then |unread| else n;
      MemCpy(buffer, 0, unread[..size]);
      unread := unread[size..];
    }
  }

  /** The one bit and zeros behind a tail. */
  method Pad(buffer: array<Byte>, size: nat, zeros: nat)
    requires size + 1 + zeros <= buffer.Length
    modifies buffer
    ensures buffer[..size + 1 + zeros] == old(buffer[..size]) + [0x80] + Zeros(zeros)
  {
    hide Zeros;
    ZerosLength(zeros);
    buffer[size] := 0x80;
    assert buffer[..size + 1] == old(buffer[..size]) + [0x80];
    MemCpy(buffer, size + 1, Zeros(zeros));
  }
}
