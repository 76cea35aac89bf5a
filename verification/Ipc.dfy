/** The layout of the messages in the shared area. */
module Frames {
  const WORD := 0x1_0000_0000

  type Byte = x: int | 0 <= x < 256
  type Word = x: int | 0 <= x < WORD

  /** A message: who it is for and what it says; an identifier of zero marks the end. */
  datatype Frame = Frame(id: Word, payload: seq<Byte>)

  ghost predicate Sendable(f: Frame) { f.id != 0 && |f.payload| < WORD }

  ghost predicate AllSendable(frames: seq<Frame>) { forall i | 0 <= i < |frames| :: Sendable(frames[i]) }

  /** The byte order of the machines that share the area. */
  datatype Order = LittleEndian | BigEndian

  function Put(order: Order, w: Word): (b: seq<Byte>)
    ensures |b| == 4
  {
    var b0, b1, b2, b3 := w % 256, w / 256 % 256, w / 256 / 256 % 256, w / 256 / 256 / 256;
    if order.LittleEndian? then [b0, b1, b2, b3] else [b3, b2, b1, b0]
  }

  function Join(b0: int, b1: int, b2: int, b3: int): int { b0 + 256 * b1 + 65536 * b2 + 16777216 * b3 }

  function Get(order: Order, b: seq<Byte>): Word
    requires |b| == 4
  {
    if order.LittleEndian? then Join(b[0], b[1], b[2], b[3]) else Join(b[3], b[2], b[1], b[0])
  }

  /** The bytes in their two orders. */
  lemma PutsInOrder()
    ensures Put(LittleEndian, 0x01020304) == [4, 3, 2, 1] && Put(BigEndian, 0x01020304) == [1, 2, 3, 4]
  {
  }

  lemma GetPut(order: Order, w: Word)
    ensures Get(order, Put(order, w)) == w
  {
  }

  function Bytes(order: Order, f: Frame): (b: seq<Byte>)
    requires |f.payload| < WORD
    ensures |b| == 8 + |f.payload|
  {
    Put(order, f.id) + Put(order, |f.payload|) + f.payload
  }

  function Encode(order: Order, frames: seq<Frame>): seq<Byte>
    requires forall i | 0 <= i < |frames| :: |frames[i].payload| < WORD
  {
    if frames == [] then [] else Encode(order, frames[..|frames| - 1]) + Bytes(order, frames[|frames| - 1])
  }

  const END: seq<Byte> := [0, 0, 0, 0]

  /** The area starts with these frames and the mark of the end. */
  ghost predicate Holds(order: Order, area: seq<Byte>, frames: seq<Frame>) {
    AllSendable(frames) && Encode(order, frames) + END <= area
  }

  function Payloads(frames: seq<Frame>, id: Word): seq<seq<Byte>> {
    if frames == [] then [] else
      var last := frames[|frames| - 1];
      Payloads(frames[..|frames| - 1], id) + if last.id == id then [last.payload] else []
  }

  function Others(frames: seq<Frame>, id: Word): seq<Frame> {
    if frames == [] then [] else
      var last := frames[|frames| - 1];
      Others(frames[..|frames| - 1], id) + if last.id == id then [] else [last]
  }

  lemma {:induction false} OthersSendable(frames: seq<Frame>, id: Word)
    requires AllSendable(frames)
    ensures AllSendable(Others(frames, id))
    ensures forall i | 0 <= i < |Others(frames, id)| :: Others(frames, id)[i].id != id
  {
    if frames != [] {
      OthersSendable(frames[..|frames| - 1], id);
    }
  }

  /** A filter leaves nothing out and makes nothing up: each frame is either read or left. */
  lemma {:induction false} ReadOrLeft(frames: seq<Frame>, id: Word)
    ensures multiset(frames) == multiset(Others(frames, id)) + multiset(Tagged(id, Payloads(frames, id)))
  {
    hide Others, Payloads, Tagged;
    if frames == [] {
      NothingFiltered(id);
    } else {
      var before, last := frames[..|frames| - 1], frames[|frames| - 1];
      ReadOrLeft(before, id);
      assert frames == before + [last];
      LastFiltered(frames, id);
      if last.id == id {
        TaggedGrows(id, Payloads(before, id), last.payload);
      }
    }
  }

  lemma NothingFiltered(id: Word)
    ensures Payloads([], id) == [] && Others([], id) == [] && Tagged(id, []) == []
  {
  }

  lemma LastFiltered(frames: seq<Frame>, id: Word)
    requires frames != []
    ensures var before, last := frames[..|frames| - 1], frames[|frames| - 1];
            && Others(frames, id) == (if last.id == id then Others(before, id) else Others(before, id) + [last])
            && Payloads(frames, id) == (if last.id == id then Payloads(before, id) + [last.payload] else Payloads(before, id))
  {
  }

  lemma TaggedGrows(id: Word, payloads: seq<seq<Byte>>, payload: seq<Byte>)
    ensures Tagged(id, payloads + [payload]) == Tagged(id, payloads) + [Frame(id, payload)]
  {
    assert (payloads + [payload])[..|payloads|] == payloads;
  }

  function Tagged(id: Word, payloads: seq<seq<Byte>>): seq<Frame> {
    if payloads == [] then [] else
      Tagged(id, payloads[..|payloads| - 1]) + [Frame(id, payloads[|payloads| - 1])]
  }

  /** Where frame `k` starts. */
  ghost function Offset(order: Order, frames: seq<Frame>, k: nat): nat
    requires AllSendable(frames) && k <= |frames|
  {
    |Encode(order, frames[..k])|
  }

  lemma EncodeGrows(order: Order, frames: seq<Frame>, k: nat)
    requires AllSendable(frames) && k < |frames|
    ensures Encode(order, frames[..k + 1]) == Encode(order, frames[..k]) + Bytes(order, frames[k])
    ensures Offset(order, frames, k + 1) == Offset(order, frames, k) + 8 + |frames[k].payload|
  {
    assert frames[..k + 1][..k] == frames[..k];
  }

  lemma {:induction false} EncodePrefix(order: Order, frames: seq<Frame>, k: nat)
    requires AllSendable(frames) && k <= |frames|
    ensures Encode(order, frames[..k]) <= Encode(order, frames)
    decreases |frames| - k
  {
    if k == |frames| {
      assert frames[..k] == frames;
    } else {
      EncodeGrows(order, frames, k);
      EncodePrefix(order, frames, k + 1);
    }
  }

  /** What lies at the start of frame `k`. */
  lemma FrameAt(order: Order, area: seq<Byte>, frames: seq<Frame>, k: nat)
    requires Holds(order, area, frames) && k < |frames|
    ensures var at := Offset(order, frames, k);
            && at + 8 + |frames[k].payload| + 4 <= |area|
            && Offset(order, frames, k + 1) == at + 8 + |frames[k].payload|
            && Get(order, area[at..at + 4]) == frames[k].id != 0
            && Get(order, area[at + 4..at + 8]) == |frames[k].payload|
            && area[at + 8..at + 8 + |frames[k].payload|] == frames[k].payload
  {
    hide Put, Get;
    var at, f := Offset(order, frames, k), frames[k];
    EncodeGrows(order, frames, k);
    EncodePrefix(order, frames, k + 1);
    var upTo, all := Encode(order, frames[..k + 1]), Encode(order, frames);
    assert upTo <= all <= area;
    assert Sendable(f);
    assert area[at..at + |Bytes(order, f)|] == upTo[at..] == Bytes(order, f);
    Split(order, area, at, f);
    GetPut(order, f.id);
    GetPut(order, |f.payload|);
  }

  lemma Split(order: Order, area: seq<Byte>, at: nat, f: Frame)
    requires |f.payload| < WORD && at + 8 + |f.payload| <= |area|
    requires area[at..at + 8 + |f.payload|] == Bytes(order, f)
    ensures area[at..at + 4] == Put(order, f.id) && area[at + 4..at + 8] == Put(order, |f.payload|)
    ensures area[at + 8..at + 8 + |f.payload|] == f.payload
  {
    hide Put;
    var n := 8 + |f.payload|;
    Slice(area, at, n, 0, 4);
    Slice(area, at, n, 4, 8);
    Slice(area, at, n, 8, n);
  }

  lemma Slice(area: seq<Byte>, at: nat, n: nat, i: nat, j: nat)
    requires at + n <= |area| && i <= j <= n
    ensures area[at..at + n][i..j] == area[at + i..at + j]
  {
    var part := area[at..at + n];
    forall k | 0 <= k < j - i
      ensures part[i..j][k] == area[at + i..at + j][k]
    {
    }
  }

  lemma EndAt(order: Order, area: seq<Byte>, frames: seq<Frame>)
    requires Holds(order, area, frames)
    ensures var at := Offset(order, frames, |frames|);
            at + 4 <= |area| && area[at..at + 4] == END && Get(order, area[at..at + 4]) == 0
  {
    assert frames[..|frames|] == frames;
    var all := Encode(order, frames) + END;
    var at := |Encode(order, frames)|;
    assert area[..|all|] == all;
    assert area[at..at + 4] == all[at..];
  }

  /** The bytes say which frames: no area can be read in two ways. */
  lemma {:induction false} OneReading(order: Order, area: seq<Byte>, f: seq<Frame>, g: seq<Frame>, k: nat)
    requires Holds(order, area, f) && Holds(order, area, g)
    requires k <= |f| && k <= |g| && f[..k] == g[..k]
    ensures f == g
    decreases |f| - k
  {
    hide Holds, Encode, Get;
    HoldsSendable(order, area, f);
    HoldsSendable(order, area, g);
    if k == |f| && k == |g| {
      assert f[..k] == f && g[..k] == g;
    } else if k == |f| {
      EndAt(order, area, f);
      FrameAt(order, area, g, k);
    } else if k == |g| {
      EndAt(order, area, g);
      FrameAt(order, area, f, k);
    } else {
      FrameAt(order, area, f, k);
      FrameAt(order, area, g, k);
      assert f[k] == g[k];
      assert f[..k + 1] == f[..k] + [f[k]] && g[..k + 1] == g[..k] + [g[k]];
      OneReading(order, area, f, g, k + 1);
    }
  }

  lemma HoldsSendable(order: Order, area: seq<Byte>, frames: seq<Frame>)
    requires Holds(order, area, frames)
    ensures AllSendable(frames)
  {
  }
}

/** Reading one recipient's messages out of the area, and putting a message in. */
module Ipc {
  import opened Common
  import opened Frames

  /** A message found in the area; no place when it is empty. */
  datatype MessageIterator = MessageIterator(id: Word, length: Word, buffer: int)

  /** The iterators of the first `k` frames. */
  ghost predicate Found(order: Order, frames: seq<Frame>, iterators: seq<MessageIterator>, k: nat) {
    && AllSendable(frames) && |iterators| == k <= |frames|
    && forall j | 0 <= j < k :: iterators[j] == IteratorOf(order, frames, j)
  }

  ghost function IteratorOf(order: Order, frames: seq<Frame>, j: nat): MessageIterator
    requires AllSendable(frames) && j < |frames|
  {
    var n := |frames[j].payload|;
    assert Sendable(frames[j]);
    MessageIterator(frames[j].id, n, if n == 0 then -1 else Offset(order, frames, j) + 8)
  }

  /** Lays down identifier and length. */
  method PutHeader(area: array<Byte>, order: Order, at: nat, id: Word, length: Word)
    requires at + 8 <= area.Length
    modifies area
    ensures area[..] == old(area[..at]) + Put(order, id) + Put(order, length) + old(area[at + 8..])
  {
    hide Put;
    MemCpy(area, at, Put(order, id));
    MemCpy(area, at + 4, Put(order, length));
  }

  /** Header and payload make a frame. */
  lemma FrameLaid(order: Order, before: seq<Byte>, at: nat, f: Frame, after: seq<Byte>)
    requires |f.payload| < WORD && at + 8 + |f.payload| <= |before|
    requires var headed := before[..at] + Put(order, f.id) + Put(order, |f.payload|) + before[at + 8..];
             after == headed[..at + 8] + f.payload + headed[at + 8 + |f.payload|..]
    ensures after == before[..at] + Bytes(order, f) + before[at + 8 + |f.payload|..]
  {
    hide Put;
  }

  /** A header leaves what lies behind it. */
  lemma BehindHeader(order: Order, before: seq<Byte>, at: nat, id: Word, length: Word, from: nat, n: nat)
    requires at + 8 <= from && from + n <= |before|
    ensures var headed := before[..at] + Put(order, id) + Put(order, length) + before[at + 8..];
            |headed| == |before| && headed[from..from + n] == before[from..from + n]
  {
    hide Put;
  }

  /** What an iterator found. */
  function PayloadOf(area: seq<Byte>, it: MessageIterator): (payload: seq<Byte>)
    requires it.length > 0 ==> 0 <= it.buffer && it.buffer + it.length <= |area|
    ensures |payload| == it.length
  {
    if it.length == 0 then [] else area[it.buffer..it.buffer + it.length]
  }

  /** Lays a found message down further to the front, header first. */
  method MoveFrame(area: array<Byte>, order: Order, at: nat, it: MessageIterator)
    requires at + 8 + it.length <= area.Length
    requires it.length > 0 ==> at + 8 <= it.buffer && it.buffer + it.length <= area.Length
    modifies area
    ensures area[..] == old(area[..at]) + Bytes(order, Frame(it.id, old(PayloadOf(area[..], it)))) + old(area[at + 8 + it.length..])
  {
    hide Put, Bytes;
    ghost var before := area[..];
    if it.length > 0 {
      BehindHeader(order, before, at, it.id, it.length, it.buffer, it.length);
    }
    PutHeader(area, order, at, it.id, it.length);
    MemCpy(area, at + 8, PayloadOf(area[..], it));
    FrameLaid(order, before, at, Frame(it.id, PayloadOf(before, it)), area[..]);
  }

  /** Walks over the area up to the mark of the end. */
  method Scan(area: array<Byte>, order: Order, ghost frames: seq<Frame>) returns (iterators: seq<MessageIterator>)
    requires Holds(order, area[..], frames)
    ensures Found(order, frames, iterators, |frames|)
  {
    hide Holds, Encode, Get;
    HoldsSendable(order, area[..], frames);
    iterators := [];
    var buf: nat := 0;
    ghost var k := 0;
    EndAt(order, area[..], frames);
    NoOffset(order, frames);
    while true
      invariant Found(order, frames, iterators, k) && buf == Offset(order, frames, k)
      decreases |frames| - k
    {
      if k < |frames| {
        FrameAt(order, area[..], frames, k);
      }
      var id := Get(order, area[..][buf..buf + 4]);
      if id == 0 {
        break;
      } else {
        var length := Get(order, area[..][buf + 4..buf + 8]);
        if length != 0 {
          iterators := iterators + [MessageIterator(id, length, buf + 8)];
          buf := buf + 8 + length;
        } else {
          iterators := iterators + [MessageIterator(id, length, -1)];
          buf := buf + 8;
        }
        k := k + 1;
      }
    }
  }

  lemma NoOffset(order: Order, frames: seq<Frame>)
    requires AllSendable(frames)
    ensures Offset(order, frames, 0) == 0
  {
  }

  /** How far the compaction has come: the frames kept so far are at the front, and behind
      them the area is still what it was. */
  ghost predicate Compacted(order: Order, was: seq<Byte>, area: seq<Byte>, frames: seq<Frame>, id: Word, k: nat, buf: nat) {
    && Holds(order, was, frames) && k <= |frames| && |area| == |was|
    && AllSendable(Others(frames[..k], id))
    && buf == |Encode(order, Others(frames[..k], id))| <= Offset(order, frames, k) <= |was|
    && area[..buf] == Encode(order, Others(frames[..k], id))
    && area[buf..] == was[buf..]
  }

  lemma CompactionStarts(order: Order, was: seq<Byte>, frames: seq<Frame>, id: Word)
    requires Holds(order, was, frames)
    ensures Compacted(order, was, was, frames, id, 0, 0)
  {
  }

  /** A frame that is read is skipped. */
  lemma CompactionSkips(order: Order, was: seq<Byte>, area: seq<Byte>, frames: seq<Frame>, id: Word, k: nat, buf: nat)
    requires Compacted(order, was, area, frames, id, k, buf) && k < |frames| && frames[k].id == id
    ensures Compacted(order, was, area, frames, id, k + 1, buf)
  {
    hide Encode, Holds;
    HoldsSendable(order, was, frames);
    FrameAt(order, was, frames, k);
    FilterOneMore(frames, id, k);
    assert Others(frames[..k + 1], id) == Others(frames[..k], id);
  }

  lemma DropMore(was: seq<Byte>, area: seq<Byte>, at: nat, at': nat)
    requires |was| == |area| && at <= at' <= |was| && area[at..] == was[at..]
    ensures area[at'..] == was[at'..]
  {
    assert area[at'..] == area[at..][at' - at..];
    assert was[at'..] == was[at..][at' - at..];
  }

  /** A frame that is left moves down over bytes no longer needed. */
  lemma CompactionKeeps(order: Order, was: seq<Byte>, area: seq<Byte>, area': seq<Byte>, frames: seq<Frame>, id: Word, k: nat, buf: nat)
    requires Compacted(order, was, area, frames, id, k, buf) && k < |frames| && frames[k].id != id
    requires |frames[k].payload| < WORD && buf + 8 + |frames[k].payload| <= |area|
    requires area' == area[..buf] + Bytes(order, frames[k]) + area[buf + 8 + |frames[k].payload|..]
    ensures Compacted(order, was, area', frames, id, k + 1, buf + 8 + |frames[k].payload|)
  {
    hide Holds, Put;
    HoldsSendable(order, was, frames);
    FrameAt(order, was, frames, k);
    FilterOneMore(frames, id, k);
    var kept := Others(frames[..k], id);
    assert Others(frames[..k + 1], id) == kept + [frames[k]];
    assert (kept + [frames[k]])[..|kept|] == kept;
    var buf' := buf + 8 + |frames[k].payload|;
    assert area'[..buf'] == area[..buf] + Bytes(order, frames[k]);
    DropMore(was, area, buf, buf');
    assert area'[buf'..] == area[buf'..];
  }

  lemma FilterOneMore(frames: seq<Frame>, id: Word, k: nat)
    requires AllSendable(frames) && k < |frames|
    ensures Others(frames[..k + 1], id) == Others(frames[..k], id) + if frames[k].id == id then [] else [frames[k]]
    ensures Payloads(frames[..k + 1], id) == Payloads(frames[..k], id) + if frames[k].id == id then [frames[k].payload] else []
    ensures AllSendable(Others(frames[..k + 1], id))
  {
    assert frames[..k + 1][..k] == frames[..k];
    OthersSendable(frames[..k + 1], id);
  }

  /** The payload of frame `k` is still where the scan found it, and the header fits below it. */
  lemma StillThere(order: Order, was: seq<Byte>, area: seq<Byte>, frames: seq<Frame>, id: Word, k: nat, buf: nat)
    requires Compacted(order, was, area, frames, id, k, buf) && k < |frames| && AllSendable(frames)
    ensures var at, n := Offset(order, frames, k), |frames[k].payload|;
            && buf <= at && at + 8 + n + 4 <= |area| && area[at + 8..at + 8 + n] == frames[k].payload
            && n < WORD
  {
    hide Encode, Holds;
    FrameAt(order, was, frames, k);
    var at, n := Offset(order, frames, k), |frames[k].payload|;
    assert Sendable(frames[k]);
    DropMore(was, area, buf, at);
    assert area[at + 8..at + 8 + n] == area[at..][8..8 + n];
    assert was[at + 8..at + 8 + n] == was[at..][8..8 + n];
  }

  /** A size as its eight bytes lie in memory, and what eight bytes say. */
  function StoredSize(order: Order, size: nat): (b: seq<Byte>)
    requires size < WORD * WORD
    ensures |b| == 8
  {
    if order.LittleEndian? then Put(order, size % WORD) + Put(order, size / WORD)
    else Put(order, size / WORD) + Put(order, size % WORD)
  }

  function SizeIn(order: Order, b: seq<Byte>): nat
    requires |b| == 8
  {
    var first, second := Get(order, b[..4]), Get(order, b[4..]);
    if order.LittleEndian? then first + WORD * second else WORD * first + second
  }

  /** The clearing meant for the first message hits bytes 4 to 8 of the header: half of the
      stored size. */
  function SizeKept(order: Order, size: nat): nat
    requires size < WORD * WORD
  {
    SizeIn(order, StoredSize(order, size)[..4] + END)
  }

  /** It leaves a size below 4 GiB alone on a little-endian machine and turns it into zero on
      a big-endian one. */
  lemma SizeKeptExactly(order: Order, size: nat)
    requires size < WORD * WORD
    ensures SizeKept(order, size) == if order.LittleEndian? then size % WORD else size / WORD * WORD
    ensures SizeKept(order, size) <= size
    ensures size < WORD ==> SizeKept(order, size) == if order.LittleEndian? then size else 0
  {
    hide Put, Get;
    var half: Word := if order.LittleEndian? then size % WORD else size / WORD;
    var cleared := Put(order, half) + END;
    assert StoredSize(order, size)[..4] + END == cleared;
    assert cleared[..4] == Put(order, half) && cleared[4..] == END;
    GetPut(order, half);
    GetEnd(order);
  }

  lemma GetEnd(order: Order)
    ensures Get(order, END) == 0
  {
  }

  /** So there a channel of less than 4 GiB passes no message, wherever it would be put. */
  lemma NothingFits(size: nat, tail: nat, data: seq<Byte>)
    requires size < 0x1_0000_0000
    ensures tail + 8 + |data| > SizeKept(BigEndian, size) + 4
  {
    SizeKeptExactly(BigEndian, size);
  }

  /** The check counts four bytes too many: of all messages, exactly those that would pass
      without them are both let through and leave everything behind the area alone. */
  lemma StaysInside(order: Order, size: nat, tail: nat, f: Frame)
    requires |f.payload| < WORD
    ensures tail + 8 + |f.payload| <= size <==>
            && tail + 8 + |f.payload| <= size + 4
            && forall memory: seq<Byte> | |memory| == size + 4 :: Laid(order, memory, tail, f)[size..] == memory[size..]
  {
    var n := tail + 8 + |f.payload|;
    if n <= size {
      forall memory: seq<Byte> | |memory| == size + 4
        ensures Laid(order, memory, tail, f)[size..] == memory[size..]
      {
        LaidBehind(order, memory, tail, f, size);
      }
    } else if n <= size + 4 {
      var b: Byte := if Bytes(order, f)[size - tail] == 0 then 1 else 0;
      var memory := seq(size + 4, _ => b);
      assert Laid(order, memory, tail, f)[size..][0] == Bytes(order, f)[size - tail];
      assert memory[size..][0] == b;
    }
  }

  function Laid(order: Order, memory: seq<Byte>, at: nat, f: Frame): (r: seq<Byte>)
    requires |f.payload| < WORD && at + 8 + |f.payload| <= |memory|
    ensures |r| == |memory|
  {
    memory[..at] + Bytes(order, f) + memory[at + 8 + |f.payload|..]
  }

  lemma LaidBehind(order: Order, memory: seq<Byte>, at: nat, f: Frame, size: nat)
    requires |f.payload| < WORD && at + 8 + |f.payload| <= size <= |memory|
    ensures Laid(order, memory, at, f)[size..] == memory[size..]
  {
  }

  class IPCChannel {
    const order: Order
    const buffer: array<Byte>
    const totalSize: nat
    var tail: nat

    /** The mark of the end is there because the memory is new, not because it is written.  The
        space check of `Write` counts four bytes past the size: the memory is taken to have them. */
    constructor (order: Order, size: nat)
      requires size < WORD * WORD
      ensures tail == 0 && totalSize == SizeKept(order, size) && buffer.Length == size + 4 && fresh(buffer)
      ensures Holds(order, buffer[..], []) && this.order == order
      ensures forall i | 0 <= i < buffer.Length :: buffer[i] == 0
    {
      this.order := order;
      totalSize := SizeKept(order, size);
      tail := 0;
      buffer := new Byte[size + 4](_ => 0);
      new;
      assert buffer[..4] == END;
    }

    /** The messages for `id` come out in order, the others stay in order, ended by the mark, the
        place to write is right behind them, and nothing further back has changed. */
    method Read(id: Word, ghost frames: seq<Frame>) returns (list: seq<seq<Byte>>)
      requires Holds(order, buffer[..], frames)
      modifies this, buffer
      ensures list == Payloads(frames, id)
      ensures Holds(order, buffer[..], Others(frames, id)) && tail == |Encode(order, Others(frames, id))|
      ensures tail + 4 <= buffer.Length
      ensures buffer[..] == Encode(order, Others(frames, id)) + END + old(buffer[..])[tail + 4..]
    {
      hide Holds, Encode, Compacted, Payloads, Others, Put, Offset, Bytes;
      ghost var was := buffer[..];
      HoldsSendable(order, was, frames);
      var iterators := Scan(buffer, order, frames);
      ghost var all := iterators;
      list := [];
      var size: nat, buf: nat, next := 0, 0, 0;
      ghost var k := 0;
      CompactionStarts(order, was, frames, id);
      NothingRead(frames, id);
      while next < |iterators|
        invariant next <= |iterators| && k <= |frames| && iterators[next..] == all[k..]
        invariant Compacted(order, was, buffer[..], frames, id, k, buf)
        invariant list == Payloads(frames[..k], id) && size == buf
        decreases |frames| - k
      {
        var it := iterators[next];
        assert it == iterators[next..][0] == all[k] == IteratorOf(order, frames, k);
        StillThere(order, was, buffer[..], frames, id, k, buf);
        assert PayloadOf(buffer[..], it) == frames[k].payload;
        FilterOneMore(frames, id, k);
        if it.id == id {
          CompactionSkips(order, was, buffer[..], frames, id, k, buf);
          list := list + [PayloadOf(buffer[..], it)];
          iterators := iterators[..next] + iterators[next + 1..];
          assert iterators[next..] == all[k..][1..] == all[k + 1..];
        } else {
          ghost var before := buffer[..];
          MoveFrame(buffer, order, buf, it);
          CompactionKeeps(order, was, before, buffer[..], frames, id, k, buf);
          buf := buf + 8 + it.length;
          size := size + 8 + it.length;
          assert iterators[next + 1..] == all[k..][1..] == all[k + 1..];
          next := next + 1;
        }
        k := k + 1;
      }
      ghost var compacted := buffer[..];
      CompactionEnds(order, was, compacted, frames, id, buf);
      MemCpy(buffer, buf, [0, 0, 0, 0]);
      assert buffer[..] == compacted[..buf] + END + compacted[buf + 4..];
      tail := size;
    }

    /** A message is put behind the others if there is room; what follows it is left as it was. */
    method Write(id: Word, data: seq<Byte>, ghost frames: seq<Frame>) returns (ok: bool)
      requires |data| < WORD && buffer.Length >= totalSize + 4 && AllSendable(frames)
      requires Encode(order, frames) <= buffer[..] && tail == |Encode(order, frames)|
      modifies this, buffer
      ensures ok <==> old(tail) + 8 + |data| <= totalSize + 4
      ensures !ok ==> tail == old(tail) && buffer[..] == old(buffer[..])
      ensures ok ==>
                && tail == old(tail) + 8 + |data|
                && buffer[..] == Encode(order, frames) + Bytes(order, Frame(id, data)) + old(buffer[..])[tail..]
                && buffer[..] == Laid(order, old(buffer[..]), old(tail), Frame(id, data))
    {
      hide Encode, Put, Bytes;
      if tail + 8 + |data| > totalSize + 4 {
        return false;
      }
      assert buffer[..tail] == Encode(order, frames);
      ghost var before := buffer[..];
      PutHeader(buffer, order, tail, id, |data|);
      MemCpy(buffer, tail + 8, data);
      FrameLaid(order, before, tail, Frame(id, data), buffer[..]);
      tail := tail + 8 + |data|;
      return true;
    }
  }

  /** A little-endian machine takes a first message exactly when it and four bytes more fit the
      size; on a big-endian one a channel of less than 4 GiB takes none. */
  method FirstMessage(order: Order, size: nat, id: Word, data: seq<Byte>) returns (ok: bool)
    requires size < 0x1_0000_0000 && |data| < 0x1_0000_0000
    ensures ok <==> order.LittleEndian? && |data| + 4 <= size
  {
    SizeKeptExactly(order, size);
    var channel := new IPCChannel(order, size);
    EncodeNone(order);
    ok := channel.Write(id, data, []);
  }

  lemma NothingRead(frames: seq<Frame>, id: Word)
    ensures Payloads(frames[..0], id) == []
  {
  }

  lemma CompactionEnds(order: Order, was: seq<Byte>, area: seq<Byte>, frames: seq<Frame>, id: Word, buf: nat)
    requires Compacted(order, was, area, frames, id, |frames|, buf)
    ensures frames[..|frames|] == frames && buf + 4 <= |area| && AllSendable(frames) && AllSendable(Others(frames, id))
    ensures buf == |Encode(order, Others(frames, id))|
    ensures Holds(order, area[..buf] + END + area[buf + 4..], Others(frames, id))
    ensures area[..buf] + END + area[buf + 4..] == Encode(order, Others(frames, id)) + END + was[buf + 4..]
  {
    assert frames[..|frames|] == frames;
    DropMore(was, area, buf, buf + 4);
  }

  /** A message written where an area ends makes a longer area exactly when the four bytes
      behind it happen to be zero: writing lays no mark of the end. */
  lemma WrittenIsReadable(order: Order, frames: seq<Frame>, f: Frame, rest: seq<Byte>)
    requires AllSendable(frames) && Sendable(f)
    ensures Holds(order, Encode(order, frames) + Bytes(order, f) + rest, frames + [f]) <==> END <= rest
  {
    hide Put;
    assert (frames + [f])[..|frames|] == frames;
    var all := Encode(order, frames) + Bytes(order, f);
    assert Encode(order, frames + [f]) == all;
    if END <= rest {
      assert all + END <= all + rest;
    }
    if all + END <= all + rest {
      assert rest[..4] == (all + rest)[|all|..|all| + 4] == (all + END)[|all|..];
    }
  }

  lemma EncodeOne(order: Order, f: Frame)
    requires |f.payload| < WORD
    ensures Encode(order, [f]) == Bytes(order, f)
  {
    hide Bytes;
    assert [f][..0] == [];
  }

  lemma EncodeTwo(order: Order, f: Frame, g: Frame)
    requires |f.payload| < WORD && |g.payload| < WORD
    ensures Encode(order, [f, g]) == Bytes(order, f) + Bytes(order, g)
  {
    hide Bytes;
    assert [f, g][..1] == [f];
    EncodeOne(order, f);
  }

  lemma OthersOfTwo(f: Frame, g: Frame)
    requires f.id != g.id
    ensures Others([f, g], f.id) == [g]
  {
    LastFiltered([f], f.id);
    LastFiltered([f, g], f.id);
    NothingFiltered(f.id);
    assert [f, g][..1] == [f] && [f][..0] == [];
  }

  /** Such an area is reached in four calls: a message, a second one behind it, reading the
      first, and an empty message. */
  method StaleBytes() returns (area: seq<Byte>)
    ensures Encode(LittleEndian, [Frame(2, [9]), Frame(3, [])]) + [0, 0, 0, 1] <= area
    ensures !Holds(LittleEndian, area, [Frame(2, [9]), Frame(3, [])])
  {
    hide Holds, Encode, Put, Bytes, Others, SizeKept;
    SizeKeptExactly(LittleEndian, 32);
    ghost var one, two, three := Frame(1, [7, 7, 7, 7, 7, 7, 7, 7]), Frame(2, [9]), Frame(3, []);
    EncodeOne(LittleEndian, one);
    EncodeOne(LittleEndian, two);
    EncodeTwo(LittleEndian, one, two);
    EncodeTwo(LittleEndian, two, three);
    OthersOfTwo(one, two);
    var channel := new IPCChannel(LittleEndian, 32);
    ghost var zeros := channel.buffer[..];
    EncodeNone(LittleEndian);
    var ok := channel.Write(1, [7, 7, 7, 7, 7, 7, 7, 7], []);
    ok := channel.Write(2, [9], [one]);
    assert channel.buffer[..] == Bytes(LittleEndian, one) + Bytes(LittleEndian, two) + zeros[25..];
    assert zeros[25..] == END + zeros[29..];
    HoldsTwo(LittleEndian, one, two, channel.buffer[..]);
    var list := channel.Read(1, [one, two]);
    ok := channel.Write(3, [], [two]);
    area := channel.buffer[..];
    StaleBehind(zeros);
    StaleIsNoEnd(two, three, area);
  }

  lemma EncodeNone(order: Order)
    ensures Encode(order, []) == []
  {
  }

  lemma HoldsTwo(order: Order, f: Frame, g: Frame, area: seq<Byte>)
    requires Sendable(f) && Sendable(g) && Bytes(order, f) + Bytes(order, g) + END <= area
    ensures Holds(order, area, [f, g])
  {
    EncodeTwo(order, f, g);
  }

  /** What is left of the second message behind the third. */
  lemma StaleBehind(zeros: seq<Byte>)
    requires |zeros| == 36
    ensures var one, two := Bytes(LittleEndian, Frame(1, [7, 7, 7, 7, 7, 7, 7, 7])), Bytes(LittleEndian, Frame(2, [9]));
            var read := two + END + (one + two + zeros[25..])[13..];
            |read| == 36 && [0, 0, 0, 1] <= read[17..]
  {
    var one, two := Bytes(LittleEndian, Frame(1, [7, 7, 7, 7, 7, 7, 7, 7])), Bytes(LittleEndian, Frame(2, [9]));
    assert two == [2, 0, 0, 0, 1, 0, 0, 0, 9];
    assert (one + two + zeros[25..])[16..25] == two;
  }

  lemma StaleIsNoEnd(f: Frame, g: Frame, area: seq<Byte>)
    requires Sendable(f) && Sendable(g) && Encode(LittleEndian, [f, g]) + [0, 0, 0, 1] <= area
    ensures !Holds(LittleEndian, area, [f, g])
  {
    var all := Encode(LittleEndian, [f, g]);
    assert area[|all| + 3] == (all + [0, 0, 0, 1])[|all| + 3];
    assert (all + END)[|all| + 3] == 0;
  }
}
