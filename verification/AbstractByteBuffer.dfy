/** The buffer as seen from outside: the bytes written so far and one reading cursor. */
module ByteStreams {
  type Byte = x: int | 0 <= x < 256

  datatype Stream = Stream(contents: seq<Byte>, cursor: nat)

  datatype Op = Write(data: seq<Byte>) | Read(n: nat) | Peek(n: nat) | Trunc(n: nat) | ResetPos

  predicate Sound(s: Stream) { s.cursor <= |s.contents| }

  function Unread(s: Stream): seq<Byte>
    requires Sound(s)
  {
    s.contents[s.cursor..]
  }

  /** The next bytes: as many as asked for, or all there are. */
  function Next(s: Stream, n: nat): seq<Byte>
    requires Sound(s)
  {
    if n <= |Unread(s)| then Unread(s)[..n] else Unread(s)
  }

  /** The bytes an operation hands out. */
  function Output(s: Stream, op: Op): seq<Byte>
    requires Sound(s)
  {
    if op.Read? || op.Peek? then Next(s, op.n) else []
  }

  function After(s: Stream, op: Op): (s': Stream)
    requires Sound(s)
    ensures Sound(s')
  {
    match op
    case Write(data) => s.(contents := s.contents + data)
    case Read(n) => s.(cursor := s.cursor + |Next(s, n)|)
    case Peek(_) => s
    case Trunc(n) => s.(cursor := s.cursor + |Next(s, n)|)
    case ResetPos => s.(cursor := 0)
  }

  function Final(s: Stream, ops: seq<Op>): (s': Stream)
    requires Sound(s)
    ensures Sound(s')
  {
    if ops == [] then s else After(Final(s, ops[..|ops| - 1]), ops[|ops| - 1])
  }

  /** Everything written in a run. */
  function Written(ops: seq<Op>): seq<Byte> {
    if ops == [] then [] else
      var last := ops[|ops| - 1];
      Written(ops[..|ops| - 1]) + if last.Write? then last.data else []
  }

  /** Everything read or skipped since the position was last reset. */
  function Consumed(s: Stream, ops: seq<Op>): seq<Byte>
    requires Sound(s)
  {
    if ops == [] then s.contents[..s.cursor] else
      var before, last := ops[..|ops| - 1], ops[|ops| - 1];
      match last
      case Read(n) => Consumed(s, before) + Output(Final(s, before), last)
      case Trunc(n) => Consumed(s, before) + Output(Final(s, before), Read(n))
      case ResetPos => []
      case _ => Consumed(s, before)
  }

  /** Over any run nothing is lost, reordered or repeated: what is held is what was there
      and then what was written, and what has been consumed is its beginning up to the cursor. */
  lemma {:induction false} RunConserves(s: Stream, ops: seq<Op>)
    requires Sound(s)
    ensures Final(s, ops).contents == s.contents + Written(ops)
    ensures Consumed(s, ops) == Final(s, ops).contents[..Final(s, ops).cursor]
    ensures Consumed(s, ops) + Unread(Final(s, ops)) == s.contents + Written(ops)
  {
    hide After, Output, Next;
    if ops != [] {
      var before, last := ops[..|ops| - 1], ops[|ops| - 1];
      RunConserves(s, before);
      StepConserves(Final(s, before), last);
    }
  }

  /** One step: contents only grow, and the cursor moves over what is handed out or skipped. */
  lemma StepConserves(m: Stream, op: Op)
    requires Sound(m)
    ensures After(m, op).contents == m.contents + if op.Write? then op.data else []
    ensures op.Write? || op.Peek? ==> After(m, op).contents[..After(m, op).cursor] == m.contents[..m.cursor]
    ensures op.Read? || op.Trunc? ==>
              After(m, op).contents[..After(m, op).cursor] == m.contents[..m.cursor] + Output(m, Read(op.n))
    ensures op.ResetPos? ==> After(m, op).cursor == 0
  {
  }

  /** A peek previews the next read, and asking in two portions is asking once. */
  lemma PeekThenRead(s: Stream, n: nat, m: nat)
    requires Sound(s)
    ensures Output(After(s, Peek(n)), Read(n)) == Output(s, Peek(n))
    ensures Output(s, Read(n)) + Output(After(s, Read(n)), Read(m)) == Output(s, Read(n + m))
    ensures After(After(s, Read(n)), Read(m)) == After(s, Read(n + m)) == After(After(s, Trunc(n)), Trunc(m))
  {
    assert Output(s, Read(n)) + Output(After(s, Read(n)), Read(m)) == Output(s, Read(n + m));
  }
}

/** The chain of memory blocks behind it. */
module AbstractByteBuffer {
  import opened Common
  import opened ByteStreams

  lemma FlattenGrows(parts: seq<seq<Byte>>, k: nat)
    requires k < |parts|
    ensures Flatten(parts[..k + 1]) == Flatten(parts[..k]) + parts[k]
  {
    assert parts[..k + 1][..k] == parts[..k];
  }

  lemma {:induction false} FlattenPrefix(parts: seq<seq<Byte>>, k: nat)
    requires k <= |parts|
    ensures Flatten(parts[..k]) <= Flatten(parts)
    decreases |parts| - k
  {
    if k == |parts| {
      assert parts[..k] == parts;
    } else {
      FlattenGrows(parts, k);
      FlattenPrefix(parts, k + 1);
    }
  }

  /** More bytes at the end of the last part are more bytes at the end. */
  lemma FlattenExtendLast(parts: seq<seq<Byte>>, more: seq<Byte>)
    requires parts != []
    ensures var parts' := parts[|parts| - 1 := parts[|parts| - 1] + more];
            && Flatten(parts') == Flatten(parts) + more
            && forall k | 0 <= k < |parts| :: parts'[..k] == parts[..k]
  {
    var last := |parts| - 1;
    var parts' := parts[last := parts[last] + more];
    assert parts'[..last] == parts[..last];
    assert Flatten(parts[..last]) + parts[last] + more == Flatten(parts[..last]) + (parts[last] + more);
  }

  lemma FlattenAddEmpty(parts: seq<seq<Byte>>)
    ensures Flatten(parts + [[]]) == Flatten(parts)
    ensures forall k | 0 <= k <= |parts| :: (parts + [[]])[..k] == parts[..k]
  {
    assert (parts + [[]])[..|parts|] == parts[..|parts|] == parts;
  }

  /** The cursor of a reader at position `pos` of part `k`, and what it sees of that part. */
  lemma UnreadFrom(parts: seq<seq<Byte>>, k: nat, pos: nat, n: nat)
    requires k < |parts| && pos + n <= |parts[k]|
    ensures var cursor, all := |Flatten(parts[..k])| + pos, Flatten(parts);
            && cursor + n <= |all| && all[cursor..cursor + n] == parts[k][pos..pos + n]
            && (k == |parts| - 1 && pos + n == |parts[k]| ==> cursor + n == |all|)
            && (k < |parts| - 1 && pos + n == |parts[k]| ==> cursor + n == |Flatten(parts[..k + 1])|)
  {
    FlattenGrows(parts, k);
    FlattenPrefix(parts, k + 1);
    if k == |parts| - 1 {
      assert parts[..k + 1] == parts;
    }
    var cursor, all, head := |Flatten(parts[..k])| + pos, Flatten(parts), Flatten(parts[..k + 1]);
    assert all[..|head|] == head;
    assert all[cursor..cursor + n] == head[cursor..cursor + n];
  }

  /** The stream of a reader at position `pos` of part `k`. */
  ghost function StreamAt(parts: seq<seq<Byte>>, k: nat, pos: nat): (s: Stream)
    requires k < |parts| && pos <= |parts[k]|
    ensures Sound(s) && s.contents == Flatten(parts) && s.cursor == |Flatten(parts[..k])| + pos
  {
    UnreadFrom(parts, k, pos, 0);
    Stream(Flatten(parts), |Flatten(parts[..k])| + pos)
  }

  lemma SwitchParts(parts: seq<seq<Byte>>, k: nat, pos: nat)
    requires k < |parts| && pos <= |parts[k]|
    ensures StreamAt(parts + [[]], k, pos) == StreamAt(parts, k, pos)
    ensures Flatten((parts + [[]])[..|parts|]) == Flatten(parts[..|parts| - 1]) + parts[|parts| - 1]
  {
    FlattenAddEmpty(parts);
    assert parts[..|parts|] == parts;
  }

  /** A reader that started at `start` has come to position `pos` of part `k` and been given `data`. */
  ghost predicate Delivered(parts: seq<seq<Byte>>, start: nat, k: nat, pos: nat, data: seq<Byte>) {
    && k < |parts| && pos <= |parts[k]|
    && start + |data| == |Flatten(parts[..k])| + pos <= |Flatten(parts)|
    && data == Flatten(parts)[start..start + |data|]
  }

  lemma DeliverNone(parts: seq<seq<Byte>>, k: nat, pos: nat)
    requires k < |parts| && pos <= |parts[k]|
    ensures Delivered(parts, |Flatten(parts[..k])| + pos, k, pos, [])
  {
    UnreadFrom(parts, k, pos, 0);
  }

  lemma DeliverMore(parts: seq<seq<Byte>>, start: nat, k: nat, pos: nat, data: seq<Byte>, n: nat)
    requires Delivered(parts, start, k, pos, data) && pos + n <= |parts[k]|
    ensures Delivered(parts, start, k, pos + n, data + parts[k][pos..pos + n])
  {
    hide Flatten;
    UnreadFrom(parts, k, pos, n);
    var all, cursor := Flatten(parts), start + |data|;
    assert all[start..cursor] + all[cursor..cursor + n] == all[start..cursor + n];
  }

  lemma DeliverOn(parts: seq<seq<Byte>>, start: nat, k: nat, data: seq<Byte>)
    requires k < |parts| - 1 && Delivered(parts, start, k, |parts[k]|, data)
    ensures Delivered(parts, start, k + 1, 0, data)
  {
    FlattenGrows(parts, k);
  }

  /** A reader that has what it asked for, or has come to the end, has what comes next. */
  lemma DeliverAll(s: Stream, n: nat, parts: seq<seq<Byte>>, k: nat, pos: nat, data: seq<Byte>)
    requires Sound(s) && s.contents == Flatten(parts) && |data| <= n && Delivered(parts, s.cursor, k, pos, data)
    requires |data| == n || (k == |parts| - 1 && pos == |parts[k]|)
    ensures data == Next(s, n)
  {
    hide Flatten;
    UnreadFrom(parts, k, pos, 0);
  }

  class Node {
    const buffer: array<Byte>
    const cap: nat
    var next: Node?
    var length: nat

    constructor (bufferSize: nat)
      ensures fresh(buffer) && buffer.Length == cap == bufferSize && next == null && length == 0
    {
      buffer := new Byte[bufferSize];
      cap := bufferSize;
      next := null;
      length := 0;
    }
  }

  /** The nodes of a chain and their memory. */
  ghost function Nodes(chain: seq<Node>): (r: set<object>)
    ensures forall i | 0 <= i < |chain| :: chain[i] in r && chain[i].buffer in r
    ensures forall o | o in r :: !(o is AbstractByteBuffer)
  {
    if chain == [] then {} else
      var last := |chain| - 1;
      Nodes(chain[..last]) + {chain[last] as object, chain[last].buffer as object}
  }

  /** The nodes are linked in order and hold their parts; all but the last are full. */
  ghost predicate Chained(chain: seq<Node>, parts: seq<seq<Byte>>)
    reads Nodes(chain)
  {
    && |chain| == |parts| > 0
    && (forall i | 0 <= i < |chain| ::
          && chain[i].buffer.Length == chain[i].cap && chain[i].length <= chain[i].cap
          && chain[i].buffer[..chain[i].length] == parts[i])
    && (forall i | 0 <= i < |chain| - 1 :: chain[i].next == chain[i + 1] && chain[i].length == chain[i].cap)
    && chain[|chain| - 1].next == null
    && (forall i, j | 0 <= i < j < |chain| :: chain[i] != chain[j] && chain[i].buffer != chain[j].buffer)
  }

  /** What the chain says of one node. */
  lemma NodeAt(chain: seq<Node>, parts: seq<seq<Byte>>, k: nat)
    requires Chained(chain, parts) && k < |chain|
    ensures |chain| == |parts|
    ensures chain[k].buffer.Length == chain[k].cap && chain[k].length == |parts[k]| <= chain[k].cap
    ensures chain[k].buffer[..chain[k].length] == parts[k]
    ensures forall a, b | 0 <= a <= b <= chain[k].length :: chain[k].buffer[a..b] == parts[k][a..b]
    ensures if k == |chain| - 1 then chain[k].next == null else chain[k].next == chain[k + 1] && chain[k].length == chain[k].cap
    ensures k < |chain| - 1 ==> chain[k] != chain[|chain| - 1]
  {
    var all := chain[k].buffer[..chain[k].length];
    assert all == parts[k];
    assert forall a, b | 0 <= a <= b <= chain[k].length :: chain[k].buffer[a..b] == all[a..b];
  }

  /** The memory of all nodes together. */
  ghost function Caps(chain: seq<Node>): nat {
    if chain == [] then 0 else Caps(chain[..|chain| - 1]) + chain[|chain| - 1].cap
  }

  lemma CapsGrow(chain: seq<Node>, node: Node)
    ensures Caps(chain + [node]) == Caps(chain) + node.cap
  {
    assert (chain + [node])[..|chain|] == chain;
  }

  /** All the room there is lies in the last node. */
  lemma {:induction false} Room(chain: seq<Node>, parts: seq<seq<Byte>>, k: nat)
    requires Chained(chain, parts) && k < |chain|
    ensures Caps(chain[..k + 1]) == |Flatten(parts[..k + 1])| + (chain[k].cap - chain[k].length)
    ensures chain[k].length <= chain[k].cap
  {
    hide Chained, Nodes;
    NodeAt(chain, parts, k);
    FlattenGrows(parts, k);
    assert chain[..k + 1][..k] == chain[..k];
    if k > 0 {
      NodeAt(chain, parts, k - 1);
      Room(chain, parts, k - 1);
    }
  }

  lemma {:induction false} CapsEqual(a: seq<Node>, b: seq<Node>)
    requires |a| == |b| && forall i | 0 <= i < |a| :: a[i].cap == b[i].cap
    ensures Caps(a) == Caps(b)
  {
    if a != [] {
      CapsEqual(a[..|a| - 1], b[..|b| - 1]);
    }
  }

  ghost predicate NewTo(node: Node, chain: seq<Node>) {
    forall i | 0 <= i < |chain| :: chain[i] != node && chain[i].buffer != node.buffer
  }

  lemma {:induction false} NewNodeApart(node: Node, chain: seq<Node>)
    requires NewTo(node, chain)
    ensures node !in Nodes(chain) && node.buffer !in Nodes(chain)
  {
    if chain != [] {
      NewNodeApart(node, chain[..|chain| - 1]);
    }
  }

  lemma {:induction false} NodesAllocated(chain: seq<Node>)
    ensures allocated(Nodes(chain))
  {
    if chain != [] {
      NodesAllocated(chain[..|chain| - 1]);
    }
  }

  lemma BufferApart(b: AbstractByteBuffer, chain: seq<Node>)
    ensures b !in Nodes(chain)
  {
    assert b is AbstractByteBuffer;
  }

  lemma NodesGrow(chain: seq<Node>, node: Node)
    ensures Nodes(chain + [node]) == Nodes(chain) + {node as object, node.buffer as object}
  {
    assert (chain + [node])[..|chain|] == chain;
  }

  /** Copies bytes behind those already in the last node. */
  method Append(node: Node, pos: nat, data: seq<Byte>, ghost chain: seq<Node>, ghost parts: seq<seq<Byte>>)
    requires Chained(chain, parts) && node == chain[|chain| - 1]
    requires pos == node.length && |data| <= node.cap - node.length
    modifies node`length, node.buffer
    ensures Chained(chain, parts[|parts| - 1 := parts[|parts| - 1] + data])
    ensures node.length == old(node.length) + |data|
  {
    ghost var last := |chain| - 1;
    assert node.buffer[..pos] == parts[last];
    MemCpy(node.buffer, pos, data);
    node.length := node.length + |data|;
    assert node.buffer[..node.length] == parts[last] + data;
  }

  /** Links a node behind a full last one. */
  method Attach(last: Node, node: Node, ghost part: seq<Byte>, ghost chain: seq<Node>, ghost parts: seq<seq<Byte>>)
    requires Chained(chain, parts) && last == chain[|chain| - 1] && last.length == last.cap
    requires NewTo(node, chain) && node.next == null
    requires node.buffer.Length == node.cap >= node.length && node.buffer[..node.length] == part
    modifies last`next
    ensures Chained(chain + [node], parts + [part])
  {
    hide Nodes;
    last.next := node;
  }

  lemma CopyStarts(parts: seq<seq<Byte>>, node: Node)
    requires |parts| > 0 && node.next == null && node.buffer.Length == node.cap >= node.length
    requires node.buffer[..node.length] == parts[0]
    ensures Chained([node], parts[..1]) && Nodes([node]) == {node as object, node.buffer as object}
  {
    assert [node][..0] == [];
  }

  /** Links a new empty node behind a full last one. */
  method Extend(last: Node, size: nat, ghost chain: seq<Node>, ghost parts: seq<seq<Byte>>) returns (node: Node)
    requires Chained(chain, parts) && last == chain[|chain| - 1] && last.length == last.cap
    modifies last`next
    ensures fresh(node) && fresh(node.buffer) && node.length == 0 && node.cap == size
    ensures Chained(chain + [node], parts + [[]]) && Caps(chain + [node]) == Caps(chain) + size
  {
    hide Chained, Caps, Nodes;
    NodesAllocated(chain);
    node := new Node(size);
    CapsGrow(chain, node);
    Attach(last, node, [], chain, parts);
  }

  method CopyNode(node: Node) returns (sub: Node)
    requires node.length <= node.cap == node.buffer.Length
    ensures fresh(sub) && fresh(sub.buffer) && sub.next == null
    ensures sub.length == node.length && sub.cap == node.cap == sub.buffer.Length
    ensures sub.buffer[..sub.length] == node.buffer[..node.length]
  {
    sub := new Node(node.cap);
    sub.length := node.length;
    MemCpy(sub.buffer, 0, node.buffer[..node.length]);
  }

  /** Copies one node behind the copies made so far. */
  method CopyNext(node: Node, last: Node, ghost copies: seq<Node>, ghost parts: seq<seq<Byte>>, ghost k: nat)
    returns (sub: Node)
    requires 0 < k == |copies| < |parts| && node.length <= node.cap == node.buffer.Length
    requires node.buffer[..node.length] == parts[k]
    requires Chained(copies, parts[..k]) && last == copies[k - 1] && last.length == last.cap
    modifies last`next
    ensures Chained(copies + [sub], parts[..k + 1]) && fresh(sub) && fresh(sub.buffer) && sub.cap == node.cap
    ensures Nodes(copies + [sub]) == Nodes(copies) + {sub as object, sub.buffer as object}
  {
    hide Chained, Caps, Nodes;
    NodesAllocated(copies);
    NodesGrow(copies, node);
    sub := CopyNode(node);
    Attach(last, sub, parts[k], copies, parts[..k]);
    NodesGrow(copies, sub);
    assert parts[..k + 1] == parts[..k] + [parts[k]];
  }

  method CopyChain(root: Node, writeNode: Node, readNode: Node, ghost chain: seq<Node>, ghost parts: seq<seq<Byte>>, ghost reading: nat)
    returns (root': Node, writeNode': Node, readNode': Node, ghost copies: seq<Node>)
    requires Chained(chain, parts) && reading < |chain|
    requires root == chain[0] && writeNode == chain[|chain| - 1] && readNode == chain[reading]
    ensures Chained(chain, parts) && Chained(copies, parts) && fresh(Nodes(copies))
    ensures |copies| == |chain| && root' == copies[0] && writeNode' == copies[|copies| - 1] && readNode' == copies[reading]
    ensures writeNode'.cap == writeNode.cap && Caps(copies) == Caps(chain)
  {
    hide Chained, Caps, Nodes;
    NodesAllocated(chain);
    NodeAt(chain, parts, 0);
    root' := CopyNode(root);
    writeNode', readNode', copies := root', root', [root'];
    CopyStarts(parts, root');
    var last, node := root', root.next;
    ghost var k := 1;
    while node != null
      invariant Chained(chain, parts) && 1 <= k == |copies| <= |chain| == |parts|
      invariant node == if k < |chain| then chain[k] else null
      invariant Chained(copies, parts[..k]) && fresh(Nodes(copies))
      invariant root' == copies[0] && last == copies[k - 1]
      invariant forall i | 0 <= i < k :: copies[i].cap == chain[i].cap
      invariant writeNode' == if k == |chain| then last else root'
      invariant readNode' == if reading < k then copies[reading] else root'
      decreases |chain| - k
    {
      NodeAt(chain, parts, k);
      NodeAt(chain, parts, k - 1);
      NodeAt(copies, parts[..k], k - 1);
      SameNode(chain, parts, k, reading);
      var sub := CopyNext(node, last, copies, parts, k);
      if node == writeNode {
        writeNode' := sub;
      }
      if node == readNode {
        readNode' := sub;
      }
      copies := copies + [sub];
      last := sub;
      node := node.next;
      k := k + 1;
    }
    assert parts[..k] == parts;
    CapsEqual(copies, chain);
  }

  lemma SameNode(chain: seq<Node>, parts: seq<seq<Byte>>, j: nat, k: nat)
    requires Chained(chain, parts) && j < |chain| && k < |chain|
    ensures chain[j] == chain[k] <==> j == k
  {
  }

  lemma MoreUnits(units: nat, factor: nat)
    ensures (units + 1) * factor == units * factor + factor
  {
  }

  class AbstractByteBuffer {
    var factor: nat
    var root: Node
    var currentWriteNode: Node
    var currentWritePos: nat
    var currentReadNode: Node
    var currentReadPos: nat
    var length: nat
    var cap: nat

    // the nodes in order, what each holds, and which one is being read
    ghost var chain: seq<Node>
    ghost var parts: seq<seq<Byte>>
    ghost var reading: nat

    /** Where writing goes on, and what is counted. */
    ghost predicate Writer()
      reads `chain, `parts, `factor, `root, `currentWriteNode, `currentWritePos, `length, `cap, Nodes(chain)
    {
      && |chain| == |parts| > 0 && factor > 0
      && root == chain[0] && currentWriteNode == chain[|chain| - 1] && currentWritePos == currentWriteNode.length
      && length == |Flatten(parts[..|parts| - 1])| && (|chain| > 1 ==> currentWriteNode.cap > 0)
      && cap == Caps(chain)
    }

    /** Where reading goes on. */
    ghost predicate Reader()
      reads `chain, `parts, `reading, `currentReadNode, `currentReadPos
    {
      reading < |chain| == |parts| && currentReadNode == chain[reading] && currentReadPos <= |parts[reading]|
    }

    ghost predicate Pointers()
      reads this, Nodes(chain)
    {
      Writer() && Reader()
    }

    /** Between operations every node but the root also holds something. */
    ghost predicate Valid()
      reads this, Nodes(chain)
    {
      Chained(chain, parts) && Pointers() && forall i | 0 < i < |parts| :: parts[i] != []
    }

    ghost function Abs(): (s: Stream)
      reads this
      requires reading < |parts| && currentReadPos <= |parts[reading]|
      ensures Sound(s)
    {
      StreamAt(parts, reading, currentReadPos)
    }

    constructor (baseSize: nat, growBy: nat)
      requires growBy > 0
      ensures Valid() && fresh(Nodes(chain)) && Abs() == Stream([], 0)
      ensures cap == baseSize && factor == growBy
    {
      var node := new Node(baseSize);
      root := node;
      cap := baseSize;
      currentWriteNode, currentReadNode := node, node;
      factor := growBy;
      currentWritePos, currentReadPos, length := 0, 0, 0;
      chain, parts, reading := [node], [[]], 0;
    }

    /** A copy has memory of its own and the same contents, cursor and place to write. */
    constructor Copy(src: AbstractByteBuffer)
      requires src.Valid()
      ensures Valid() && fresh(Nodes(chain)) && Abs() == src.Abs() && parts == src.parts
    {
      hide Chained, Caps, Flatten, Nodes, StreamAt;
      NodeAt(src.chain, src.parts, |src.chain| - 1);
      var first, writeNode, readNode, nodes :=
        CopyChain(src.root, src.currentWriteNode, src.currentReadNode, src.chain, src.parts, src.reading);
      root, currentWriteNode, currentReadNode := first, writeNode, readNode;
      NodeAt(nodes, src.parts, |nodes| - 1);
      cap, length, factor := src.cap, src.length, src.factor;
      currentReadPos, currentWritePos := src.currentReadPos, src.currentWritePos;
      chain, parts, reading := nodes, src.parts, src.reading;
      new;
      BufferApart(this, chain);
    }

    method ResetPos()
      requires Valid()
      modifies `currentReadNode, `currentReadPos, `reading
      ensures Valid() && Abs() == After(old(Abs()), Op.ResetPos)
    {
      hide Chained, Caps, Nodes;
      BufferApart(this, chain);
      currentReadNode := root;
      currentReadPos := 0;
      reading := 0;
    }

    /** Having moved over what comes next is what reading or skipping it means. */
    lemma Moved(was: Stream, n: nat, data: seq<Byte>)
      requires Sound(was) && was.contents == Flatten(parts) && data == Next(was, n)
      requires Delivered(parts, was.cursor, reading, currentReadPos, data)
      ensures Abs() == After(was, Op.Read(n)) == After(was, Op.Trunc(n))
      ensures data == Output(was, Op.Read(n))
    {
    }

    method Read(n: nat) returns (data: seq<Byte>)
      requires Valid()
      modifies `currentReadNode, `currentReadPos, `reading
      ensures Valid() && data == Output(old(Abs()), Op.Read(n)) && Abs() == After(old(Abs()), Op.Read(n))
    {
      hide Chained, Caps, Flatten, Delivered, StreamAt, Next, Nodes, After, Output;
      ghost var was := Abs();
      BufferApart(this, chain);
      DeliverNone(parts, reading, currentReadPos);
      data := [];
      var needRead: nat := n;
      while true
        invariant |data| + needRead == n && Valid() && Delivered(parts, was.cursor, reading, currentReadPos, data)
        decreases |chain| - reading
      {
        NodeAt(chain, parts, reading);
        var remaining := currentReadNode.length - currentReadPos;
        DeliverMore(parts, was.cursor, reading, currentReadPos, data, if needRead <= remaining then needRead else remaining);
        if needRead <= remaining {
          data := data + currentReadNode.buffer[currentReadPos..currentReadPos + needRead];
          currentReadPos := currentReadPos + needRead;
          break;
        } else {
          data := data + currentReadNode.buffer[currentReadPos..currentReadPos + remaining];
          needRead := needRead - remaining;
          currentReadPos := currentReadPos + remaining;
          if currentReadNode == currentWriteNode {
            break;
          } else {
            DeliverOn(parts, was.cursor, reading, data);
            currentReadNode := currentReadNode.next;
            currentReadPos := 0;
            reading := reading + 1;
            assert Chained(chain, parts);
          }
        }
      }
      DeliverAll(was, n, parts, reading, currentReadPos, data);
      Moved(was, n, data);
    }

    /** The next bytes, without moving. */
    method Peek(n: nat) returns (data: seq<Byte>)
      requires Valid()
      ensures data == Output(Abs(), Op.Peek(n))
    {
      hide Chained, Caps, Flatten, Delivered, StreamAt, Next, Nodes;
      DeliverNone(parts, reading, currentReadPos);
      var node, pos: nat := currentReadNode, currentReadPos;
      ghost var k := reading;
      data := [];
      var needRead: nat := n;
      while true
        invariant Valid() && |data| + needRead == n && k < |chain| && node == chain[k] && pos <= |parts[k]|
        invariant Delivered(parts, Abs().cursor, k, pos, data)
        decreases |chain| - k
      {
        NodeAt(chain, parts, k);
        var remaining := node.length - pos;
        DeliverMore(parts, Abs().cursor, k, pos, data, if needRead <= remaining then needRead else remaining);
        if needRead <= remaining {
          data := data + node.buffer[pos..pos + needRead];
          pos := pos + needRead;
          break;
        } else {
          data := data + node.buffer[pos..pos + remaining];
          needRead := needRead - remaining;
          pos := pos + remaining;
          if node == currentWriteNode {
            break;
          } else {
            DeliverOn(parts, Abs().cursor, k, data);
            node := node.next;
            pos := 0;
            k := k + 1;
          }
        }
      }
      DeliverAll(Abs(), n, parts, k, pos, data);
    }

    /** Skips bytes as a read would take them. */
    method Trunc(n: nat) returns (actualRead: nat)
      requires Valid()
      modifies `currentReadNode, `currentReadPos, `reading
      ensures Valid() && Abs() == After(old(Abs()), Op.Trunc(n))
      ensures actualRead == |Output(old(Abs()), Op.Read(n))|
    {
      hide Chained, Caps, Flatten, Delivered, StreamAt, Next, Nodes, After, Output;
      ghost var was := Abs();
      BufferApart(this, chain);
      DeliverNone(parts, reading, currentReadPos);
      ghost var data := [];
      actualRead := 0;
      var needRead: nat := n;
      while true
        invariant actualRead + needRead == n && actualRead == |data|
        invariant Valid() && Delivered(parts, was.cursor, reading, currentReadPos, data)
        decreases |chain| - reading
      {
        NodeAt(chain, parts, reading);
        var remaining := currentReadNode.length - currentReadPos;
        ghost var skipped := if needRead <= remaining then needRead else remaining;
        DeliverMore(parts, was.cursor, reading, currentReadPos, data, skipped);
        data := data + parts[reading][currentReadPos..currentReadPos + skipped];
        if needRead <= remaining {
          actualRead := actualRead + needRead;
          currentReadPos := currentReadPos + needRead;
          break;
        } else {
          actualRead := actualRead + remaining;
          needRead := needRead - remaining;
          currentReadPos := currentReadPos + remaining;
          if currentReadNode == currentWriteNode {
            break;
          } else {
            DeliverOn(parts, was.cursor, reading, data);
            currentReadNode := currentReadNode.next;
            currentReadPos := 0;
            reading := reading + 1;
            assert Chained(chain, parts);
          }
        }
      }
      DeliverAll(was, n, parts, reading, currentReadPos, data);
      Moved(was, n, data);
    }

    method Eof() returns (eof: bool)
      requires Valid()
      ensures eof <==> Unread(Abs()) == []
    {
      hide Chained, Caps, Flatten, Nodes;
      NodeAt(chain, parts, reading);
      UnreadFrom(parts, reading, currentReadPos, |parts[reading]| - currentReadPos);
      if currentReadNode.length - currentReadPos != 0 {
        return false;
      }
      if currentReadNode.next != null {
        NodeAt(chain, parts, reading + 1);
        UnreadFrom(parts, reading + 1, 0, |parts[reading + 1]|);
        if currentReadNode.next.length != 0 {
          return false;
        }
      }
      return true;
    }

    method GetReadableSize() returns (size: nat)
      requires Valid()
      ensures size == |Unread(Abs())|
    {
      hide Chained, Caps, Flatten, Nodes;
      NodeAt(chain, parts, reading);
      FlattenGrows(parts, reading);
      size := currentReadNode.length - currentReadPos;
      var node := currentReadNode.next;
      ghost var k := reading + 1;
      while node != null
        invariant Valid() && reading < k <= |chain| && node == if k < |chain| then chain[k] else null
        invariant size + Abs().cursor == |Flatten(parts[..k])|
        decreases |chain| - k
      {
        NodeAt(chain, parts, k);
        FlattenGrows(parts, k);
        if node == currentWriteNode {
          size := size + currentWritePos;
        } else {
          size := size + node.cap;
        }
        node := node.next;
        k := k + 1;
      }
      assert parts[..k] == parts;
    }

    /** How much memory there is. */
    method GetCapacity() returns (size: nat)
      requires Valid()
      ensures size == Caps(chain)
    {
      size := cap;
    }

    /** How much has been written in all. */
    method GetLength() returns (size: nat)
      requires Valid()
      ensures size == |Abs().contents|
    {
      hide Chained, Caps, Flatten, Nodes;
      NodeAt(chain, parts, |chain| - 1);
      FlattenGrows(parts, |parts| - 1);
      assert parts[..|parts|] == parts;
      size := length + currentWriteNode.length;
    }

    /** Between two units of a write the last node may still be empty. */
    ghost predicate Writing(unfinished: bool)
      reads this, Nodes(chain)
    {
      Chained(chain, parts) && Pointers() && forall i | 0 < i < |parts| :: parts[i] != [] || (i == |parts| - 1 && unfinished)
    }

    /** Copies into the node being written. */
    method Fill(data: seq<Byte>, ghost unfinished: bool)
      requires Writing(unfinished) && |data| <= currentWriteNode.cap - currentWriteNode.length
      modifies this`currentWritePos, this`parts, currentWriteNode`length, currentWriteNode.buffer
      ensures Writing(unfinished && data == []) && Abs() == After(old(Abs()), Op.Write(data))
      ensures currentWriteNode.length == old(currentWriteNode.length) + |data|
    {
      hide Chained, Caps, Flatten, Nodes, StreamAt;
      BufferApart(this, chain);
      NodeAt(chain, parts, |chain| - 1);
      FlattenExtendLast(parts, data);
      Append(currentWriteNode, currentWritePos, data, chain, parts);
      currentWritePos := currentWritePos + |data|;
      parts := parts[|parts| - 1 := parts[|parts| - 1] + data];
    }

    /** Switches to a new unit once the last is full. */
    method Switch()
      requires Writing(true) && currentWriteNode.length == currentWriteNode.cap
      modifies this, currentWriteNode`next
      ensures Writing(true) && Abs() == old(Abs())
      ensures chain == old(chain) + [currentWriteNode] && fresh(currentWriteNode) && fresh(currentWriteNode.buffer)
      ensures currentWriteNode.length == 0 < currentWriteNode.cap == factor == old(factor) && cap == old(cap) + factor
    {
      hide Chained, Caps, Flatten, StreamAt, Nodes;
      BufferApart(this, chain);
      NodeAt(chain, parts, |chain| - 1);
      SwitchParts(parts, reading, currentReadPos);
      length := length + currentWriteNode.cap;
      cap := cap + factor;
      currentWritePos := 0;
      assert Chained(chain, parts);
      var node := Extend(currentWriteNode, factor, chain, parts);
      currentWriteNode := node;
      chain, parts := chain + [node], parts + [[]];
      BufferApart(this, chain);
      assert Chained(chain, parts);
    }

    lemma RoomLeft()
      requires Chained(chain, parts) && Pointers()
      ensures cap == |Abs().contents| + (currentWriteNode.cap - currentWriteNode.length)
      ensures currentWriteNode.length <= currentWriteNode.cap
    {
      hide Chained, Caps, Flatten, Nodes;
      Room(chain, parts, |chain| - 1);
      assert chain[..|chain|] == chain && parts[..|parts|] == parts;
    }

    /** Memory is added in units of the growth factor, no more of them than it takes. */
    method Write(buffer: seq<Byte>) returns (actualWrite: nat)
      requires Valid()
      modifies this, Nodes(chain)
      ensures Valid() && fresh(Nodes(chain) - old(Nodes(chain))) && actualWrite == |buffer|
      ensures Abs() == After(old(Abs()), Op.Write(buffer))
      ensures factor == old(factor) && cap >= |Abs().contents| && (cap > old(cap) ==> cap - factor < |Abs().contents|)
      ensures exists units: nat :: cap == old(cap) + units * factor
    {
      hide Chained, Caps, Flatten, Nodes, StreamAt;
      actualWrite := 0;
      ghost var units: nat := 0;
      var needWrite: nat := |buffer|;
      ghost var was := Abs();
      assert was.contents + buffer[..0] == was.contents;
      while true
        invariant actualWrite + needWrite == |buffer|
        invariant Writing(needWrite > 0) && fresh(Nodes(chain) - old(Nodes(chain)))
        invariant Abs() == was.(contents := was.contents + buffer[..actualWrite])
        invariant factor == old(factor) && cap == old(cap) + units * factor
        invariant units > 0 ==> needWrite > 0 && currentWriteNode.cap == factor
        decreases needWrite, |chain| == 1, currentWriteNode.length
      {
        NodeAt(chain, parts, |chain| - 1);
        var remaining := currentWriteNode.cap - currentWriteNode.length;
        if needWrite <= remaining {
          Fill(buffer[actualWrite..actualWrite + needWrite], needWrite > 0);
          actualWrite := actualWrite + needWrite;
          RoomLeft();
          break;
        } else {
          Fill(buffer[actualWrite..actualWrite + remaining], true);
          actualWrite := actualWrite + remaining;
          needWrite := needWrite - remaining;
          ghost var before := chain;
          Switch();
          NodesGrow(before, currentWriteNode);
          MoreUnits(units, factor);
          units := units + 1;
        }
      }
    }
  }
}
