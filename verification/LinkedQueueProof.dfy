/** Shape of the lock-free queue in every reachable state, and linearizability of every run. */
module LinkedQueueProof {
  import opened Common
  import opened Linearizability
  import opened LinkedQueue

  /** All nodes ever linked, oldest first, and the position of each. */
  datatype Chain = Chain(order: seq<nat>, rank: map<nat, nat>)

  ghost predicate IsChain<T>(s: State<T>, ch: Chain) {
    && |ch.order| > 0
    && (forall i | 0 <= i < |ch.order| ::
          ch.order[i] < |s.nodes| && ch.order[i] in ch.rank && ch.rank[ch.order[i]] == i)
    && (forall x | x in ch.rank :: ch.rank[x] < |ch.order| && ch.order[ch.rank[x]] == x)
    && (forall i {:trigger s.nodes[ch.order[i]]} | 0 <= i < |ch.order| ::
          s.nodes[ch.order[i]].next == if i + 1 < |ch.order| then Some(ch.order[i + 1]) else None)
  }

  /** `tail` is reachable from `head`, and is the last or the last but one linked node. */
  ghost predicate Shape<T>(s: State<T>, ch: Chain) {
    && IsChain(s, ch)
    && s.head in ch.rank && s.tail in ch.rank
    && ch.rank[s.head] <= ch.rank[s.tail] < |ch.order| <= ch.rank[s.tail] + 2
  }

  /** The queued values: those of the nodes after `head`. */
  ghost function Contents<T>(s: State<T>, ch: Chain): seq<T>
    requires Shape(s, ch)
  {
    var first := ch.rank[s.head] + 1;
    seq(|ch.order| - first, i requires 0 <= i < |ch.order| - first => s.nodes[ch.order[first + i]].value)
  }

  /** The node a pushing thread has allocated and not yet linked. */
  function Own<T>(pc: Pc<T>): Option<nat> {
    match pc
    case PushLoadTail(_, node) => Some(node)
    case PushLoadNext(_, node, _) => Some(node)
    case PushCheckTail(_, node, _, _) => Some(node)
    case PushLink(_, node, _) => Some(node)
    case PushHelp(_, node, _, _) => Some(node)
    case _ => None
  }

  function Pushing<T>(pc: Pc<T>): Option<T> {
    match pc
    case PushLoadTail(v, _) => Some(v)
    case PushLoadNext(v, _, _) => Some(v)
    case PushCheckTail(v, _, _, _) => Some(v)
    case PushLink(v, _, _) => Some(v)
    case PushHelp(v, _, _, _) => Some(v)
    case _ => None
  }

  ghost predicate Follows(ch: Chain, x: nat, y: nat) {
    x in ch.rank && y in ch.rank && ch.rank[y] == ch.rank[x] + 1
  }

  /** What a thread's locals still mean, however stale they are. */
  ghost predicate Local<T>(s: State<T>, ch: Chain, pc: Pc<T>)
    requires Shape(s, ch)
  {
    var hp, tp := ch.rank[s.head], ch.rank[s.tail];
    && (Own(pc).Some? ==>
          var node := Own(pc).value;
          node < |s.nodes| && node !in ch.rank && s.nodes[node] == Node(Pushing(pc).value, None))
    && match pc
       case PushLoadNext(_, _, tail) => tail in ch.rank && ch.rank[tail] <= tp
       case PushCheckTail(_, _, tail, next) =>
         tail in ch.rank && ch.rank[tail] <= tp && (next.Some? ==> Follows(ch, tail, next.value))
       case PushLink(_, _, tail) => tail in ch.rank && ch.rank[tail] <= tp
       case PushHelp(_, _, tail, hop) => Follows(ch, tail, hop)
       case PushSwing(_, node, tail) => Follows(ch, tail, node)
       case PopLoadTail(head) => head in ch.rank && ch.rank[head] <= hp
       case PopLoadNext(head, tail) =>
         && head in ch.rank && tail in ch.rank
         && ch.rank[head] <= hp && ch.rank[head] <= ch.rank[tail] <= tp
       case PopCheckHead(head, tail, next) =>
         && head in ch.rank && tail in ch.rank
         && ch.rank[head] <= hp && ch.rank[head] <= ch.rank[tail] <= tp
         && (next.Some? ==> Follows(ch, head, next.value))
         && (head != tail ==> next.Some?)
       case PopHelp(tail, hop) => Follows(ch, tail, hop)
       case PopLoadValue(head, next) =>
         next.Some? && Follows(ch, head, next.value) && ch.rank[head] < tp
       case PopUnlink(head, hop, v) =>
         hop < |s.nodes| && Follows(ch, head, hop) && ch.rank[head] < tp && v == s.nodes[hop].value
       case Crashed => false
       case _ => true
  }

  ghost predicate Inv<T>(s: State<T>, ch: Chain) {
    && Allocated(s)
    && Shape(s, ch)
    && (forall i | 0 <= i < |s.threads| :: Local(s, ch, s.threads[i]))
    && (forall i, j | 0 <= i < j < |s.threads| ::
          Own(s.threads[i]).None? || Own(s.threads[i]) != Own(s.threads[j]))
  }

  /** Values are never overwritten, a `next` once set stays, and the chain, `head`
      and `tail` only move forward. */
  ghost predicate Later<T>(s: State<T>, ch: Chain, s': State<T>, ch': Chain)
    requires Shape(s, ch) && Shape(s', ch')
  {
    && |s.nodes| <= |s'.nodes|
    && (forall i | 0 <= i < |s.nodes| ::
          && s'.nodes[i].value == s.nodes[i].value
          && (s.nodes[i].next.Some? ==> s'.nodes[i].next == s.nodes[i].next))
    && ch.order <= ch'.order
    && (forall x | x in ch.rank :: x in ch'.rank && ch'.rank[x] == ch.rank[x])
    && ch.rank[s.head] <= ch'.rank[s'.head]
    && ch.rank[s.tail] <= ch'.rank[s'.tail]
  }

  lemma LocalLater<T>(s: State<T>, ch: Chain, s': State<T>, ch': Chain, pc: Pc<T>)
    requires Shape(s, ch) && Shape(s', ch') && Later(s, ch, s', ch') && Local(s, ch, pc)
    requires Own(pc).Some? ==> Own(pc).value !in ch'.rank && s'.nodes[Own(pc).value].next.None?
    ensures Local(s', ch', pc)
  {
  }

  /** A `next` in the chain is null at the end only, and otherwise names the follower. */
  lemma NextInChain<T>(s: State<T>, ch: Chain, x: nat)
    requires IsChain(s, ch) && x in ch.rank
    ensures x < |s.nodes|
    ensures s.nodes[x].next.None? <==> ch.rank[x] == |ch.order| - 1
    ensures s.nodes[x].next.Some? ==> Follows(ch, x, s.nodes[x].next.value)
  {
    assert s.nodes[ch.order[ch.rank[x]]] == s.nodes[x];
  }

  lemma RankInjective<T>(s: State<T>, ch: Chain, x: nat, y: nat)
    requires IsChain(s, ch) && x in ch.rank && y in ch.rank && ch.rank[x] == ch.rank[y]
    ensures x == y
  {
    assert ch.order[ch.rank[x]] == x && ch.order[ch.rank[y]] == y;
  }

  /** What one step does to the shared memory. */
  datatype Write<+T> = NoWrite | Allocate(v: T) | Link(at: nat, node: nat) | SwingTail(to: nat) | SwingHead(to: nat)

  ghost function WriteOf<T>(s: State<T>, c: Choice<T>): Write<T>
    requires Allocated(s) && c.tid < |s.threads|
  {
    match s.threads[c.tid]
    case Ready => if c.call.Push? then Allocate(c.call.value) else NoWrite
    case PushLink(_, node, tail) => if s.nodes[tail].next.None? && !c.fails then Link(tail, node) else NoWrite
    case PushHelp(_, _, tail, hop) => if s.tail == tail && !c.fails then SwingTail(hop) else NoWrite
    case PushSwing(_, node, tail) => if s.tail == tail && !c.fails then SwingTail(node) else NoWrite
    case PopHelp(tail, hop) => if s.tail == tail && !c.fails then SwingTail(hop) else NoWrite
    case PopUnlink(head, hop, _) => if s.head == head && !c.fails then SwingHead(hop) else NoWrite
    case _ => NoWrite
  }

  ghost predicate Wrote<T>(s: State<T>, w: Write<T>, s': State<T>) {
    match w
    case NoWrite => s'.nodes == s.nodes && s'.head == s.head && s'.tail == s.tail
    case Allocate(v) => s'.nodes == s.nodes + [Node(v, None)] && s'.head == s.head && s'.tail == s.tail
    case Link(at, node) =>
      && at < |s.nodes| && s'.head == s.head && s'.tail == s.tail
      && s'.nodes == s.nodes[at := s.nodes[at].(next := Some(node))]
    case SwingTail(to) => s'.nodes == s.nodes && s'.head == s.head && s'.tail == to
    case SwingHead(to) => s'.nodes == s.nodes && s'.head == to && s'.tail == s.tail
  }

  /** When a write keeps the shape. */
  ghost predicate Safe<T>(s: State<T>, ch: Chain, w: Write<T>)
    requires Shape(s, ch)
  {
    match w
    case NoWrite => true
    case Allocate(_) => true
    case Link(at, node) =>
      at in ch.rank && ch.rank[at] == ch.rank[s.tail] == |ch.order| - 1 && node < |s.nodes| && node !in ch.rank && s.nodes[node].next.None?
    case SwingTail(to) => Follows(ch, s.tail, to)
    case SwingHead(to) => Follows(ch, s.head, to) && ch.rank[s.head] < ch.rank[s.tail]
  }

  ghost function Grown<T>(ch: Chain, w: Write<T>): Chain {
    if w.Link? then Chain(ch.order + [w.node], ch.rank[w.node := |ch.order|]) else ch
  }

  lemma StepWrites<T>(s: State<T>, c: Choice<T>)
    requires Allocated(s) && c.tid < |s.threads|
    ensures Wrote(s, WriteOf(s, c), Step(s, c).state)
    ensures |Step(s, c).state.threads| == |s.threads|
    ensures forall i | 0 <= i < |s.threads| && i != c.tid :: Step(s, c).state.threads[i] == s.threads[i]
  {
  }

  lemma StepSafe<T>(s: State<T>, ch: Chain, c: Choice<T>)
    requires Allocated(s) && Shape(s, ch) && c.tid < |s.threads| && Local(s, ch, s.threads[c.tid])
    ensures Safe(s, ch, WriteOf(s, c))
  {
    var pc := s.threads[c.tid];
    if pc.PushLink? {
      NextInChain(s, ch, pc.tail);
    }
  }

  /** A safe write keeps the shape, only moves things forward, and acts on the queued values. */
  lemma SafeWrite<T>(s: State<T>, ch: Chain, w: Write<T>, s': State<T>)
    requires Shape(s, ch) && Safe(s, ch, w) && Wrote(s, w, s')
    ensures Shape(s', Grown(ch, w)) && Later(s, ch, s', Grown(ch, w))
    ensures w.Link? ==> Contents(s', Grown(ch, w)) == Contents(s, ch) + [s.nodes[w.node].value]
    ensures w.SwingHead? ==>
              w.to < |s.nodes| && Contents(s, ch) == [s.nodes[w.to].value] + Contents(s', Grown(ch, w))
    ensures !w.Link? && !w.SwingHead? ==> Contents(s', Grown(ch, w)) == Contents(s, ch)
  {
    match w
    case Link(at, node) =>
      LinkKeepsShape(s, ch, w, s');
      LinkAppends(s, ch, w, s');
    case Allocate(v) =>
      AllocateKeepsShape(s, ch, w, s');
    case SwingHead(to) =>
      SwingHeadDrops(s, ch, w, s');
    case _ =>
  }

  lemma AllocateKeepsShape<T>(s: State<T>, ch: Chain, w: Write<T>, s': State<T>)
    requires w.Allocate? && Shape(s, ch) && Wrote(s, w, s')
    ensures Shape(s', ch) && Later(s, ch, s', ch)
    ensures Contents(s', ch) == Contents(s, ch)
  {
    assert forall x | 0 <= x < |s.nodes| :: s'.nodes[x] == s.nodes[x];
    assert IsChain(s', ch) by {
      forall i | 0 <= i < |ch.order|
        ensures ch.order[i] < |s'.nodes|
        ensures s'.nodes[ch.order[i]].next == if i + 1 < |ch.order| then Some(ch.order[i + 1]) else None
      {
        assert s'.nodes[ch.order[i]] == s.nodes[ch.order[i]];
      }
    }
    assert Shape(s', ch);
    var first := ch.rank[s.head] + 1;
    forall i | 0 <= i < |ch.order| - first
      ensures Contents(s', ch)[i] == Contents(s, ch)[i]
    {
      assert s'.nodes[ch.order[first + i]] == s.nodes[ch.order[first + i]];
    }
  }

  lemma SwingHeadDrops<T>(s: State<T>, ch: Chain, w: Write<T>, s': State<T>)
    requires w.SwingHead? && Shape(s, ch) && Safe(s, ch, w) && Wrote(s, w, s')
    ensures Shape(s', ch) && Later(s, ch, s', ch)
    ensures w.to < |s.nodes| && Contents(s, ch) == [s.nodes[w.to].value] + Contents(s', ch)
  {
    assert ch.order[ch.rank[w.to]] == w.to;
    assert IsChain(s', ch);
  }

  lemma LinkKeepsShape<T>(s: State<T>, ch: Chain, w: Write<T>, s': State<T>)
    requires w.Link? && Shape(s, ch) && Safe(s, ch, w) && Wrote(s, w, s')
    ensures Shape(s', Grown(ch, w)) && Later(s, ch, s', Grown(ch, w))
  {
    var ch' := Grown(ch, w);
    var last := |ch.order| - 1;
    NextInChain(s, ch, w.at);
    assert forall i | 0 <= i < |ch.order| :: ch'.order[i] == ch.order[i];
    forall i | 0 <= i < |ch'.order|
      ensures s'.nodes[ch'.order[i]].next == if i + 1 < |ch'.order| then Some(ch'.order[i + 1]) else None
    {
      if i < last {
        assert ch.order[i] != ch.order[last];
        assert s.nodes[ch.order[i]].next == Some(ch.order[i + 1]);
      }
    }
    assert IsChain(s', ch');
  }

  lemma LinkAppends<T>(s: State<T>, ch: Chain, w: Write<T>, s': State<T>)
    requires w.Link? && Shape(s, ch) && Safe(s, ch, w) && Wrote(s, w, s')
    requires Shape(s', Grown(ch, w))
    ensures Contents(s', Grown(ch, w)) == Contents(s, ch) + [s.nodes[w.node].value]
  {
    var ch' := Grown(ch, w);
    assert forall i | 0 <= i < |ch.order| :: ch'.order[i] == ch.order[i];
    assert forall i | 0 <= i < |s.nodes| :: s'.nodes[i].value == s.nodes[i].value;
  }

  /** The effect of a step on the abstract queue: a push at its link, a pop at its unlink. */
  function PointOf<T>(s: State<T>, c: Choice<T>): Option<Effect<T>>
    requires Allocated(s) && c.tid < |s.threads|
  {
    match s.threads[c.tid]
    case PushLink(v, _, tail) =>
      if s.nodes[tail].next.None? && !c.fails then Some(Effect(c.tid, Push(v), Pushed)) else None
    case PopUnlink(head, _, v) =>
      if s.head == head && !c.fails then Some(Effect(c.tid, Pop, Popped(v))) else None
    case _ => None
  }

  ghost function ChainAfter<T>(s: State<T>, ch: Chain, c: Choice<T>): Chain
    requires Allocated(s) && c.tid < |s.threads|
  {
    Grown(ch, WriteOf(s, c))
  }

  /** The shape is kept, and the queued values change as the sequential queue says. */
  lemma ShapeKept<T>(s: State<T>, ch: Chain, c: Choice<T>)
    requires Inv(s, ch) && c.tid < |s.threads|
    ensures Shape(Step(s, c).state, ChainAfter(s, ch, c))
    ensures Later(s, ch, Step(s, c).state, ChainAfter(s, ch, c))
    ensures Some(Contents(Step(s, c).state, ChainAfter(s, ch, c))) ==
            if PointOf(s, c).None? then Some(Contents(s, ch))
            else Apply(Contents(s, ch), PointOf(s, c).value, None)
  {
    StepWrites(s, c);
    assert Local(s, ch, s.threads[c.tid]);
    StepSafe(s, ch, c);
    SafeWrite(s, ch, WriteOf(s, c), Step(s, c).state);
  }

  /** A pop that reads a null `next` reads it at an instant when the queue is empty. */
  lemma NullNextMeansEmpty<T>(s: State<T>, ch: Chain, c: Choice<T>)
    requires Inv(s, ch) && c.tid < |s.threads|
    requires s.threads[c.tid].PopLoadNext? && s.nodes[s.threads[c.tid].head].next.None?
    ensures Contents(s, ch) == []
  {
    assert Local(s, ch, s.threads[c.tid]);
    NextInChain(s, ch, s.threads[c.tid].head);
  }

  /** The moving thread's new locals mean what they should: while pushing. */
  lemma PusherLocal<T>(s: State<T>, ch: Chain, c: Choice<T>, s': State<T>, ch': Chain)
    requires Allocated(s) && Shape(s, ch) && c.tid < |s.threads| && Local(s, ch, s.threads[c.tid])
    requires s' == Step(s, c).state && ch' == ChainAfter(s, ch, c)
    requires Shape(s', ch') && Later(s, ch, s', ch')
    requires Own(s.threads[c.tid]).Some?
    ensures Local(s', ch', s'.threads[c.tid])
  {
    match s.threads[c.tid]
    case PushLoadNext(_, _, tail) => NextInChain(s, ch, tail);
    case PushLink(_, _, _) => LinkerLocal(s, ch, c, s', ch');
    case _ =>
  }

  lemma LinkerLocal<T>(s: State<T>, ch: Chain, c: Choice<T>, s': State<T>, ch': Chain)
    requires Allocated(s) && Shape(s, ch) && c.tid < |s.threads| && Local(s, ch, s.threads[c.tid])
    requires s' == Step(s, c).state && ch' == ChainAfter(s, ch, c)
    requires Shape(s', ch') && Later(s, ch, s', ch')
    requires s.threads[c.tid].PushLink?
    ensures Local(s', ch', s'.threads[c.tid])
  {
    NextInChain(s, ch, s.threads[c.tid].tail);
  }

  /** While popping, the new locals already make sense in the memory before the step. */
  lemma PopperLocal<T>(s: State<T>, ch: Chain, c: Choice<T>)
    requires Allocated(s) && Shape(s, ch) && c.tid < |s.threads| && Local(s, ch, s.threads[c.tid])
    requires Own(s.threads[c.tid]).None? && !s.threads[c.tid].Ready?
    ensures Local(s, ch, Step(s, c).state.threads[c.tid])
    ensures Own(Step(s, c).state.threads[c.tid]).None?
  {
    match s.threads[c.tid]
    case PopLoadNext(_, _) => PopLoadNextLocal(s, ch, c);
    case PopCheckHead(_, _, _) => PopCheckHeadLocal(s, ch, c);
    case PopLoadValue(_, next) => NextInChain(s, ch, next.value);
    case _ =>
  }

  lemma PopLoadNextLocal<T>(s: State<T>, ch: Chain, c: Choice<T>)
    requires Allocated(s) && Shape(s, ch) && c.tid < |s.threads| && Local(s, ch, s.threads[c.tid])
    requires s.threads[c.tid].PopLoadNext?
    ensures Local(s, ch, Step(s, c).state.threads[c.tid]) && Own(Step(s, c).state.threads[c.tid]).None?
  {
    var head, tail := s.threads[c.tid].head, s.threads[c.tid].tail;
    NextInChain(s, ch, head);
    if ch.rank[head] == ch.rank[tail] { RankInjective(s, ch, head, tail); }
  }

  lemma PopCheckHeadLocal<T>(s: State<T>, ch: Chain, c: Choice<T>)
    requires Allocated(s) && Shape(s, ch) && c.tid < |s.threads| && Local(s, ch, s.threads[c.tid])
    requires s.threads[c.tid].PopCheckHead?
    ensures Local(s, ch, Step(s, c).state.threads[c.tid]) && Own(Step(s, c).state.threads[c.tid]).None?
  {
    var head, tail := s.threads[c.tid].head, s.threads[c.tid].tail;
    if ch.rank[head] == ch.rank[tail] { RankInjective(s, ch, head, tail); }
  }

  lemma StarterLocal<T>(s: State<T>, ch: Chain, c: Choice<T>, s': State<T>, ch': Chain)
    requires Allocated(s) && Shape(s, ch) && c.tid < |s.threads| && s.threads[c.tid].Ready?
    requires s' == Step(s, c).state && ch' == ChainAfter(s, ch, c)
    requires Shape(s', ch')
    ensures Local(s', ch', s'.threads[c.tid])
  {
    if |s.nodes| in ch.rank {
      NextInChain(s, ch, |s.nodes|);
    }
  }

  lemma OthersLocal<T>(s: State<T>, ch: Chain, c: Choice<T>, i: nat)
    requires Inv(s, ch) && c.tid < |s.threads| && i < |s.threads| && i != c.tid
    ensures Shape(Step(s, c).state, ChainAfter(s, ch, c))
    ensures Local(Step(s, c).state, ChainAfter(s, ch, c), s.threads[i])
  {
    ShapeKept(s, ch, c);
    StepWrites(s, c);
    var pc := s.threads[i];
    assert Local(s, ch, pc) && Local(s, ch, s.threads[c.tid]);
    assert Own(pc).None? || Own(pc) != Own(s.threads[c.tid]) by {
      var lo, hi := if i < c.tid then i else c.tid, if i < c.tid then c.tid else i;
      assert Own(s.threads[lo]).None? || Own(s.threads[lo]) != Own(s.threads[hi]);
    }
    StepSafe(s, ch, c);
    LocalLater(s, ch, Step(s, c).state, ChainAfter(s, ch, c), pc);
  }

  lemma NewOwnIsFresh<T>(s: State<T>, c: Choice<T>)
    requires Allocated(s) && c.tid < |s.threads|
    ensures var own := Own(Step(s, c).state.threads[c.tid]);
            own.None? || own == Own(s.threads[c.tid]) || own == Some(|s.nodes|)
  {
  }

  lemma OwnersStayApart<T>(s: State<T>, ch: Chain, c: Choice<T>)
    requires Inv(s, ch) && c.tid < |s.threads|
    ensures var s' := Step(s, c).state;
            forall i, j | 0 <= i < j < |s'.threads| ::
              Own(s'.threads[i]).None? || Own(s'.threads[i]) != Own(s'.threads[j])
  {
    StepWrites(s, c);
    NewOwnIsFresh(s, c);
    forall i | 0 <= i < |s.threads| && Own(s.threads[i]).Some?
      ensures Own(s.threads[i]).value < |s.nodes|
    {
      assert Local(s, ch, s.threads[i]);
    }
  }

  lemma InvKept<T>(s: State<T>, ch: Chain, c: Choice<T>)
    requires Inv(s, ch) && c.tid < |s.threads|
    ensures Inv(Step(s, c).state, ChainAfter(s, ch, c))
  {
    var s', ch' := Step(s, c).state, ChainAfter(s, ch, c);
    StepAllocated(s, c);
    ShapeKept(s, ch, c);
    StepWrites(s, c);
    forall i | 0 <= i < |s'.threads|
      ensures Local(s', ch', s'.threads[i])
    {
      if i == c.tid {
        assert Local(s, ch, s.threads[i]);
        if s.threads[i].Ready? {
          StarterLocal(s, ch, c, s', ch');
        } else if Own(s.threads[i]).Some? {
          PusherLocal(s, ch, c, s', ch');
        } else {
          PopperLocal(s, ch, c);
          LocalLater(s, ch, s', ch', s'.threads[i]);
        }
      } else {
        OthersLocal(s, ch, c, i);
      }
    }
    OwnersStayApart(s, ch, c);
  }

  /** What the trace so far must say about a thread standing at `pc`. */
  function StatusOf<T>(pc: Pc<T>): Status<T> {
    match pc
    case Ready => Idle
    case PushSwing(v, _, _) => Done(Push(v), Pushed)
    case PushReturn(v) => Done(Push(v), Pushed)
    case PopReturn(v) => Done(Pop, Popped(v))
    case PopReturnEmpty => Done(Pop, Empty)
    case _ => if Pushing(pc).Some? then Pending(Push(Pushing(pc).value)) else Pending(Pop)
  }

  predicate SawNull<T>(pc: Pc<T>) { pc.PopCheckHead? && pc.next.None? }

  ghost function Expected<T>(s: State<T>, tid: nat): Status<T> {
    if tid < |s.threads| then StatusOf(s.threads[tid]) else Idle
  }

  /** The points chosen so far explain the trace and agree with the state. */
  ghost predicate Explained<T>(s: State<T>, ch: Chain, labels: seq<Label<T>>, points: seq<Option<Effect<T>>>)
    requires Shape(s, ch)
  {
    && |labels| == |points|
    && Replay(points, None) == Some(Contents(s, ch))
    && (forall tid: nat :: Track(labels, points, tid) == Some(Expected(s, tid)))
    && (forall tid | 0 <= tid < |s.threads| && SawNull(s.threads[tid]) ::
          exists k: nat :: EmptyAt(labels, points, None, tid, k))
  }

  /** The step that decides to return false. */
  predicate GivesUp<T>(s: State<T>, c: Choice<T>)
    requires Allocated(s) && c.tid < |s.threads|
  {
    !s.threads[c.tid].PopReturnEmpty? && Step(s, c).state.threads[c.tid].PopReturnEmpty?
  }

  /** The mover's status follows from its label and its point, once a pop that gives up
      has been given its empty point. */
  lemma MoverStatus<T>(s: State<T>, c: Choice<T>)
    requires Allocated(s) && c.tid < |s.threads|
    ensures var before := if GivesUp(s, c) then Done(Pop, Empty) else StatusOf(s.threads[c.tid]);
            Advance(before, Step(s, c).act, PointOf(s, c), c.tid) == Some(StatusOf(Step(s, c).state.threads[c.tid]))
  {
  }

  lemma NewSawNull<T>(s: State<T>, c: Choice<T>)
    requires Allocated(s) && c.tid < |s.threads|
    requires SawNull(Step(s, c).state.threads[c.tid])
    ensures s.threads[c.tid].PopLoadNext? && s.nodes[s.threads[c.tid].head].next.None?
    ensures Step(s, c).act == Internal(c.tid) && PointOf(s, c) == None && !GivesUp(s, c)
  {
  }

  lemma OtherStatus<T>(s: State<T>, c: Choice<T>, tid: nat)
    requires Allocated(s) && c.tid < |s.threads| && tid != c.tid
    ensures Step(s, c).act.tid == c.tid
    ensures PointOf(s, c).Some? ==> PointOf(s, c).value.tid == c.tid
    ensures Expected(Step(s, c).state, tid) == Expected(s, tid)
  {
    StepWrites(s, c);
  }

  /** A pop giving up uses the instant at which it read the null `next`. */
  lemma UseEmptyPoint<T>(s: State<T>, ch: Chain, labels: seq<Label<T>>, points: seq<Option<Effect<T>>>, tid: nat)
    returns (changed: seq<Option<Effect<T>>>)
    requires Shape(s, ch) && Explained(s, ch, labels, points)
    requires tid < |s.threads| && SawNull(s.threads[tid])
    ensures |changed| == |points| && Replay(changed, None) == Replay(points, None)
    ensures forall other: nat :: Track(labels, changed, other) ==
                                 if other == tid then Some(Done(Pop, Empty)) else Track(labels, points, other)
    ensures forall other | 0 <= other < |s.threads| && other != tid && SawNull(s.threads[other]) ::
              exists k: nat :: EmptyAt(labels, changed, None, other, k)
  {
    var k: nat :| EmptyAt(labels, points, None, tid, k);
    changed := points[k := EmptyPoint(tid)];
    ReplayWithEmpty(points, None, tid, k);
    TrackWithEmpty(labels, points, None, tid, k);
    forall other: nat | other != tid
      ensures Track(labels, changed, other) == Track(labels, points, other)
    {
      TrackOthers(labels, points, tid, k, other);
    }
    forall other | 0 <= other < |s.threads| && other != tid && SawNull(s.threads[other])
      ensures exists m: nat :: EmptyAt(labels, changed, None, other, m)
    {
      var m: nat :| EmptyAt(labels, points, None, other, m);
      EmptyAtOther(labels, points, None, tid, k, other, m);
    }
  }

  lemma StatusKept<T>(s: State<T>, labels: seq<Label<T>>, points: seq<Option<Effect<T>>>, c: Choice<T>, tid: nat)
    requires Allocated(s) && c.tid < |s.threads| && |labels| == |points|
    requires Track(labels, points, tid) == Some(if GivesUp(s, c) && tid == c.tid then Done(Pop, Empty) else Expected(s, tid))
    ensures Track(labels + [Step(s, c).act], points + [PointOf(s, c)], tid) == Some(Expected(Step(s, c).state, tid))
  {
    TrackExtend(labels, points, Step(s, c).act, PointOf(s, c), tid);
    StepWrites(s, c);
    if tid == c.tid { MoverStatus(s, c); } else { OtherStatus(s, c, tid); }
  }

  lemma ChanceKept<T>(s: State<T>, ch: Chain, labels: seq<Label<T>>, points: seq<Option<Effect<T>>>, c: Choice<T>, tid: nat)
    returns (k: nat)
    requires Inv(s, ch) && c.tid < |s.threads| && tid < |s.threads| && |labels| == |points|
    requires Replay(points, None) == Some(Contents(s, ch))
    requires Track(labels, points, tid) == Some(if GivesUp(s, c) && tid == c.tid then Done(Pop, Empty) else Expected(s, tid))
    requires tid != c.tid && SawNull(s.threads[tid]) ==> exists k: nat :: EmptyAt(labels, points, None, tid, k)
    requires SawNull(Step(s, c).state.threads[tid])
    ensures EmptyAt(labels + [Step(s, c).act], points + [PointOf(s, c)], None, tid, k)
  {
    StatusKept(s, labels, points, c, tid);
    StepWrites(s, c);
    if tid == c.tid {
      NewSawNull(s, c);
      NullNextMeansEmpty(s, ch, c);
      NewEmptyChance(labels, points, tid);
      k := |labels|;
    } else {
      k :| EmptyAt(labels, points, None, tid, k);
      EmptyAtExtend(labels, points, None, tid, k, Step(s, c).act, PointOf(s, c));
    }
  }

  lemma GaveUpAfterNull<T>(s: State<T>, c: Choice<T>)
    requires Allocated(s) && c.tid < |s.threads| && GivesUp(s, c)
    ensures SawNull(s.threads[c.tid])
  {
  }

  /** Any step of any thread can be explained. */
  lemma ExplainedKept<T>(s: State<T>, ch: Chain, labels: seq<Label<T>>, points: seq<Option<Effect<T>>>, c: Choice<T>)
    returns (points': seq<Option<Effect<T>>>)
    requires Inv(s, ch) && c.tid < |s.threads| && Explained(s, ch, labels, points)
    ensures Shape(Step(s, c).state, ChainAfter(s, ch, c))
    ensures Explained(Step(s, c).state, ChainAfter(s, ch, c), labels + [Step(s, c).act], points')
  {
    hide Step, ChainAfter, Contents, PointOf, Track, Replay;
    var s', act, point := Step(s, c).state, Step(s, c).act, PointOf(s, c);
    var changed := points;
    if GivesUp(s, c) {
      GaveUpAfterNull(s, c);
      changed := UseEmptyPoint(s, ch, labels, points, c.tid);
    }
    assert Replay(changed, None) == Some(Contents(s, ch));
    points' := changed + [point];
    ShapeKept(s, ch, c);
    StepMover(s, c);
    ReplayExtend(changed, point, None);
    forall tid: nat
      ensures Track(labels + [act], points', tid) == Some(Expected(s', tid))
    {
      StatusKept(s, labels, changed, c, tid);
    }
    forall tid | 0 <= tid < |s'.threads| && SawNull(s'.threads[tid])
      ensures exists k: nat :: EmptyAt(labels + [act], points', None, tid, k)
    {
      var k := ChanceKept(s, ch, labels, changed, c, tid);
    }
  }

  lemma NewEmptyChance<T>(labels: seq<Label<T>>, points: seq<Option<Effect<T>>>, tid: nat)
    requires |labels| == |points| && Replay(points, None) == Some([])
    requires Track(labels, points, tid) == Some(Pending(Pop))
    ensures EmptyAt(labels + [Internal(tid)], points + [None], None, tid, |labels|)
  {
    var ls, ps := labels + [Internal(tid)], points + [None];
    TrackExtend(labels, points, Internal(tid), None, tid);
    assert ps[..|labels|] == points && ls[..|labels|] == labels;
    assert ps[..|labels| + 1] == ps && ls[..|labels| + 1] == ls;
  }

  lemma InitInv<T>(threadCount: nat, dummy: T)
    ensures Inv(Init(threadCount, dummy), Chain([0], map[0 := 0]))
    ensures Explained(Init(threadCount, dummy), Chain([0], map[0 := 0]), [], [])
  {
    var s, ch := Init(threadCount, dummy), Chain([0], map[0 := 0]);
    assert Contents(s, ch) == [];
  }

  /** All invariants at the end of any run. */
  lemma {:induction false} RunInv<T>(threadCount: nat, dummy: T, choices: seq<Choice<T>>)
    returns (ch: Chain, points: seq<Option<Effect<T>>>)
    requires Schedule(threadCount, choices)
    ensures var (s, labels) := Run(threadCount, dummy, choices);
            Inv(s, ch) && Explained(s, ch, labels, points)
  {
    if choices == [] {
      InitInv(threadCount, dummy);
      ch, points := Chain([0], map[0 := 0]), [];
    } else {
      var before, c := choices[..|choices| - 1], choices[|choices| - 1];
      ch, points := RunInv(threadCount, dummy, before);
      var (s, labels) := Run(threadCount, dummy, before);
      points := ExplainedKept(s, ch, labels, points, c);
      InvKept(s, ch, c);
      ch := ChainAfter(s, ch, c);
    }
  }

  /** Every run of any number of threads is linearizable to a FIFO queue. */
  lemma RunsAreLinearizable<T(!new)>(threadCount: nat, dummy: T, choices: seq<Choice<T>>)
    requires Schedule(threadCount, choices)
    ensures Linearizable(Run(threadCount, dummy, choices).1, None)
  {
    var ch, points := RunInv(threadCount, dummy, choices);
    assert Explains(Run(threadCount, dummy, choices).1, points, None);
  }

  /** In every reachable state `head` reaches `tail` along `next`, `tail` is the last or
      last but one linked node, and no thread has dereferenced null. */
  lemma ReachableShape<T(!new)>(threadCount: nat, dummy: T, choices: seq<Choice<T>>)
    requires Schedule(threadCount, choices)
    ensures var s := Run(threadCount, dummy, choices).0;
            && (exists ch :: Shape(s, ch))
            && forall i | 0 <= i < |s.threads| :: !s.threads[i].Crashed?
  {
    var ch, _ := RunInv(threadCount, dummy, choices);
    var s := Run(threadCount, dummy, choices).0;
    assert forall i | 0 <= i < |s.threads| :: Local(s, ch, s.threads[i]);
  }

  /** In every run a node's `next` is set at most once and its value never changes. */
  lemma NextIsWrittenOnce<T(!new)>(threadCount: nat, dummy: T, choices: seq<Choice<T>>, c: Choice<T>)
    requires Schedule(threadCount, choices) && c.tid < threadCount
    ensures var s := Run(threadCount, dummy, choices).0;
            var s' := Step(s, c).state;
            && |s.nodes| <= |s'.nodes|
            && forall i | 0 <= i < |s.nodes| ::
                 s'.nodes[i].value == s.nodes[i].value && (s.nodes[i].next.Some? ==> s'.nodes[i] == s.nodes[i])
  {
    var ch, _ := RunInv(threadCount, dummy, choices);
    ShapeKept(Run(threadCount, dummy, choices).0, ch, c);
  }
}
