/** The lock-free queue: every thread runs `push` and `pop` one atomic access at a time.

    A node is an index into `nodes`; nodes are never given back.  One step of a thread
    is one atomic load or compare-exchange of the source, and a weak compare-exchange
    may fail for no reason.
 */
module LinkedQueue {
  import opened Common
  import opened Linearizability

  datatype Node<+T> = Node(value: T, next: Option<nat>)

  /** Where a thread stands.  The fields are the locals of `push` and `pop`. */
  datatype Pc<+T> =
    | Ready
    | PushLoadTail(v: T, node: nat)
    | PushLoadNext(v: T, node: nat, tail: nat)
    | PushCheckTail(v: T, node: nat, tail: nat, next: Option<nat>)
    | PushLink(v: T, node: nat, tail: nat)
    | PushHelp(v: T, node: nat, tail: nat, hop: nat)
    | PushSwing(v: T, node: nat, tail: nat)
    | PushReturn(v: T)
    | PopLoadHead
    | PopLoadTail(head: nat)
    | PopLoadNext(head: nat, tail: nat)
    | PopCheckHead(head: nat, tail: nat, next: Option<nat>)
    | PopHelp(tail: nat, hop: nat)
    | PopLoadValue(head: nat, next: Option<nat>)
    | PopUnlink(head: nat, hop: nat, v: T)
    | PopReturn(v: T)
    | PopReturnEmpty
    | Crashed

  datatype State<+T> = State(nodes: seq<Node<T>>, head: nat, tail: nat, threads: seq<Pc<T>>)

  /** What the scheduler decides: who moves, what a thread at rest calls, and whether
      a weak compare-exchange fails although the values agree. */
  datatype Choice<+T> = Choice(tid: nat, call: Call<T>, fails: bool)

  datatype Move<+T> = Move(state: State<T>, act: Label<T>)

  /** The constructor: one dummy node, no thread inside the queue. */
  function Init<T>(threadCount: nat, dummy: T): State<T> {
    State([Node(dummy, None)], 0, 0, seq(threadCount, i => Ready))
  }

  predicate Allocated<T>(s: State<T>) {
    && s.head < |s.nodes| && s.tail < |s.nodes|
    && (forall i | 0 <= i < |s.nodes| :: s.nodes[i].next.Some? ==> s.nodes[i].next.value < |s.nodes|)
    && forall i | 0 <= i < |s.threads| :: PcAllocated(|s.nodes|, s.threads[i])
  }

  predicate PcAllocated<T>(n: nat, pc: Pc<T>) {
    match pc
    case PushLoadTail(_, node) => node < n
    case PushLoadNext(_, node, tail) => node < n && tail < n
    case PushCheckTail(_, node, tail, next) => node < n && tail < n && (next.Some? ==> next.value < n)
    case PushLink(_, node, tail) => node < n && tail < n
    case PushHelp(_, node, tail, hop) => node < n && tail < n && hop < n
    case PushSwing(_, node, tail) => node < n && tail < n
    case PopLoadTail(head) => head < n
    case PopLoadNext(head, tail) => head < n && tail < n
    case PopCheckHead(head, tail, next) => head < n && tail < n && (next.Some? ==> next.value < n)
    case PopHelp(tail, hop) => tail < n && hop < n
    case PopLoadValue(head, next) => head < n && (next.Some? ==> next.value < n)
    case PopUnlink(head, hop, _) => head < n && hop < n
    case _ => true
  }

  /** One atomic step of thread `c.tid`. */
  function Step<T>(s: State<T>, c: Choice<T>): Move<T>
    requires Allocated(s) && c.tid < |s.threads|
  {
    var quiet := Internal(c.tid);
    match s.threads[c.tid]
    case Ready =>
      var act := Invoke(c.tid, c.call);
      (match c.call
       case Push(v) =>
         Move(Goto(s.(nodes := s.nodes + [Node(v, None)]), c.tid, PushLoadTail(v, |s.nodes|)), act)
       case Pop => Move(Goto(s, c.tid, PopLoadHead), act))
    case PushLoadTail(v, node) => Move(Goto(s, c.tid, PushLoadNext(v, node, s.tail)), quiet)
    case PushLoadNext(v, node, tail) =>
      Move(Goto(s, c.tid, PushCheckTail(v, node, tail, s.nodes[tail].next)), quiet)
    case PushCheckTail(v, node, tail, next) =>
      var pc :=
        if tail != s.tail then PushLoadTail(v, node)
        else if next.None? then PushLink(v, node, tail)
        else PushHelp(v, node, tail, next.value);
      Move(Goto(s, c.tid, pc), quiet)
    case PushLink(v, node, tail) =>
      if s.nodes[tail].next.None? && !c.fails then
        Move(Goto(SetNext(s, tail, node), c.tid, PushSwing(v, node, tail)), quiet)
      else
        Move(Goto(s, c.tid, PushLoadTail(v, node)), quiet)
    case PushHelp(v, node, tail, hop) =>
      Move(Goto(CasTail(s, tail, hop, c.fails), c.tid, PushLoadTail(v, node)), quiet)
    case PushSwing(v, node, tail) =>
      Move(Goto(CasTail(s, tail, node, c.fails), c.tid, PushReturn(v)), quiet)
    case PushReturn(_) => Move(Goto(s, c.tid, Ready), Respond(c.tid, Pushed))
    case PopLoadHead => Move(Goto(s, c.tid, PopLoadTail(s.head)), quiet)
    case PopLoadTail(head) => Move(Goto(s, c.tid, PopLoadNext(head, s.tail)), quiet)
    case PopLoadNext(head, tail) =>
      Move(Goto(s, c.tid, PopCheckHead(head, tail, s.nodes[head].next)), quiet)
    case PopCheckHead(head, tail, next) =>
      var pc :=
        if head != s.head then PopLoadHead
        else if head == tail then
          if next.None? then PopReturnEmpty else PopHelp(tail, next.value)
        else PopLoadValue(head, next);
      Move(Goto(s, c.tid, pc), quiet)
    case PopHelp(tail, hop) => Move(Goto(CasTail(s, tail, hop, c.fails), c.tid, PopLoadHead), quiet)
    case PopLoadValue(head, next) =>
      // a null `next` would be dereferenced here
      Move(Goto(s, c.tid, if next.None? then Crashed else PopUnlink(head, next.value, s.nodes[next.value].value)), quiet)
    case PopUnlink(head, hop, v) =>
      if s.head == head && !c.fails then
        Move(Goto(s.(head := hop), c.tid, PopReturn(v)), quiet)
      else
        Move(Goto(s, c.tid, PopLoadHead), quiet)
    case PopReturn(v) => Move(Goto(s, c.tid, Ready), Respond(c.tid, Popped(v)))
    case PopReturnEmpty => Move(Goto(s, c.tid, Ready), Respond(c.tid, Empty))
    case Crashed => Move(s, quiet)
  }

  function Goto<T>(s: State<T>, tid: nat, pc: Pc<T>): State<T>
    requires tid < |s.threads|
  {
    s.(threads := s.threads[tid := pc])
  }

  function SetNext<T>(s: State<T>, at: nat, node: nat): State<T>
    requires at < |s.nodes|
  {
    s.(nodes := s.nodes[at := s.nodes[at].(next := Some(node))])
  }

  function CasTail<T>(s: State<T>, expected: nat, desired: nat, fails: bool): State<T> {
    if s.tail == expected && !fails then s.(tail := desired) else s
  }

  /** A run is what a scheduler's choices make of the initial state. */
  ghost predicate Schedule<T>(threadCount: nat, choices: seq<Choice<T>>) {
    forall i | 0 <= i < |choices| :: choices[i].tid < threadCount
  }

  ghost function Run<T>(threadCount: nat, dummy: T, choices: seq<Choice<T>>): (r: (State<T>, seq<Label<T>>))
    requires Schedule(threadCount, choices)
    ensures Allocated(r.0) && |r.0.threads| == threadCount && |r.1| == |choices|
  {
    if choices == [] then (Init(threadCount, dummy), []) else
    var (s, labels) := Run(threadCount, dummy, choices[..|choices| - 1]);
    var move := Step(s, choices[|choices| - 1]);
    StepAllocated(s, choices[|choices| - 1]);
    (move.state, labels + [move.act])
  }

  lemma StepAllocated<T>(s: State<T>, c: Choice<T>)
    requires Allocated(s) && c.tid < |s.threads|
    ensures Allocated(Step(s, c).state)
  {
    hide Step, PcAllocated;
    StepPointers(s, c);
    StepMover(s, c);
    var s' := Step(s, c).state;
    forall i | 0 <= i < |s'.threads|
      ensures PcAllocated(|s'.nodes|, s'.threads[i])
    {
      if i != c.tid {
        StillAllocated(|s.nodes|, |s'.nodes|, s.threads[i]);
      }
    }
  }

  lemma StepPointers<T>(s: State<T>, c: Choice<T>)
    requires Allocated(s) && c.tid < |s.threads|
    ensures var s' := Step(s, c).state;
            && |s.nodes| <= |s'.nodes| && s'.head < |s'.nodes| && s'.tail < |s'.nodes|
            && forall i | 0 <= i < |s'.nodes| :: s'.nodes[i].next.Some? ==> s'.nodes[i].next.value < |s'.nodes|
  {
    assert PcAllocated(|s.nodes|, s.threads[c.tid]);
  }

  lemma StepMover<T>(s: State<T>, c: Choice<T>)
    requires Allocated(s) && c.tid < |s.threads|
    ensures var s' := Step(s, c).state;
            && PcAllocated(|s'.nodes|, s'.threads[c.tid]) && |s'.threads| == |s.threads|
            && forall i | 0 <= i < |s.threads| && i != c.tid :: s'.threads[i] == s.threads[i]
  {
    assert PcAllocated(|s.nodes|, s.threads[c.tid]);
  }

  lemma StillAllocated<T>(n: nat, n': nat, pc: Pc<T>)
    requires PcAllocated(n, pc) && n <= n'
    ensures PcAllocated(n', pc)
  {
  }
}
