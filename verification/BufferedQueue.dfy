/** The two-lock queue that swaps its halves when the reading half runs dry.

    One step of a thread is one lock operation or one access made under a lock; a
    thread that asks for a lock another one holds does not move.
 */
module BufferedQueue {
  import opened Common
  import opened Linearizability

  datatype Pc<+T> =
    | Ready
    | PushLock(v: T)
    | PushTest(v: T)
    | PushAppend(v: T)
    | PushUnlock(v: T, accepted: bool)
    | PushReturn(v: T, accepted: bool)
    | PopLock
    | PopTest
    | PopLockWrite
    | PopSwap
    | PopUnlockWrite
    | PopRetest
    | PopFront
    | PopDrop(v: T)
    | PopUnlock(result: Option<T>)
    | PopReturn(result: Option<T>)
    | Crashed

  /** `writeQueue` is q1 and `readQueue` is q2; a mutex holds the thread that owns it. */
  datatype State<+T> = State(
    limit: nat, writeQueue: seq<T>, readQueue: seq<T>,
    writeMutex: Option<nat>, readMutex: Option<nat>, threads: seq<Pc<T>>)

  datatype Choice<+T> = Choice(tid: nat, call: Call<T>)

  datatype Move<+T> = Move(state: State<T>, act: Label<T>)

  function Init<T>(threadCount: nat, limit: nat): State<T> {
    State(limit, [], [], None, None, seq(threadCount, i => Ready))
  }

  function Goto<T>(s: State<T>, tid: nat, pc: Pc<T>): State<T>
    requires tid < |s.threads|
  {
    s.(threads := s.threads[tid := pc])
  }

  /** One step of thread `c.tid`. */
  function Step<T>(s: State<T>, c: Choice<T>): Move<T>
    requires c.tid < |s.threads|
  {
    var quiet := Internal(c.tid);
    match s.threads[c.tid]
    case Ready =>
      Move(Goto(s, c.tid, if c.call.Push? then PushLock(c.call.value) else PopLock), Invoke(c.tid, c.call))
    case PushLock(v) =>
      Move(if s.writeMutex.None? then Goto(s.(writeMutex := Some(c.tid)), c.tid, PushTest(v)) else s, quiet)
    case PushTest(v) =>
      Move(Goto(s, c.tid, if |s.writeQueue| >= s.limit then PushUnlock(v, false) else PushAppend(v)), quiet)
    case PushAppend(v) =>
      Move(Goto(s.(writeQueue := s.writeQueue + [v]), c.tid, PushUnlock(v, true)), quiet)
    case PushUnlock(v, accepted) =>
      Move(Goto(s.(writeMutex := None), c.tid, PushReturn(v, accepted)), quiet)
    case PushReturn(_, accepted) =>
      Move(Goto(s, c.tid, Ready), Respond(c.tid, if accepted then Pushed else Rejected))
    case PopLock =>
      Move(if s.readMutex.None? then Goto(s.(readMutex := Some(c.tid)), c.tid, PopTest) else s, quiet)
    case PopTest => Move(Goto(s, c.tid, if s.readQueue == [] then PopLockWrite else PopFront), quiet)
    case PopLockWrite =>
      Move(if s.writeMutex.None? then Goto(s.(writeMutex := Some(c.tid)), c.tid, PopSwap) else s, quiet)
    case PopSwap =>
      Move(Goto(s.(writeQueue := s.readQueue, readQueue := s.writeQueue), c.tid, PopUnlockWrite), quiet)
    case PopUnlockWrite => Move(Goto(s.(writeMutex := None), c.tid, PopRetest), quiet)
    case PopRetest => Move(Goto(s, c.tid, if s.readQueue == [] then PopUnlock(None) else PopFront), quiet)
    case PopFront =>
      // taking the front of an empty queue is undefined
      Move(Goto(s, c.tid, if s.readQueue == [] then Crashed else PopDrop(s.readQueue[0])), quiet)
    case PopDrop(v) =>
      Move(if s.readQueue == [] then Goto(s, c.tid, Crashed)
           else Goto(s.(readQueue := s.readQueue[1..]), c.tid, PopUnlock(Some(v))), quiet)
    case PopUnlock(result) => Move(Goto(s.(readMutex := None), c.tid, PopReturn(result)), quiet)
    case PopReturn(result) =>
      Move(Goto(s, c.tid, Ready), Respond(c.tid, if result.None? then Empty else Popped(result.value)))
    case Crashed => Move(s, quiet)
  }

  ghost predicate Schedule<T>(threadCount: nat, choices: seq<Choice<T>>) {
    forall i | 0 <= i < |choices| :: choices[i].tid < threadCount
  }

  ghost function Run<T>(threadCount: nat, limit: nat, choices: seq<Choice<T>>): (r: (State<T>, seq<Label<T>>))
    requires Schedule(threadCount, choices)
    ensures |r.0.threads| == threadCount && r.0.limit == limit && |r.1| == |choices|
  {
    if choices == [] then (Init(threadCount, limit), []) else
    var (s, labels) := Run(threadCount, limit, choices[..|choices| - 1]);
    var move := Step(s, choices[|choices| - 1]);
    (move.state, labels + [move.act])
  }

  // ------------------------------------------------------ the queue without its threads

  datatype Halves<+T> = Halves(write: seq<T>, read: seq<T>)

  /** What a call gets, one and only one answer: a push is refused exactly when the write half
      alone holds the limit, and a pop fails exactly when both halves are empty. */
  function Answer<T>(h: Halves<T>, call: Call<T>, limit: nat): Outcome<T> {
    match call
    case Push(_) => if |h.write| >= limit then Rejected else Pushed
    case Pop => if h.read != [] then Popped(h.read[0]) else if h.write != [] then Popped(h.write[0]) else Empty
  }

  /** A pop that finds the read half empty exchanges the halves first. */
  function After<T>(h: Halves<T>, call: Call<T>, limit: nat): Halves<T> {
    match call
    case Push(v) => if |h.write| >= limit then h else h.(write := h.write + [v])
    case Pop =>
      if h.read != [] then h.(read := h.read[1..])
      else if h.write != [] then Halves([], h.write[1..])
      else h
  }

  function Replayed<T(==)>(points: seq<Option<Effect<T>>>, limit: nat): Option<Halves<T>> {
    if points == [] then Some(Halves([], [])) else
    var before := Replayed(points[..|points| - 1], limit);
    var point := points[|points| - 1];
    if before.None? || point.None? then before
    else if point.value.outcome == Answer(before.value, point.value.call, limit) then
      Some(After(before.value, point.value.call, limit))
    else None
  }

  lemma ReplayedMore<T>(points: seq<Option<Effect<T>>>, point: Option<Effect<T>>, limit: nat)
    ensures Replayed(points + [point], limit) ==
            var before := Replayed(points, limit);
            if before.None? || point.None? then before
            else if point.value.outcome == Answer(before.value, point.value.call, limit) then
              Some(After(before.value, point.value.call, limit))
            else None
  {
    assert (points + [point])[..|points|] == points;
  }

  ghost predicate LinearizableToHalves<T(!new)>(labels: seq<Label<T>>, limit: nat) {
    exists points: seq<Option<Effect<T>>> ::
      && |points| == |labels| && Replayed(points, limit).Some?
      && forall tid: nat :: Track(labels, points, tid).Some?
  }

  /** The two halves are a first-in first-out queue of at most twice the limit. */
  lemma {:induction false} HalvesAreAQueue<T>(points: seq<Option<Effect<T>>>, limit: nat)
    requires Replayed(points, limit).Some?
    ensures var h := Replayed(points, limit).value;
            && |h.write| <= limit && |h.read| <= limit
            && Replay(points, Some(limit)) == Some(h.read + h.write)
  {
    if points == [] {
      var none: seq<T> := [];
      assert none + none == none;
    } else {
      var before, point := points[..|points| - 1], points[|points| - 1];
      HalvesAreAQueue(before, limit);
      if point.Some? { OneAnswer(Replayed(before, limit).value, point.value, limit); }
    }
  }

  lemma OneAnswer<T>(h: Halves<T>, e: Effect<T>, limit: nat)
    requires |h.write| <= limit && |h.read| <= limit && e.outcome == Answer(h, e.call, limit)
    ensures var h' := After(h, e.call, limit);
            && |h'.write| <= limit && |h'.read| <= limit
            && Apply(h.read + h.write, e, Some(limit)) == Some(h'.read + h'.write)
  {
    var h' := After(h, e.call, limit);
    match e.call
    case Push(v) => assert h.read + (h.write + [v]) == h.read + h.write + [v];
    case Pop =>
      if h.read + h.write != [] { assert (h.read + h.write)[1..] == h'.read + h'.write; }
  }

  // -------------------------------------------------------------- invariant

  predicate HoldsRead<T>(pc: Pc<T>) {
    pc.PopTest? || pc.PopLockWrite? || pc.PopSwap? || pc.PopUnlockWrite? || pc.PopRetest? || pc.PopFront? ||
    pc.PopDrop? || pc.PopUnlock?
  }

  predicate HoldsWrite<T>(pc: Pc<T>) {
    pc.PushTest? || pc.PushAppend? || pc.PushUnlock? || pc.PopSwap? || pc.PopUnlockWrite?
  }

  ghost predicate Local<T>(s: State<T>, tid: nat)
    requires tid < |s.threads|
  {
    var pc := s.threads[tid];
    && (s.readMutex == Some(tid) <==> HoldsRead(pc))
    && (s.writeMutex == Some(tid) <==> HoldsWrite(pc))
    && match pc
       case PushAppend(_) => |s.writeQueue| < s.limit
       case PopLockWrite => s.readQueue == []
       case PopSwap => s.readQueue == []
       case PopFront => s.readQueue != []
       case PopDrop(v) => s.readQueue != [] && s.readQueue[0] == v
       case Crashed => false
       case _ => true
  }

  /** A mutex is held by a thread there is. */
  ghost predicate Owned<T>(s: State<T>) {
    && (s.writeMutex.Some? ==> s.writeMutex.value < |s.threads|)
    && (s.readMutex.Some? ==> s.readMutex.value < |s.threads|)
  }

  ghost predicate Inv<T>(s: State<T>) {
    && Owned(s)
    && |s.writeQueue| <= s.limit
    && |s.readQueue| <= s.limit
    && (forall tid | 0 <= tid < |s.threads| :: Local(s, tid))
  }

  /** Decided on the value at the front, which is still there to be copied. */
  predicate HasTaken<T>(pc: Pc<T>) { pc.PopUnlockWrite? || pc.PopRetest? || pc.PopFront? || pc.PopDrop? }

  /** The halves with a value taken as soon as its pop has decided on it. */
  function HalvesOf<T>(s: State<T>): Halves<T> {
    var taken := s.readMutex.Some? && s.readMutex.value < |s.threads| && HasTaken(s.threads[s.readMutex.value]);
    Halves(s.writeQueue, if taken && s.readQueue != [] then s.readQueue[1..] else s.readQueue)
  }

  function Contents<T>(s: State<T>): seq<T> { HalvesOf(s).read + HalvesOf(s).write }

  /** Where an operation takes effect: a push at its append, or at the test that refuses it; a
      pop at the test that finds the read half filled, or at the exchange. */
  function PointOf<T>(s: State<T>, c: Choice<T>): Option<Effect<T>>
    requires c.tid < |s.threads|
  {
    match s.threads[c.tid]
    case PushTest(v) => if |s.writeQueue| >= s.limit then Some(Effect(c.tid, Push(v), Rejected)) else None
    case PushAppend(v) => Some(Effect(c.tid, Push(v), Pushed))
    case PopTest => if s.readQueue != [] then Some(Effect(c.tid, Pop, Popped(s.readQueue[0]))) else None
    case PopSwap => Some(Effect(c.tid, Pop, if s.writeQueue == [] then Empty else Popped(s.writeQueue[0])))
    case _ => None
  }

  /** What the trace so far must say about a thread; `front` is what the read half holds. */
  function StatusOf<T>(pc: Pc<T>, front: seq<T>): Status<T> {
    match pc
    case Ready => Idle
    case PushUnlock(v, accepted) => Done(Push(v), if accepted then Pushed else Rejected)
    case PushReturn(v, accepted) => Done(Push(v), if accepted then Pushed else Rejected)
    case PopUnlock(result) => Done(Pop, if result.None? then Empty else Popped(result.value))
    case PopReturn(result) => Done(Pop, if result.None? then Empty else Popped(result.value))
    case PushLock(v) => Pending(Push(v))
    case PushTest(v) => Pending(Push(v))
    case PushAppend(v) => Pending(Push(v))
    case _ => if HasTaken(pc) then Done(Pop, if front == [] then Empty else Popped(front[0])) else Pending(Pop)
  }

  ghost function Expected<T>(s: State<T>, tid: nat): Status<T> {
    if tid < |s.threads| then StatusOf(s.threads[tid], s.readQueue) else Idle
  }

  ghost predicate Explained<T>(s: State<T>, labels: seq<Label<T>>, points: seq<Option<Effect<T>>>) {
    && |labels| == |points|
    && Replayed(points, s.limit) == Some(HalvesOf(s))
    && forall tid: nat :: Track(labels, points, tid) == Some(Expected(s, tid))
  }

  /** The locks keep the halves bounded and every thread's view of them current. */
  lemma InvKept<T>(s: State<T>, c: Choice<T>)
    requires Inv(s) && c.tid < |s.threads|
    ensures Inv(Step(s, c).state)
  {
    var s' := Step(s, c).state;
    assert Local(s, c.tid);
    forall tid | 0 <= tid < |s'.threads|
      ensures Local(s', tid)
    {
      assert Local(s, tid);
    }
  }

  /** Each step changes the halves by the answer it stands for, and by nothing otherwise. */
  lemma HalvesKept<T>(s: State<T>, c: Choice<T>)
    requires Inv(s) && c.tid < |s.threads|
    ensures var point := PointOf(s, c);
            if point.None? then HalvesOf(Step(s, c).state) == HalvesOf(s)
            else
              && point.value.outcome == Answer(HalvesOf(s), point.value.call, s.limit)
              && HalvesOf(Step(s, c).state) == After(HalvesOf(s), point.value.call, s.limit)
  {
    assert Local(s, c.tid);
    if s.readMutex.Some? { assert Local(s, s.readMutex.value); }
  }

  lemma HalvesBounded<T>(s: State<T>)
    requires Inv(s)
    ensures |HalvesOf(s).write| <= s.limit && |HalvesOf(s).read| <= s.limit
  {
  }

  lemma ContentsKept<T>(s: State<T>, c: Choice<T>)
    requires Inv(s) && c.tid < |s.threads|
    ensures Some(Contents(Step(s, c).state)) ==
            if PointOf(s, c).None? then Some(Contents(s))
            else Apply(Contents(s), PointOf(s, c).value, Some(s.limit))
  {
    HalvesKept(s, c);
    HalvesBounded(s);
    hide Step, Inv, HalvesOf, PointOf;
    if PointOf(s, c).Some? { OneAnswer(HalvesOf(s), PointOf(s, c).value, s.limit); }
  }

  lemma StatusKept<T>(s: State<T>, c: Choice<T>, tid: nat)
    requires Inv(s) && c.tid < |s.threads|
    ensures Advance(Expected(s, tid), Step(s, c).act, PointOf(s, c), tid) == Some(Expected(Step(s, c).state, tid))
  {
    assert Local(s, c.tid);
    if tid < |s.threads| { assert Local(s, tid); }
  }

  lemma {:induction false} RunInv<T>(threadCount: nat, limit: nat, choices: seq<Choice<T>>)
    returns (points: seq<Option<Effect<T>>>)
    requires Schedule(threadCount, choices)
    ensures var (s, labels) := Run(threadCount, limit, choices);
            Inv(s) && Explained(s, labels, points)
  {
    if choices == [] {
      points := [];
      assert HalvesOf(Init<T>(threadCount, limit)) == Halves([], []);
    } else {
      var before, c := choices[..|choices| - 1], choices[|choices| - 1];
      points := RunInv(threadCount, limit, before);
      var (s, labels) := Run(threadCount, limit, before);
      InvKept(s, c);
      HalvesKept(s, c);
      ReplayedMore(points, PointOf(s, c), limit);
      forall tid: nat
        ensures Track(labels + [Step(s, c).act], points + [PointOf(s, c)], tid) == Some(Expected(Step(s, c).state, tid))
      {
        TrackExtend(labels, points, Step(s, c).act, PointOf(s, c), tid);
        StatusKept(s, c, tid);
      }
      points := points + [PointOf(s, c)];
    }
  }

  /** Every run of any number of producers and consumers is linearizable to the two halves,
      which leave no choice of answers. */
  lemma RunsAreLinearizableToHalves<T(!new)>(threadCount: nat, limit: nat, choices: seq<Choice<T>>)
    requires Schedule(threadCount, choices)
    ensures LinearizableToHalves(Run(threadCount, limit, choices).1, limit)
  {
    var points := RunInv(threadCount, limit, choices);
    assert Replayed(points, limit).Some?;
  }

  /** So it is linearizable to a FIFO queue that refuses a push only when it holds `limit`
      items, never accepts one beyond twice the limit, and lets a pop fail only at an instant
      when it is empty. */
  lemma RunsAreLinearizable<T(!new)>(threadCount: nat, limit: nat, choices: seq<Choice<T>>)
    requires Schedule(threadCount, choices)
    ensures Linearizable(Run(threadCount, limit, choices).1, Some(limit))
  {
    var points := RunInv(threadCount, limit, choices);
    HalvesAreAQueue(points, limit);
    assert Explains(Run(threadCount, limit, choices).1, points, Some(limit));
  }

  /** In every reachable state the queue holds at most twice the limit, no thread has taken
      from an empty half, and the halves have one reader and one writer at a time. */
  lemma ReachableStates<T(!new)>(threadCount: nat, limit: nat, choices: seq<Choice<T>>)
    requires Schedule(threadCount, choices)
    ensures var s := Run(threadCount, limit, choices).0;
            && |s.readQueue| <= limit && |s.writeQueue| <= limit
            && (forall i | 0 <= i < |s.threads| :: !s.threads[i].Crashed?)
            && (forall i, j | 0 <= i < j < |s.threads| ::
                  !(HoldsRead(s.threads[i]) && HoldsRead(s.threads[j])) &&
                  !(HoldsWrite(s.threads[i]) && HoldsWrite(s.threads[j])))
  {
    var points := RunInv(threadCount, limit, choices);
    var s := Run(threadCount, limit, choices).0;
    forall i | 0 <= i < |s.threads|
      ensures !s.threads[i].Crashed?
      ensures HoldsRead(s.threads[i]) ==> s.readMutex == Some(i)
      ensures HoldsWrite(s.threads[i]) ==> s.writeMutex == Some(i)
    {
      assert Local(s, i);
    }
  }
}
