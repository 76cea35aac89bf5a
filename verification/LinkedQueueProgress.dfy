/** Lock-freedom of the queue: however the threads are scheduled, and whoever is delayed, only
    so many steps go by before some call returns. */
module LinkedQueueProgress {
  import opened Common
  import opened Sums
  import opened Linearizability
  import opened LinkedQueue
  import opened LinkedQueueProof

  /** How many steps a thread needs to change the queue or to return, if nobody interferes. */
  function Effort<T>(pc: Pc<T>): nat {
    match pc
    case Ready => 7
    case PushLoadTail(_, _) => 4
    case PushLoadNext(_, _, _) => 3
    case PushCheckTail(_, _, _, _) => 2
    case PushSwing(_, _, _) => 2
    case PopLoadHead => 6
    case PopLoadTail(_) => 5
    case PopLoadNext(_, _) => 4
    case PopCheckHead(_, _, _) => 3
    case PopLoadValue(_, _) => 2
    case _ => 1
  }

  /** What the thread has loaded is out of date: this attempt will fail and be repeated. */
  predicate Stale<T>(s: State<T>, pc: Pc<T>)
    requires PcAllocated(|s.nodes|, pc)
  {
    match pc
    case PushLoadNext(_, _, tail) => tail != s.tail
    case PushCheckTail(_, _, tail, next) => tail != s.tail || (next.None? && s.nodes[tail].next.Some?)
    case PushLink(_, _, tail) => s.nodes[tail].next.Some?
    case PushHelp(_, _, tail, _) => tail != s.tail
    case PopLoadTail(head) => head != s.head
    case PopLoadNext(head, tail) => head != s.head || tail != s.tail
    case PopCheckHead(head, tail, next) => head != s.head || (head == tail && next.Some? && tail != s.tail)
    case PopHelp(tail, _) => tail != s.tail
    case PopLoadValue(head, _) => head != s.head
    case PopUnlink(head, _, _) => head != s.head
    case _ => false
  }

  const ATTEMPT: nat := 6

  function Left<T>(s: State<T>, pc: Pc<T>): nat
    requires PcAllocated(|s.nodes|, pc)
  {
    Effort(pc) + if Stale(s, pc) then ATTEMPT else 0
  }

  /** How often the call may still change the queue: a push links and moves `tail`, a pop
      moves `head`. */
  function Credit<T>(pc: Pc<T>): nat {
    match pc
    case PushSwing(_, _, _) => 0
    case PushReturn(_) => 0
    case PopReturn(_) => 0
    case PopReturnEmpty => 0
    case Crashed => 0
    case _ => if pc.Ready? || Own(pc).Some? then 2 else 1
  }

  /** Whether `tail` lags behind the last node. */
  function Lag<T>(s: State<T>): nat
    requires s.tail < |s.nodes|
  {
    if s.nodes[s.tail].next.Some? then 1 else 0
  }

  function Efforts<T>(s: State<T>): (r: seq<nat>)
    requires Allocated(s)
    ensures |r| == |s.threads|
  {
    seq(|s.threads|, i requires 0 <= i < |s.threads| => Left(s, s.threads[i]))
  }

  function Credits<T>(s: State<T>): (r: seq<nat>)
    ensures |r| == |s.threads|
  {
    seq(|s.threads|, i requires 0 <= i < |s.threads| => Credit(s.threads[i]))
  }

  /** One change of the queue may cost every thread one attempt. */
  function Price(threadCount: nat): nat { ATTEMPT * threadCount + ATTEMPT }

  /** The steps that can still be made before a call returns. */
  function Budget<T>(s: State<T>): nat
    requires Allocated(s)
  {
    Price(|s.threads|) * (Lag(s) + Sum(Credits(s))) + Sum(Efforts(s))
  }

  predicate Changes<T>(w: Write<T>) { w.Link? || w.SwingTail? || w.SwingHead? }

  /** A step that leaves the queue alone brings its thread nearer to its end, unless its
      compare-exchange fails for no reason. */
  lemma MoverComesNearer<T>(s: State<T>, ch: Chain, c: Choice<T>)
    requires Inv(s, ch) && c.tid < |s.threads| && !Changes(WriteOf(s, c)) && !Step(s, c).act.Respond?
    requires Allocated(Step(s, c).state)
    ensures var s' := Step(s, c).state;
            && PcAllocated(|s'.nodes|, s'.threads[c.tid]) && PcAllocated(|s.nodes|, s.threads[c.tid])
            && Left(s', s'.threads[c.tid]) + 1 <= Left(s, s.threads[c.tid]) + (if c.fails then ATTEMPT else 0)
            && Credit(s'.threads[c.tid]) <= Credit(s.threads[c.tid]) && Lag(s') <= Lag(s)
  {
    hide Step, Left, Credit, Lag, Allocated, PcAllocated, Effort, Stale;
    LocalMeans(s, ch, c.tid);
    var pc := s.threads[c.tid];
    if pc.Ready? {
      StarterComesNearer(s, c);
    } else if Own(pc).Some? || pc.PushSwing? || pc.PushReturn? {
      PusherComesNearer(s, c);
    } else {
      PopperComesNearer(s, c);
    }
    StepWrites(s, c);
    LagKept(s, WriteOf(s, c), Step(s, c).state);
    CreditKept(s, c);
  }

  lemma LocalMeans<T>(s: State<T>, ch: Chain, tid: nat)
    requires Inv(s, ch) && tid < |s.threads|
    ensures Allocated(s) && !s.threads[tid].Crashed? && PcAllocated(|s.nodes|, s.threads[tid])
    ensures s.threads[tid].PopLoadValue? ==> s.threads[tid].next.Some?
  {
    assert Local(s, ch, s.threads[tid]);
    assert PcAllocated(|s.nodes|, s.threads[tid]);
  }

  lemma StarterComesNearer<T>(s: State<T>, c: Choice<T>)
    requires Allocated(s) && c.tid < |s.threads| && s.threads[c.tid].Ready?
    ensures var s' := Step(s, c).state;
            && PcAllocated(|s'.nodes|, s'.threads[c.tid])
            && Left(s', s'.threads[c.tid]) + 1 <= Left(s, s.threads[c.tid])
  {
  }

  lemma PusherComesNearer<T>(s: State<T>, c: Choice<T>)
    requires Allocated(s) && c.tid < |s.threads| && !Changes(WriteOf(s, c)) && !Step(s, c).act.Respond?
    requires PcAllocated(|s.nodes|, s.threads[c.tid])
    requires var pc := s.threads[c.tid]; Own(pc).Some? || pc.PushSwing? || pc.PushReturn?
    ensures var s' := Step(s, c).state;
            && PcAllocated(|s'.nodes|, s'.threads[c.tid])
            && Left(s', s'.threads[c.tid]) + 1 <= Left(s, s.threads[c.tid]) + (if c.fails then ATTEMPT else 0)
  {
  }

  lemma PopperComesNearer<T>(s: State<T>, c: Choice<T>)
    requires Allocated(s) && c.tid < |s.threads| && !Changes(WriteOf(s, c)) && !Step(s, c).act.Respond?
    requires PcAllocated(|s.nodes|, s.threads[c.tid])
    requires var pc := s.threads[c.tid]; Own(pc).None? && !pc.Ready? && !pc.Crashed? && !pc.PushSwing? && !pc.PushReturn?
    requires s.threads[c.tid].PopLoadValue? ==> s.threads[c.tid].next.Some?
    ensures var s' := Step(s, c).state;
            && PcAllocated(|s'.nodes|, s'.threads[c.tid])
            && Left(s', s'.threads[c.tid]) + 1 <= Left(s, s.threads[c.tid]) + (if c.fails then ATTEMPT else 0)
  {
  }

  lemma CreditKept<T>(s: State<T>, c: Choice<T>)
    requires Allocated(s) && c.tid < |s.threads| && !Changes(WriteOf(s, c)) && !Step(s, c).act.Respond?
    ensures Credit(Step(s, c).state.threads[c.tid]) <= Credit(s.threads[c.tid])
  {
  }

  lemma LagKept<T>(s: State<T>, w: Write<T>, s': State<T>)
    requires Wrote(s, w, s') && !Changes(w) && s.tail < |s.nodes| && s'.tail < |s'.nodes|
    ensures Lag(s') == Lag(s)
  {
  }

  /** A step that changes the queue uses up one of the changes that were left. */
  lemma ChangeIsPaid<T>(s: State<T>, ch: Chain, c: Choice<T>)
    requires Inv(s, ch) && c.tid < |s.threads| && Changes(WriteOf(s, c))
    requires Allocated(Step(s, c).state)
    ensures var s' := Step(s, c).state;
            && PcAllocated(|s'.nodes|, s'.threads[c.tid]) && PcAllocated(|s.nodes|, s.threads[c.tid])
            && Left(s', s'.threads[c.tid]) < Left(s, s.threads[c.tid]) + ATTEMPT
            && Lag(s') + Credit(s'.threads[c.tid]) + 1 <= Lag(s) + Credit(s.threads[c.tid])
  {
    assert Local(s, ch, s.threads[c.tid]);
    StepSafe(s, ch, c);
    NextInChain(s, ch, s.tail);
    if WriteOf(s, c).SwingTail? { NextInChain(s, ch, WriteOf(s, c).to); }
  }

  lemma OtherKeepsPlace<T>(s: State<T>, c: Choice<T>, i: nat)
    requires Allocated(s) && c.tid < |s.threads| && i < |s.threads| && i != c.tid && Allocated(Step(s, c).state)
    ensures var s' := Step(s, c).state;
            && |s'.threads| == |s.threads| && s'.threads[i] == s.threads[i]
            && PcAllocated(|s'.nodes|, s.threads[i]) && PcAllocated(|s.nodes|, s.threads[i])
            && Left(s', s.threads[i]) <= Left(s, s.threads[i]) + (if Changes(WriteOf(s, c)) then ATTEMPT else 0)
  {
    StepWrites(s, c);
    assert PcAllocated(|s.nodes|, s.threads[i]);
  }

  lemma StepCosts<T>(s: State<T>, ch: Chain, c: Choice<T>)
    requires Inv(s, ch) && c.tid < |s.threads| && !Step(s, c).act.Respond?
    ensures Allocated(Step(s, c).state)
    ensures Budget(Step(s, c).state) + 1 <= Budget(s) + if c.fails then ATTEMPT else 0
  {
    hide Step, Inv, WriteOf, Sum, Effort, Stale, Credit, Lag, Left;
    InvAllocated(s, ch);
    StepAllocated(s, c);
    var s' := Step(s, c).state;
    StepWrites(s, c);
    var d := if Changes(WriteOf(s, c)) then ATTEMPT else 0;
    forall i | 0 <= i < |s.threads| && i != c.tid
      ensures Efforts(s')[i] <= Efforts(s)[i] + d && Credits(s')[i] == Credits(s)[i]
    {
      OtherKeepsPlace(s, c, i);
    }
    SumChange(Efforts(s), Efforts(s'), c.tid, d);
    SumChange(Credits(s), Credits(s'), c.tid, 0);
    var n, had, has := |s.threads|, Lag(s) + Sum(Credits(s)), Lag(s') + Sum(Credits(s'));
    assert |s'.threads| == n;
    if Changes(WriteOf(s, c)) {
      ChangeIsPaid(s, ch, c);
      Paid(n, had, has, Sum(Efforts(s)), Sum(Efforts(s')));
    } else {
      MoverComesNearer(s, ch, c);
      Monotonic(Price(n), has, had);
    }
  }

  lemma Paid(n: nat, had: nat, has: nat, sum: nat, sum': nat)
    requires has + 1 <= had && sum' < sum + ATTEMPT + ATTEMPT * n
    ensures Price(n) * has + sum' + 1 <= Price(n) * had + sum
  {
    Monotonic(Price(n), has + 1, had);
  }

  lemma Monotonic(p: nat, a: nat, b: nat)
    requires a <= b
    ensures p * a <= p * b && p * a == p * (a - 1) + p
  {
  }

  lemma InvAllocated<T>(s: State<T>, ch: Chain)
    requires Inv(s, ch)
    ensures Allocated(s)
  {
  }

  function Failures<T>(choices: seq<Choice<T>>): nat {
    if choices == [] then 0
    else Failures(choices[..|choices| - 1]) + if choices[|choices| - 1].fails then 1 else 0
  }

  /** No call returns in the steps of `more`. */
  ghost predicate Silent<T(!new)>(threadCount: nat, dummy: T, before: seq<Choice<T>>, more: seq<Choice<T>>)
    requires Schedule(threadCount, before + more)
  {
    forall i | |before| <= i < |before + more| :: !Run(threadCount, dummy, before + more).1[i].Respond?
  }

  lemma {:induction false} SilentRunCosts<T(!new)>(threadCount: nat, dummy: T, before: seq<Choice<T>>, more: seq<Choice<T>>)
    requires Schedule(threadCount, before + more) && Silent(threadCount, dummy, before, more)
    ensures Schedule(threadCount, before)
    ensures |more| + Budget(Run(threadCount, dummy, before + more).0) <=
            Budget(Run(threadCount, dummy, before).0) + ATTEMPT * Failures(more)
  {
    hide Step, Budget;
    assert forall i | 0 <= i < |before| :: before[i] == (before + more)[i];
    if more == [] {
      assert before + more == before;
    } else {
      var m, c := more[..|more| - 1], more[|more| - 1];
      assert (before + more)[..|before + more| - 1] == before + m && (before + more)[|before + m|] == c;
      assert forall i | 0 <= i < |before + m| :: (before + m)[i] == (before + more)[i];
      var (s, labels) := Run(threadCount, dummy, before + m);
      assert Run(threadCount, dummy, before + more) == (Step(s, c).state, labels + [Step(s, c).act]);
      assert (labels + [Step(s, c).act])[|before + m|] == Step(s, c).act;
      assert forall i | 0 <= i < |before + m| :: (labels + [Step(s, c).act])[i] == labels[i];
      SilentRunCosts(threadCount, dummy, before, m);
      var ch, _ := RunInv(threadCount, dummy, before + m);
      StepCosts(s, ch, c);
    }
  }

  lemma BudgetBounded<T>(s: State<T>)
    requires Allocated(s)
    ensures Budget(s) <= Price(|s.threads|) * (2 * |s.threads| + 1) + 11 * |s.threads|
  {
    SumBounded(Credits(s), 2);
    forall i | 0 <= i < |s.threads|
      ensures Efforts(s)[i] <= 11
    {
      assert PcAllocated(|s.nodes|, s.threads[i]);
    }
    SumBounded(Efforts(s), 11);
    Monotonic(Price(|s.threads|), Lag(s) + Sum(Credits(s)), 2 * |s.threads| + 1);
  }

  /** Lock-freedom.  From any reachable state on, and whatever the schedule, the number of steps
      made without any call returning is bounded by the number of threads, but for an allowance
      for each compare-exchange that fails for no reason. */
  lemma LockFree<T(!new)>(threadCount: nat, dummy: T, before: seq<Choice<T>>, more: seq<Choice<T>>)
    requires Schedule(threadCount, before + more)
    requires forall i | |before| <= i < |before + more| :: !Run(threadCount, dummy, before + more).1[i].Respond?
    ensures |more| <= 12 * threadCount * threadCount + 29 * threadCount + 6 + 6 * Failures(more)
  {
    hide Run, Budget;
    SilentRunCosts(threadCount, dummy, before, more);
    BudgetBounded(Run(threadCount, dummy, before).0);
    var n := threadCount;
    assert Price(n) * (2 * n + 1) + 11 * n == 12 * n * n + 29 * n + 6;
  }
}
