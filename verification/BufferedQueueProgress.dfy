/** The two mutexes never block the queue: a thread that may go on is always there, and a call
    returns after boundedly many steps of such threads. */
module BufferedQueueProgress {
  import opened Common
  import opened Sums
  import opened Linearizability
  import opened BufferedQueue

  /** The step is no more than asking for a mutex that is taken. */
  predicate Waits<T>(s: State<T>, tid: nat)
    requires tid < |s.threads|
  {
    match s.threads[tid]
    case PushLock(_) => s.writeMutex.Some?
    case PopLock => s.readMutex.Some?
    case PopLockWrite => s.writeMutex.Some?
    case _ => false
  }

  /** The steps a thread has left, waiting apart, before it returns. */
  function Effort<T>(pc: Pc<T>): nat {
    match pc
    case Ready => 10
    case PushLock(_) => 4
    case PushTest(_) => 3
    case PushAppend(_) => 2
    case PushUnlock(_, _) => 1
    case PopLock => 9
    case PopTest => 8
    case PopLockWrite => 7
    case PopSwap => 6
    case PopUnlockWrite => 5
    case PopRetest => 4
    case PopFront => 3
    case PopDrop(_) => 2
    case PopUnlock(_) => 1
    case _ => 0
  }

  function Efforts<T>(s: State<T>): (r: seq<nat>)
    ensures |r| == |s.threads|
  {
    seq(|s.threads|, i requires 0 <= i < |s.threads| => Effort(s.threads[i]))
  }

  /** Whoever holds the write mutex can go on, then whoever holds the read mutex, then anyone. */
  lemma SomeoneGoesOn<T>(s: State<T>, busy: nat) returns (tid: nat)
    requires Inv(s) && busy < |s.threads| && !s.threads[busy].Ready?
    ensures tid < |s.threads| && !s.threads[tid].Ready? && !Waits(s, tid)
  {
    if s.writeMutex.Some? {
      tid := s.writeMutex.value;
      assert Local(s, tid);
    } else if s.readMutex.Some? {
      tid := s.readMutex.value;
      assert Local(s, tid);
    } else {
      tid := busy;
    }
  }

  /** There is no deadlock: while any call is in progress, some call in progress can go on. */
  lemma NoDeadlock<T(!new)>(threadCount: nat, limit: nat, choices: seq<Choice<T>>)
    requires Schedule(threadCount, choices)
    ensures var s := Run(threadCount, limit, choices).0;
            (exists i | 0 <= i < |s.threads| :: !s.threads[i].Ready?) ==>
              exists i | 0 <= i < |s.threads| :: !s.threads[i].Ready? && !Waits(s, i)
  {
    var s := Run(threadCount, limit, choices).0;
    var _ := RunInv(threadCount, limit, choices);
    if busy: nat :| busy < |s.threads| && !s.threads[busy].Ready? {
      var tid := SomeoneGoesOn(s, busy);
    }
  }

  /** A step that neither waits nor returns is one of those its thread had left. */
  lemma MoverComesNearer<T>(s: State<T>, c: Choice<T>)
    requires c.tid < |s.threads| && Local(s, c.tid) && !Step(s, c).act.Respond?
    ensures var s' := Step(s, c).state;
            && |s'.threads| == |s.threads|
            && Effort(s'.threads[c.tid]) + (if Waits(s, c.tid) then 0 else 1) <= Effort(s.threads[c.tid])
  {
  }

  lemma OthersStay<T>(s: State<T>, c: Choice<T>)
    requires c.tid < |s.threads|
    ensures |Step(s, c).state.threads| == |s.threads|
    ensures forall i | 0 <= i < |s.threads| && i != c.tid :: Step(s, c).state.threads[i] == s.threads[i]
  {
  }

  lemma StepCosts<T>(s: State<T>, c: Choice<T>)
    requires Inv(s) && c.tid < |s.threads| && !Step(s, c).act.Respond?
    ensures Sum(Efforts(Step(s, c).state)) + (if Waits(s, c.tid) then 0 else 1) <= Sum(Efforts(s))
  {
    hide Step, Effort, Waits, Local, Sum;
    assert Local(s, c.tid);
    MoverComesNearer(s, c);
    OthersStay(s, c);
    SumChange(Efforts(s), Efforts(Step(s, c).state), c.tid, 0);
  }

  /** How many of the steps of `more` do not wait. */
  ghost function Moves<T>(threadCount: nat, limit: nat, before: seq<Choice<T>>, more: seq<Choice<T>>): nat
    requires Schedule(threadCount, before + more)
    decreases |more|
  {
    if more == [] then 0 else
    var m, c := more[..|more| - 1], more[|more| - 1];
    ScheduleShorter(threadCount, before, more);
    Moves(threadCount, limit, before, m) + if Waits(Run(threadCount, limit, before + m).0, c.tid) then 0 else 1
  }

  lemma ScheduleShorter<T>(threadCount: nat, before: seq<Choice<T>>, more: seq<Choice<T>>)
    requires Schedule(threadCount, before + more)
    ensures Schedule(threadCount, before)
    ensures more != [] ==>
              var m, c := more[..|more| - 1], more[|more| - 1];
              && Schedule(threadCount, before + m) && c.tid < threadCount
              && (before + more)[..|before + more| - 1] == before + m && (before + more)[|before + more| - 1] == c
  {
    assert forall i | 0 <= i < |before| :: before[i] == (before + more)[i];
    if more != [] {
      var m := more[..|more| - 1];
      assert forall i | 0 <= i < |before + m| :: (before + m)[i] == (before + more)[i];
      assert (before + more)[|before + more| - 1] == more[|more| - 1];
    }
  }

  lemma {:induction false} SilentRunCosts<T(!new)>(threadCount: nat, limit: nat, before: seq<Choice<T>>, more: seq<Choice<T>>)
    requires Schedule(threadCount, before + more)
    requires forall i | |before| <= i < |before + more| :: !Run(threadCount, limit, before + more).1[i].Respond?
    ensures Schedule(threadCount, before)
    ensures Moves(threadCount, limit, before, more) + Sum(Efforts(Run(threadCount, limit, before + more).0)) <=
            Sum(Efforts(Run(threadCount, limit, before).0))
    decreases |more|
  {
    hide Step, Waits, Efforts, Sum;
    ScheduleShorter(threadCount, before, more);
    if more == [] {
      assert before + more == before;
    } else {
      var m, c := more[..|more| - 1], more[|more| - 1];
      var (s, labels) := Run(threadCount, limit, before + m);
      assert Run(threadCount, limit, before + more) == (Step(s, c).state, labels + [Step(s, c).act]);
      assert (labels + [Step(s, c).act])[|before + m|] == Step(s, c).act;
      assert forall i | 0 <= i < |before + m| :: (labels + [Step(s, c).act])[i] == labels[i];
      SilentRunCosts(threadCount, limit, before, m);
      var _ := RunInv(threadCount, limit, before + m);
      StepCosts(s, c);
    }
  }

  /** From any reachable state on and under any schedule, at most ten steps a thread that do not
      wait are made without some call returning. */
  lemma SomeCallReturns<T(!new)>(threadCount: nat, limit: nat, before: seq<Choice<T>>, more: seq<Choice<T>>)
    requires Schedule(threadCount, before + more)
    requires forall i | |before| <= i < |before + more| :: !Run(threadCount, limit, before + more).1[i].Respond?
    ensures Moves(threadCount, limit, before, more) <= 10 * threadCount
  {
    hide Run, Moves;
    SilentRunCosts(threadCount, limit, before, more);
    SumBounded(Efforts(Run(threadCount, limit, before).0), 10);
  }

  lemma {:induction false} RunPrefix<T>(threadCount: nat, limit: nat, before: seq<Choice<T>>, more: seq<Choice<T>>)
    requires Schedule(threadCount, before + more)
    ensures Schedule(threadCount, before)
    ensures Run(threadCount, limit, before).1 <= Run(threadCount, limit, before + more).1
    decreases |more|
  {
    hide Step;
    ScheduleShorter(threadCount, before, more);
    if more == [] {
      assert before + more == before;
    } else {
      RunPrefix(threadCount, limit, before, more[..|more| - 1]);
    }
  }

  /** One more step. */
  lemma RunOneMore<T>(threadCount: nat, limit: nat, before: seq<Choice<T>>, c: Choice<T>)
    requires Schedule(threadCount, before) && c.tid < threadCount
    ensures Schedule(threadCount, before + [c])
    ensures var (s, labels) := Run(threadCount, limit, before);
            Run(threadCount, limit, before + [c]) == (Step(s, c).state, labels + [Step(s, c).act])
  {
    hide Step;
    assert (before + [c])[..|before|] == before;
  }

  /** Letting a thread go on that can, again and again, ends in a return. */
  lemma {:induction false} CanFinish<T(!new)>(threadCount: nat, limit: nat, before: seq<Choice<T>>, busy: nat)
    returns (more: seq<Choice<T>>)
    requires Schedule(threadCount, before) && busy < threadCount
    requires !Run(threadCount, limit, before).0.threads[busy].Ready?
    ensures Schedule(threadCount, before + more) && more != []
    ensures |more| <= Sum(Efforts(Run(threadCount, limit, before).0)) + 1
    ensures var labels := Run(threadCount, limit, before + more).1;
            && labels[|before + more| - 1].Respond?
            && forall i | |before| <= i < |before + more| - 1 :: labels[i].Internal?
    decreases Sum(Efforts(Run(threadCount, limit, before).0))
  {
    hide Efforts, Sum, Step, Waits, Inv, Run;
    var (s, labels) := Run(threadCount, limit, before);
    var _ := RunInv(threadCount, limit, before);
    var tid := SomeoneGoesOn(s, busy);
    var c := Choice(tid, Pop);
    RunOneMore(threadCount, limit, before, c);
    GoesOn(s, c);
    if Step(s, c).act.Respond? {
      more := [c];
    } else {
      StepCosts(s, c);
      var others := CanFinish(threadCount, limit, before + [c], tid);
      more := [c] + others;
      assert before + more == before + [c] + others;
      RunPrefix(threadCount, limit, before + [c], others);
      assert Run(threadCount, limit, before + more).1[|before|] == Step(s, c).act;
    }
  }

  /** Whatever has happened, the calls in progress can be scheduled so that one of them returns,
      within a bounded number of steps and without any new call. */
  lemma ReturnIsReachable<T(!new)>(threadCount: nat, limit: nat, before: seq<Choice<T>>) returns (more: seq<Choice<T>>)
    requires Schedule(threadCount, before)
    requires exists i | 0 <= i < threadCount :: !Run(threadCount, limit, before).0.threads[i].Ready?
    ensures Schedule(threadCount, before + more) && 0 < |more| <= 10 * threadCount + 1
    ensures var labels := Run(threadCount, limit, before + more).1;
            && labels[|before + more| - 1].Respond?
            && forall i | |before| <= i < |before + more| - 1 :: labels[i].Internal?
  {
    hide Run;
    var busy: nat :| busy < threadCount && !Run(threadCount, limit, before).0.threads[busy].Ready?;
    more := CanFinish(threadCount, limit, before, busy);
    SumBounded(Efforts(Run(threadCount, limit, before).0), 10);
  }

  lemma GoesOn<T>(s: State<T>, c: Choice<T>)
    requires c.tid < |s.threads| && !s.threads[c.tid].Ready?
    ensures |Step(s, c).state.threads| == |s.threads|
    ensures Step(s, c).act.Respond? || (Step(s, c).act.Internal? && !Step(s, c).state.threads[c.tid].Ready?)
  {
  }
}
