/** Which calls a run of the two-lock queue makes, and what a thread that is left alone gets. */
module BufferedQueueCalls {
  import opened Common
  import opened Linearizability
  import opened BufferedQueue

  /** The label of a step is of the thread that was chosen, and a call is the one it was asked for. */
  lemma {:induction false} CallsAreThoseAsked<T>(threadCount: nat, limit: nat, choices: seq<Choice<T>>)
    requires Schedule(threadCount, choices)
    ensures var labels := Run(threadCount, limit, choices).1;
            forall i | 0 <= i < |choices| ::
              labels[i].tid == choices[i].tid && (labels[i].Invoke? ==> labels[i].call == choices[i].call)
  {
    hide Init;
    if choices != [] {
      CallsAreThoseAsked(threadCount, limit, choices[..|choices| - 1]);
    }
  }

  // ------------------------------------------------------ one thread, one call after the other

  function Held<T>(calls: seq<Call<T>>, limit: nat): Halves<T> {
    if calls == [] then Halves([], []) else After(Held(calls[..|calls| - 1], limit), calls[|calls| - 1], limit)
  }

  function Answers<T>(calls: seq<Call<T>>, limit: nat): seq<Outcome<T>> {
    if calls == [] then [] else
    var before := calls[..|calls| - 1];
    Answers(before, limit) + [Answer(Held(before, limit), calls[|calls| - 1], limit)]
  }

  /** The steps a call takes from its start to its return when nobody interferes. */
  function StepsOf<T>(h: Halves<T>, call: Call<T>, limit: nat): nat {
    match call
    case Push(_) => if |h.write| >= limit then 5 else 6
    case Pop => if h.read != [] then 7 else if h.write != [] then 11 else 9
  }

  function Asking<T>(tid: nat, call: Call<T>, n: nat): seq<Choice<T>> { seq(n, _ => Choice(tid, call)) }

  /** Thread `tid` makes these calls, each as soon as the one before has returned. */
  function Script<T>(tid: nat, calls: seq<Call<T>>, limit: nat): seq<Choice<T>> {
    if calls == [] then [] else
    var before, call := calls[..|calls| - 1], calls[|calls| - 1];
    Script(tid, before, limit) + Asking(tid, call, StepsOf(Held(before, limit), call, limit))
  }

  /** Between two calls of a thread that is alone. */
  ghost predicate Rests<T>(s: State<T>, tid: nat, h: Halves<T>, limit: nat) {
    && s.writeMutex == None && s.readMutex == None && s.limit == limit
    && s.writeQueue == h.write && s.readQueue == h.read
    && tid < |s.threads| && s.threads[tid].Ready?
  }

  function At<T>(s: State<T>, tid: nat, pc: Pc<T>): State<T>
    requires tid < |s.threads|
  {
    s.(threads := s.threads[tid := pc])
  }

  lemma AskingSchedule<T>(threadCount: nat, before: seq<Choice<T>>, tid: nat, call: Call<T>, n: nat)
    requires Schedule(threadCount, before) && tid < threadCount
    ensures Schedule(threadCount, before + Asking(tid, call, n))
    ensures var all := before + Asking(tid, call, n + 1);
            all[..|all| - 1] == before + Asking(tid, call, n) && all[|all| - 1] == Choice(tid, call)
  {
  }

  /** In the middle of a call: `n` steps after its start. */
  ghost predicate Reaches<T>(threadCount: nat, limit: nat, before: seq<Choice<T>>, tid: nat, call: Call<T>, n: nat, m: State<T>)
    requires Schedule(threadCount, before) && tid < threadCount
  {
    AskingSchedule(threadCount, before, tid, call, n);
    && n > 0
    && Run(threadCount, limit, before + Asking(tid, call, n)) ==
       (m, Run(threadCount, limit, before).1 + ([Invoke(tid, call)] + seq(n - 1, _ => Label<T>.Internal(tid))))
  }

  lemma Begins<T>(threadCount: nat, limit: nat, before: seq<Choice<T>>, tid: nat, call: Call<T>, m: State<T>)
    requires Schedule(threadCount, before) && tid < threadCount
    requires Step(Run(threadCount, limit, before).0, Choice(tid, call)) == Move(m, Invoke(tid, call))
    ensures Reaches(threadCount, limit, before, tid, call, 1, m)
  {
    hide Step;
    AskingSchedule(threadCount, before, tid, call, 0);
    AskingSchedule(threadCount, before, tid, call, 1);
    assert before + Asking(tid, call, 0) == before;
    assert [Invoke(tid, call)] + seq(0, _ => Label<T>.Internal(tid)) == [Invoke(tid, call)];
  }

  lemma GoesOn<T>(threadCount: nat, limit: nat, before: seq<Choice<T>>, tid: nat, call: Call<T>, n: nat, m: State<T>, m': State<T>)
    requires Schedule(threadCount, before) && tid < threadCount && tid < |m.threads|
    requires Reaches(threadCount, limit, before, tid, call, n, m) && Step(m, Choice(tid, call)) == Move(m', Internal(tid))
    ensures Reaches(threadCount, limit, before, tid, call, n + 1, m')
  {
    hide Step;
    AskingSchedule(threadCount, before, tid, call, n);
    AskingSchedule(threadCount, before, tid, call, n + 1);
    OneMoreInternal(Run(threadCount, limit, before).1, tid, call, n);
  }

  lemma OneMoreInternal<T>(labels: seq<Label<T>>, tid: nat, call: Call<T>, n: nat)
    requires n > 0
    ensures labels + ([Invoke(tid, call)] + seq(n - 1, _ => Label<T>.Internal(tid))) + [Internal(tid)] ==
            labels + ([Invoke(tid, call)] + seq(n, _ => Label<T>.Internal(tid)))
  {
  }

  lemma Ends<T>(threadCount: nat, limit: nat, before: seq<Choice<T>>, tid: nat, call: Call<T>, n: nat, m: State<T>, m': State<T>,
                outcome: Outcome<T>)
    requires Schedule(threadCount, before) && tid < threadCount && tid < |m.threads|
    requires Reaches(threadCount, limit, before, tid, call, n, m) && Step(m, Choice(tid, call)) == Move(m', Respond(tid, outcome))
    ensures var all := before + Asking(tid, call, n + 1);
            && Schedule(threadCount, all)
            && Run(threadCount, limit, all).0 == m'
            && Responses(Run(threadCount, limit, all).1) == Responses(Run(threadCount, limit, before).1) + [outcome]
  {
    hide Step, Responses;
    AskingSchedule(threadCount, before, tid, call, n);
    AskingSchedule(threadCount, before, tid, call, n + 1);
    var labels := Run(threadCount, limit, before).1;
    OneResponse(tid, call, n - 1, outcome);
    assert labels + ([Invoke(tid, call)] + seq(n - 1, _ => Label<T>.Internal(tid))) + [Respond(tid, outcome)]
        == labels + CallTrace(tid, call, n - 1, outcome);
    ResponsesConcat(labels, CallTrace(tid, call, n - 1, outcome));
  }

  lemma AtFields<T>(m: State<T>, tid: nat)
    requires tid < |m.threads|
    ensures forall pc :: |At(m, tid, pc).threads| == |m.threads|
    ensures m.threads[tid] == Ready ==> At(m, tid, Ready) == m
  {
  }

  lemma PushStages<T>(m: State<T>, tid: nat, v: T)
    requires tid < |m.threads|
    ensures var c := Choice(tid, Push(v));
            && (m.threads[tid] == Ready ==> Step(m, c) == Move(At(m, tid, PushLock(v)), Invoke(tid, Push(v))))
            && (m.writeMutex == None ==>
                  Step(At(m, tid, PushLock(v)), c) == Move(At(m.(writeMutex := Some(tid)), tid, PushTest(v)), Internal(tid)))
            && Step(At(m, tid, PushTest(v)), c) ==
               Move(At(m, tid, if |m.writeQueue| >= m.limit then PushUnlock(v, false) else PushAppend(v)), Internal(tid))
            && Step(At(m, tid, PushAppend(v)), c) ==
               Move(At(m.(writeQueue := m.writeQueue + [v]), tid, PushUnlock(v, true)), Internal(tid))
  {
  }

  lemma PushLastStages<T>(m: State<T>, tid: nat, v: T, ok: bool)
    requires tid < |m.threads|
    ensures var c := Choice(tid, Push(v));
            && Step(At(m, tid, PushUnlock(v, ok)), c) == Move(At(m.(writeMutex := None), tid, PushReturn(v, ok)), Internal(tid))
            && Step(At(m, tid, PushReturn(v, ok)), c) == Move(At(m, tid, Ready), Respond(tid, if ok then Pushed else Rejected))
  {
  }

  lemma PushCall<T>(threadCount: nat, limit: nat, before: seq<Choice<T>>, tid: nat, h: Halves<T>, v: T)
    requires Schedule(threadCount, before) && tid < threadCount && Rests(Run(threadCount, limit, before).0, tid, h, limit)
    ensures var all := before + Asking(tid, Push(v), StepsOf(h, Push(v), limit));
            && Schedule(threadCount, all)
            && Rests(Run(threadCount, limit, all).0, tid, After(h, Push(v), limit), limit)
            && Responses(Run(threadCount, limit, all).1) ==
               Responses(Run(threadCount, limit, before).1) + [Answer(h, Push(v), limit)]
  {
    hide Step, At, Reaches, Run, Asking, Responses;
    var s, call: Call<T> := Run(threadCount, limit, before).0, Push(v);
    var locked := s.(writeMutex := Some(tid));
    AtFields(s, tid);
    AtFields(locked, tid);
    PushStages(s, tid, v);
    PushStages(locked, tid, v);
    Begins(threadCount, limit, before, tid, call, At(s, tid, PushLock(v)));
    GoesOn(threadCount, limit, before, tid, call, 1, At(s, tid, PushLock(v)), At(locked, tid, PushTest(v)));
    if |h.write| >= limit {
      PushLastStages(locked, tid, v, false);
      PushLastStages(s, tid, v, false);
      assert locked.(writeMutex := None) == s;
      GoesOn(threadCount, limit, before, tid, call, 2, At(locked, tid, PushTest(v)), At(locked, tid, PushUnlock(v, false)));
      GoesOn(threadCount, limit, before, tid, call, 3, At(locked, tid, PushUnlock(v, false)), At(s, tid, PushReturn(v, false)));
      Ends(threadCount, limit, before, tid, call, 4, At(s, tid, PushReturn(v, false)), At(s, tid, Ready), Rejected);
    } else {
      var longer, s' := locked.(writeQueue := h.write + [v]), s.(writeQueue := h.write + [v]);
      AtFields(longer, tid);
      AtFields(s', tid);
      PushLastStages(longer, tid, v, true);
      PushLastStages(s', tid, v, true);
      assert longer.(writeMutex := None) == s';
      GoesOn(threadCount, limit, before, tid, call, 2, At(locked, tid, PushTest(v)), At(locked, tid, PushAppend(v)));
      GoesOn(threadCount, limit, before, tid, call, 3, At(locked, tid, PushAppend(v)), At(longer, tid, PushUnlock(v, true)));
      GoesOn(threadCount, limit, before, tid, call, 4, At(longer, tid, PushUnlock(v, true)), At(s', tid, PushReturn(v, true)));
      Ends(threadCount, limit, before, tid, call, 5, At(s', tid, PushReturn(v, true)), At(s', tid, Ready), Pushed);
    }
  }

  lemma PopStages<T>(m: State<T>, tid: nat)
    requires tid < |m.threads|
    ensures var c := Choice(tid, Pop);
            && (m.threads[tid] == Ready ==> Step(m, c) == Move(At(m, tid, PopLock), Invoke(tid, Pop)))
            && (m.readMutex == None ==>
                  Step(At(m, tid, PopLock), c) == Move(At(m.(readMutex := Some(tid)), tid, PopTest), Internal(tid)))
            && Step(At(m, tid, PopTest), c) ==
               Move(At(m, tid, if m.readQueue == [] then PopLockWrite else PopFront), Internal(tid))
            && (m.writeMutex == None ==>
                  Step(At(m, tid, PopLockWrite), c) == Move(At(m.(writeMutex := Some(tid)), tid, PopSwap), Internal(tid)))
            && Step(At(m, tid, PopSwap), c) ==
               Move(At(m.(writeQueue := m.readQueue, readQueue := m.writeQueue), tid, PopUnlockWrite), Internal(tid))
  {
  }

  lemma PopLastStages<T>(m: State<T>, tid: nat)
    requires tid < |m.threads|
    ensures var c := Choice(tid, Pop);
            && Step(At(m, tid, PopUnlockWrite), c) == Move(At(m.(writeMutex := None), tid, PopRetest), Internal(tid))
            && Step(At(m, tid, PopRetest), c) ==
               Move(At(m, tid, if m.readQueue == [] then PopUnlock(None) else PopFront), Internal(tid))
            && (m.readQueue != [] ==>
                  && Step(At(m, tid, PopFront), c) == Move(At(m, tid, PopDrop(m.readQueue[0])), Internal(tid))
                  && Step(At(m, tid, PopDrop(m.readQueue[0])), c) ==
                     Move(At(m.(readQueue := m.readQueue[1..]), tid, PopUnlock(Some(m.readQueue[0]))), Internal(tid)))
  {
  }

  lemma PopReturns<T>(m: State<T>, tid: nat, result: Option<T>)
    requires tid < |m.threads|
    ensures var c := Choice(tid, Pop);
            && Step(At(m, tid, PopUnlock(result)), c) == Move(At(m.(readMutex := None), tid, PopReturn(result)), Internal(tid))
            && Step(At(m, tid, PopReturn(result)), c) ==
               Move(At(m, tid, Ready), Respond(tid, if result.None? then Empty else Popped(result.value)))
  {
  }

  /** From the front of the read half to the return. */
  lemma TakeFront<T>(threadCount: nat, limit: nat, before: seq<Choice<T>>, tid: nat, n: nat, m: State<T>)
    requires Schedule(threadCount, before) && tid < threadCount && tid < |m.threads| && m.threads[tid] == Ready
    requires m.readQueue != [] && m.readMutex == Some(tid)
    requires Reaches(threadCount, limit, before, tid, Pop, n, At(m, tid, PopFront))
    ensures var all := before + Asking(tid, Pop, n + 4);
            && Schedule(threadCount, all)
            && Run(threadCount, limit, all).0 == m.(readQueue := m.readQueue[1..], readMutex := None)
            && Responses(Run(threadCount, limit, all).1) ==
               Responses(Run(threadCount, limit, before).1) + [Popped(m.readQueue[0])]
  {
    hide Step, At, Reaches, Run, Asking, Responses;
    var v, shorter := m.readQueue[0], m.(readQueue := m.readQueue[1..]);
    var s' := shorter.(readMutex := None);
    AtFields(m, tid);
    AtFields(shorter, tid);
    AtFields(s', tid);
    PopLastStages(m, tid);
    PopReturns(shorter, tid, Some(v));
    PopReturns(s', tid, Some(v));
    GoesOn(threadCount, limit, before, tid, Pop, n, At(m, tid, PopFront), At(m, tid, PopDrop(v)));
    GoesOn(threadCount, limit, before, tid, Pop, n + 1, At(m, tid, PopDrop(v)), At(shorter, tid, PopUnlock(Some(v))));
    GoesOn(threadCount, limit, before, tid, Pop, n + 2, At(shorter, tid, PopUnlock(Some(v))), At(s', tid, PopReturn(Some(v))));
    Ends(threadCount, limit, before, tid, Pop, n + 3, At(s', tid, PopReturn(Some(v))), At(s', tid, Ready), Popped(v));
  }

  lemma PopCall<T>(threadCount: nat, limit: nat, before: seq<Choice<T>>, tid: nat, h: Halves<T>)
    requires Schedule(threadCount, before) && tid < threadCount && Rests(Run(threadCount, limit, before).0, tid, h, limit)
    ensures var all := before + Asking(tid, Pop, StepsOf(h, Pop, limit));
            && Schedule(threadCount, all)
            && Rests(Run(threadCount, limit, all).0, tid, After(h, Pop, limit), limit)
            && Responses(Run(threadCount, limit, all).1) ==
               Responses(Run(threadCount, limit, before).1) + [Answer(h, Pop, limit)]
  {
    hide Step, At, Reaches, Run, Asking, Responses;
    var s := Run(threadCount, limit, before).0;
    var locked := s.(readMutex := Some(tid));
    AtFields(s, tid);
    AtFields(locked, tid);
    PopStages(s, tid);
    PopStages(locked, tid);
    Begins(threadCount, limit, before, tid, Pop, At(s, tid, PopLock));
    GoesOn(threadCount, limit, before, tid, Pop, 1, At(s, tid, PopLock), At(locked, tid, PopTest));
    if h.read != [] {
      GoesOn(threadCount, limit, before, tid, Pop, 2, At(locked, tid, PopTest), At(locked, tid, PopFront));
      TakeFront(threadCount, limit, before, tid, 3, locked);
    } else {
      var both := locked.(writeMutex := Some(tid));
      var swapped := both.(writeQueue := both.readQueue, readQueue := both.writeQueue);
      var m := swapped.(writeMutex := None);
      AtFields(both, tid);
      AtFields(swapped, tid);
      AtFields(m, tid);
      PopStages(both, tid);
      PopLastStages(swapped, tid);
      PopLastStages(m, tid);
      GoesOn(threadCount, limit, before, tid, Pop, 2, At(locked, tid, PopTest), At(locked, tid, PopLockWrite));
      GoesOn(threadCount, limit, before, tid, Pop, 3, At(locked, tid, PopLockWrite), At(both, tid, PopSwap));
      GoesOn(threadCount, limit, before, tid, Pop, 4, At(both, tid, PopSwap), At(swapped, tid, PopUnlockWrite));
      GoesOn(threadCount, limit, before, tid, Pop, 5, At(swapped, tid, PopUnlockWrite), At(m, tid, PopRetest));
      if h.write != [] {
        GoesOn(threadCount, limit, before, tid, Pop, 6, At(m, tid, PopRetest), At(m, tid, PopFront));
        TakeFront(threadCount, limit, before, tid, 7, m);
      } else {
        var s' := m.(readMutex := None);
        AtFields(s', tid);
        PopReturns(m, tid, None);
        PopReturns(s', tid, None);
        GoesOn(threadCount, limit, before, tid, Pop, 6, At(m, tid, PopRetest), At(m, tid, PopUnlock(None)));
        GoesOn(threadCount, limit, before, tid, Pop, 7, At(m, tid, PopUnlock(None)), At(s', tid, PopReturn(None)));
        Ends(threadCount, limit, before, tid, Pop, 8, At(s', tid, PopReturn(None)), At(s', tid, Ready), Empty);
      }
    }
  }

  /** Whatever calls a thread makes while it is alone, it gets the answers of the two halves. */
  lemma {:induction false} AloneItIsTwoHalves<T>(threadCount: nat, limit: nat, tid: nat, calls: seq<Call<T>>)
    requires tid < threadCount
    ensures Schedule(threadCount, Script(tid, calls, limit))
    ensures var (s, labels) := Run(threadCount, limit, Script(tid, calls, limit));
            Rests(s, tid, Held(calls, limit), limit) && Responses(labels) == Answers(calls, limit)
  {
    hide Answer, After, StepsOf, Asking, Step;
    if calls != [] {
      var before, call := calls[..|calls| - 1], calls[|calls| - 1];
      AloneItIsTwoHalves(threadCount, limit, tid, before);
      if call.Push? {
        PushCall(threadCount, limit, Script(tid, before, limit), tid, Held(before, limit), call.value);
      } else {
        PopCall(threadCount, limit, Script(tid, before, limit), tid, Held(before, limit));
      }
    }
  }

  lemma MoreCalls<T>(calls: seq<Call<T>>, call: Call<T>, limit: nat)
    ensures Held(calls + [call], limit) == After(Held(calls, limit), call, limit)
    ensures Answers(calls + [call], limit) == Answers(calls, limit) + [Answer(Held(calls, limit), call, limit)]
  {
    assert (calls + [call])[..|calls|] == calls;
  }

  function AllPushed<T>(n: nat): seq<Outcome<T>> { seq(n, _ => Pushed) }

  lemma {:induction false} Filling<T>(calls: seq<Call<T>>, values: seq<T>, limit: nat)
    requires Held(calls, limit).write == [] && |values| <= limit
    ensures Held(calls + Pushes(values), limit) == Halves(values, Held(calls, limit).read)
    ensures Answers(calls + Pushes(values), limit) == Answers(calls, limit) + AllPushed(|values|)
  {
    hide Held, Answers;
    if values == [] {
      assert calls + Pushes(values) == calls && Answers(calls, limit) + AllPushed(0) == Answers(calls, limit);
    } else {
      var before, last := values[..|values| - 1], values[|values| - 1];
      Filling(calls, before, limit);
      MoreCalls(calls + Pushes(before), Push(last), limit);
      assert calls + Pushes(values) == calls + Pushes(before) + [Push(last)];
      assert values == before + [last];
      assert Answers(calls, limit) + AllPushed(|before|) + [Pushed] == Answers(calls, limit) + AllPushed(|values|);
    }
  }

  /** Filled up to its limit the queue refuses a push; one pop exchanges the halves, and then it
      takes as many again before it refuses, whatever the read half still holds. */
  lemma TakesTheLimitAgain<T>(threadCount: nat, limit: nat, tid: nat, first: seq<T>, second: seq<T>, v: T)
    requires tid < threadCount && |first| == |second| == limit > 0
    ensures var calls := Pushes(first) + [Push(v), Pop] + Pushes(second) + [Push(v)];
            && Schedule(threadCount, Script(tid, calls, limit))
            && Responses(Run(threadCount, limit, Script(tid, calls, limit)).1) ==
               AllPushed(limit) + [Rejected, Popped(first[0])] + AllPushed(limit) + [Rejected]
  {
    hide Held, Answers, Script, Run;
    NoCalls<T>(limit);
    var one := Pushes(first);
    var two := one + [Push(v)];
    var three := two + [Pop];
    var four := three + Pushes(second);
    Filling([], first, limit);
    assert [] + one == one;
    MoreCalls(one, Push(v), limit);
    MoreCalls(two, Pop, limit);
    Filling(three, second, limit);
    MoreCalls(four, Push(v), limit);
    assert one + [Push(v), Pop] + Pushes(second) + [Push(v)] == four + [Push(v)];
    assert Answers(four + [Push(v)], limit) == AllPushed(limit) + [Rejected, Popped(first[0])] + AllPushed(limit) + [Rejected];
    AloneItIsTwoHalves(threadCount, limit, tid, four + [Push(v)]);
  }

  lemma NoCalls<T>(limit: nat)
    ensures Held<T>([], limit) == Halves([], []) && Answers<T>([], limit) == []
  {
  }
}
