/** Which calls a run of the lock-free queue makes, and what a thread that is left alone gets. */
module LinkedQueueCalls {
  import opened Common
  import opened Linearizability
  import opened LinkedQueue
  import opened LinkedQueueProof

  /** The label of a step is of the thread that was chosen, and a call is the one it was asked for. */
  lemma {:induction false} CallsAreThoseAsked<T>(threadCount: nat, dummy: T, choices: seq<Choice<T>>)
    requires Schedule(threadCount, choices)
    ensures var labels := Run(threadCount, dummy, choices).1;
            forall i | 0 <= i < |choices| ::
              labels[i].tid == choices[i].tid && (labels[i].Invoke? ==> labels[i].call == choices[i].call)
  {
    hide Init;
    if choices != [] {
      var before, c := choices[..|choices| - 1], choices[|choices| - 1];
      CallsAreThoseAsked(threadCount, dummy, before);
      StepLabel(Run(threadCount, dummy, before).0, c);
    }
  }

  lemma StepLabel<T>(s: State<T>, c: Choice<T>)
    requires Allocated(s) && c.tid < |s.threads|
    ensures var act := Step(s, c).act; act.tid == c.tid && (act.Invoke? ==> act.call == c.call)
  {
  }

  // ------------------------------------------------------ one thread, one call after the other

  function Answer<T>(held: seq<T>, call: Call<T>): Outcome<T> {
    match call
    case Push(_) => Pushed
    case Pop => if held == [] then Empty else Popped(held[0])
  }

  function HeldAfter<T>(held: seq<T>, call: Call<T>): seq<T> {
    match call
    case Push(v) => held + [v]
    case Pop => if held == [] then [] else held[1..]
  }

  function Held<T>(calls: seq<Call<T>>): seq<T> {
    if calls == [] then [] else HeldAfter(Held(calls[..|calls| - 1]), calls[|calls| - 1])
  }

  function Answers<T>(calls: seq<Call<T>>): seq<Outcome<T>> {
    if calls == [] then [] else
    Answers(calls[..|calls| - 1]) + [Answer(Held(calls[..|calls| - 1]), calls[|calls| - 1])]
  }

  /** The steps a call takes from its start to its return when nobody interferes. */
  function StepsOf<T>(held: seq<T>, call: Call<T>): nat {
    if call.Push? then 7 else if held == [] then 6 else 8
  }

  function Asking<T>(tid: nat, call: Call<T>, n: nat): seq<Choice<T>> { seq(n, _ => Choice(tid, call, false)) }

  /** Thread `tid` makes these calls, each as soon as the one before has returned. */
  function Script<T>(tid: nat, calls: seq<Call<T>>): seq<Choice<T>> {
    if calls == [] then [] else
    var before, call := calls[..|calls| - 1], calls[|calls| - 1];
    Script(tid, before) + Asking(tid, call, StepsOf(Held(before), call))
  }

  /** The same step, again and again. */
  ghost function Repeat<T>(s: State<T>, c: Choice<T>, n: nat): (r: (State<T>, seq<Label<T>>))
    requires Allocated(s) && c.tid < |s.threads|
    ensures Allocated(r.0) && |r.0.threads| == |s.threads| && |r.1| == n
  {
    if n == 0 then (s, []) else
    var (m, labels) := Repeat(s, c, n - 1);
    StepAllocated(m, c);
    StepMover(m, c);
    (Step(m, c).state, labels + [Step(m, c).act])
  }

  lemma {:induction false} RunRepeats<T>(threadCount: nat, dummy: T, before: seq<Choice<T>>, c: Choice<T>, n: nat)
    requires Schedule(threadCount, before) && c.tid < threadCount
    ensures var more := seq(n, _ => c);
            && Schedule(threadCount, before + more)
            && var (s, labels) := Run(threadCount, dummy, before);
               Run(threadCount, dummy, before + more) == (Repeat(s, c, n).0, labels + Repeat(s, c, n).1)
  {
    hide Step;
    var (s, labels) := Run(threadCount, dummy, before);
    if n == 0 {
      assert before + seq(0, _ => c) == before;
      assert labels + [] == labels;
    } else {
      RunRepeats(threadCount, dummy, before, c, n - 1);
      var all := before + seq(n, _ => c);
      assert all[..|all| - 1] == before + seq(n - 1, _ => c) && all[|all| - 1] == c;
      var (m, more) := Repeat(s, c, n - 1);
      assert labels + more + [Step(m, c).act] == labels + (more + [Step(m, c).act]);
    }
  }

  /** Between two calls of a thread that is alone: the chain ends at `tail`. */
  ghost predicate Rests<T>(s: State<T>, ch: Chain, tid: nat, held: seq<T>) {
    && Allocated(s) && Shape(s, ch) && Contents(s, ch) == held
    && tid < |s.threads| && s.threads[tid].Ready?
    && ch.rank[s.tail] == |ch.order| - 1
  }

  function At<T>(s: State<T>, tid: nat, pc: Pc<T>): State<T>
    requires tid < |s.threads|
  {
    s.(threads := s.threads[tid := pc])
  }

  /** In the middle of a call: `n` steps after its start. */
  ghost predicate Reaches<T>(s: State<T>, c: Choice<T>, n: nat, m: State<T>)
    requires Allocated(s) && c.tid < |s.threads|
  {
    n > 0 && Repeat(s, c, n) == (m, [Invoke(c.tid, c.call)] + seq(n - 1, _ => Label<T>.Internal(c.tid)))
  }

  lemma Begins<T>(s: State<T>, c: Choice<T>, m: State<T>)
    requires Allocated(s) && c.tid < |s.threads| && Step(s, c) == Move(m, Invoke(c.tid, c.call))
    ensures Reaches(s, c, 1, m)
  {
    hide Step;
    assert Repeat(s, c, 0) == (s, []);
    assert [] + [Step(s, c).act] == [Invoke(c.tid, c.call)] + seq(0, _ => Label<T>.Internal(c.tid));
  }

  lemma GoesOn<T>(s: State<T>, c: Choice<T>, n: nat, m: State<T>, m': State<T>)
    requires Allocated(s) && c.tid < |s.threads| && Allocated(m) && c.tid < |m.threads|
    requires Reaches(s, c, n, m) && Step(m, c) == Move(m', Internal(c.tid))
    ensures Reaches(s, c, n + 1, m') && Allocated(m') && |m'.threads| == |m.threads|
  {
    hide Step;
    assert seq(n - 1, _ => Label<T>.Internal(c.tid)) + [Internal(c.tid)] == seq(n, _ => Label<T>.Internal(c.tid));
    var first: seq<Label<T>> := [Invoke(c.tid, c.call)];
    assert first + seq(n - 1, _ => Label<T>.Internal(c.tid)) + [Internal(c.tid)]
        == first + (seq(n - 1, _ => Label<T>.Internal(c.tid)) + [Internal(c.tid)]);
    assert Repeat(s, c, n + 1) == (Step(m, c).state, Repeat(s, c, n).1 + [Step(m, c).act]);
  }

  lemma Ends<T>(s: State<T>, c: Choice<T>, n: nat, m: State<T>, m': State<T>, outcome: Outcome<T>)
    requires Allocated(s) && c.tid < |s.threads| && Allocated(m) && c.tid < |m.threads|
    requires Reaches(s, c, n, m) && Step(m, c) == Move(m', Respond(c.tid, outcome))
    ensures Repeat(s, c, n + 1) == (m', CallTrace(c.tid, c.call, n - 1, outcome))
  {
    hide Step;
  }

  lemma PushStages<T>(m: State<T>, tid: nat, v: T, node: nat, t: nat)
    requires tid < |m.threads| && t == m.tail < |m.nodes|
    ensures var c := Choice(tid, Push(v), false);
            && (Allocated(At(m, tid, PushLoadTail(v, node))) ==>
                  Step(At(m, tid, PushLoadTail(v, node)), c) == Move(At(m, tid, PushLoadNext(v, node, t)), Internal(tid)))
            && (Allocated(At(m, tid, PushLoadNext(v, node, t))) ==>
                  Step(At(m, tid, PushLoadNext(v, node, t)), c) ==
                  Move(At(m, tid, PushCheckTail(v, node, t, m.nodes[t].next)), Internal(tid)))
            && (Allocated(At(m, tid, PushCheckTail(v, node, t, None))) ==>
                  Step(At(m, tid, PushCheckTail(v, node, t, None)), c) == Move(At(m, tid, PushLink(v, node, t)), Internal(tid)))
  {
  }

  lemma PushLastStages<T>(m: State<T>, tid: nat, v: T, node: nat, t: nat)
    requires tid < |m.threads| && t == m.tail < |m.nodes|
    ensures var c := Choice(tid, Push(v), false);
            && (Allocated(At(m, tid, PushLink(v, node, t))) && m.nodes[t].next.None? ==>
                  Step(At(m, tid, PushLink(v, node, t)), c) ==
                  Move(At(m.(nodes := m.nodes[t := m.nodes[t].(next := Some(node))]), tid, PushSwing(v, node, t)), Internal(tid)))
            && (Allocated(At(m, tid, PushSwing(v, node, t))) ==>
                  Step(At(m, tid, PushSwing(v, node, t)), c) == Move(At(m.(tail := node), tid, PushReturn(v)), Internal(tid)))
            && (Allocated(At(m, tid, PushReturn(v))) ==>
                  Step(At(m, tid, PushReturn(v)), c) == Move(At(m, tid, Ready), Respond(tid, Pushed)))
  {
  }

  /** A push by a thread that is alone: seven steps. */
  lemma PushSteps<T>(s: State<T>, ch: Chain, tid: nat, held: seq<T>, v: T)
    requires Rests(s, ch, tid, held)
    ensures var c, node := Choice(tid, Push(v), false), |s.nodes|;
            var grown := s.nodes + [Node(v, None)];
            && s.tail < |grown|
            && Repeat(s, c, 7) ==
               (s.(nodes := grown[s.tail := grown[s.tail].(next := Some(node))], tail := node), CallTrace(tid, Push(v), 5, Pushed))
  {
    RestsMeans(s, ch, tid, held);
    var c, node, t := Choice(tid, Push(v), false), |s.nodes|, s.tail;
    var m := s.(nodes := s.nodes + [Node(v, None)]);
    assert m.nodes[t] == s.nodes[t];
    StepAllocated(s, c);
    assert Step(s, c) == Move(At(m, tid, PushLoadTail(v, node)), Invoke(tid, Push(v)));
    hide Step, Rests, Allocated, At, Reaches, Repeat;
    var m' := m.(nodes := m.nodes[t := m.nodes[t].(next := Some(node))]);
    AtFields(m, tid);
    AtFields(m', tid);
    PushStages(m, tid, v, node, t);
    PushLastStages(m, tid, v, node, t);
    PushLastStages(m', tid, v, node, t);
    var m'' := m'.(tail := node);
    AtFields(m'', tid);
    PushLastStages(m'', tid, v, node, node);
    Begins(s, c, At(m, tid, PushLoadTail(v, node)));
    GoesOn(s, c, 1, At(m, tid, PushLoadTail(v, node)), At(m, tid, PushLoadNext(v, node, t)));
    GoesOn(s, c, 2, At(m, tid, PushLoadNext(v, node, t)), At(m, tid, PushCheckTail(v, node, t, None)));
    GoesOn(s, c, 3, At(m, tid, PushCheckTail(v, node, t, None)), At(m, tid, PushLink(v, node, t)));
    GoesOn(s, c, 4, At(m, tid, PushLink(v, node, t)), At(m', tid, PushSwing(v, node, t)));
    GoesOn(s, c, 5, At(m', tid, PushSwing(v, node, t)), At(m'', tid, PushReturn(v)));
    Ends(s, c, 6, At(m'', tid, PushReturn(v)), At(m'', tid, Ready), Pushed);
    AtRest(m'', tid);
  }

  lemma AtFields<T>(m: State<T>, tid: nat)
    requires tid < |m.threads|
    ensures forall pc :: |At(m, tid, pc).threads| == |m.threads|
  {
  }

  lemma AtRest<T>(m: State<T>, tid: nat)
    requires tid < |m.threads| && m.threads[tid] == Ready
    ensures At(m, tid, Ready) == m
  {
  }

  lemma RestsMeans<T>(s: State<T>, ch: Chain, tid: nat, held: seq<T>)
    requires Rests(s, ch, tid, held)
    ensures held != [] ==> ch.rank[s.head] < ch.rank[s.tail]
    ensures Allocated(s) && tid < |s.threads| && s.threads[tid] == Ready && s.tail < |s.nodes| && s.head < |s.nodes|
    ensures s.nodes[s.tail].next.None? && (s.head == s.tail <==> held == [])
    ensures held != [] ==>
              var next := s.nodes[s.head].next;
              next.Some? && next.value < |s.nodes| && s.nodes[next.value].value == held[0] && Follows(ch, s.head, next.value)
  {
    NextInChain(s, ch, s.tail);
    NextInChain(s, ch, s.head);
    if ch.rank[s.head] == ch.rank[s.tail] { RankInjective(s, ch, s.head, s.tail); }
    assert held == Contents(s, ch);
    if held != [] {
      var next := s.nodes[s.head].next.value;
      assert ch.order[ch.rank[s.head] + 1] == next;
    }
  }

  lemma PopStages<T>(m: State<T>, tid: nat, h: nat, t: nat, next: Option<nat>)
    requires tid < |m.threads| && h == m.head < |m.nodes| && t == m.tail && next == m.nodes[h].next
    ensures var c := Choice(tid, Pop, false);
            && (Allocated(At(m, tid, PopLoadHead)) ==>
                  Step(At(m, tid, PopLoadHead), c) == Move(At(m, tid, PopLoadTail(h)), Internal(tid)))
            && (Allocated(At(m, tid, PopLoadTail(h))) ==>
                  Step(At(m, tid, PopLoadTail(h)), c) == Move(At(m, tid, PopLoadNext(h, t)), Internal(tid)))
            && (Allocated(At(m, tid, PopLoadNext(h, t))) ==>
                  Step(At(m, tid, PopLoadNext(h, t)), c) == Move(At(m, tid, PopCheckHead(h, t, next)), Internal(tid)))
            && (Allocated(At(m, tid, PopCheckHead(h, t, next))) && h == t && next.None? ==>
                  Step(At(m, tid, PopCheckHead(h, t, next)), c) == Move(At(m, tid, PopReturnEmpty), Internal(tid)))
  {
  }

  lemma PopLastStages<T>(m: State<T>, tid: nat, h: nat, t: nat, next: nat, v: T)
    requires tid < |m.threads| && h == m.head && h != t && next < |m.nodes| && m.nodes[next].value == v
    ensures var c := Choice(tid, Pop, false);
            && (Allocated(At(m, tid, PopCheckHead(h, t, Some(next)))) ==>
                  Step(At(m, tid, PopCheckHead(h, t, Some(next))), c) == Move(At(m, tid, PopLoadValue(h, Some(next))), Internal(tid)))
            && (Allocated(At(m, tid, PopLoadValue(h, Some(next)))) ==>
                  Step(At(m, tid, PopLoadValue(h, Some(next))), c) == Move(At(m, tid, PopUnlink(h, next, v)), Internal(tid)))
            && (Allocated(At(m, tid, PopUnlink(h, next, v))) ==>
                  Step(At(m, tid, PopUnlink(h, next, v)), c) == Move(At(m.(head := next), tid, PopReturn(v)), Internal(tid)))
  {
  }

  lemma PopReturns<T>(m: State<T>, tid: nat, v: T)
    requires tid < |m.threads|
    ensures var c := Choice(tid, Pop, false);
            && (Allocated(At(m, tid, PopReturn(v))) ==>
                  Step(At(m, tid, PopReturn(v)), c) == Move(At(m, tid, Ready), Respond(tid, Popped(v))))
            && (Allocated(At(m, tid, PopReturnEmpty)) ==>
                  Step(At(m, tid, PopReturnEmpty), c) == Move(At(m, tid, Ready), Respond(tid, Empty)))
  {
  }

  lemma PopSteps<T>(s: State<T>, ch: Chain, tid: nat, held: seq<T>)
    requires Rests(s, ch, tid, held) && held != []
    ensures var c := Choice(tid, Pop, false);
            && s.head < |s.nodes| && s.nodes[s.head].next.Some?
            && Repeat(s, c, 8) == (s.(head := s.nodes[s.head].next.value), CallTrace(tid, Pop, 6, Popped(held[0])))
  {
    RestsMeans(s, ch, tid, held);
    var c, h, t, v := Choice(tid, Pop, false), s.head, s.tail, held[0];
    var next := s.nodes[h].next.value;
    StepAllocated(s, c);
    assert Step(s, c) == Move(At(s, tid, PopLoadHead), Invoke(tid, Pop));
    hide Step, Rests, Allocated, At, Reaches, Repeat;
    var m := s.(head := next);
    AtFields(s, tid);
    AtFields(m, tid);
    PopStages(s, tid, h, t, Some(next));
    PopLastStages(s, tid, h, t, next, v);
    PopReturns(m, tid, v);
    Begins(s, c, At(s, tid, PopLoadHead));
    GoesOn(s, c, 1, At(s, tid, PopLoadHead), At(s, tid, PopLoadTail(h)));
    GoesOn(s, c, 2, At(s, tid, PopLoadTail(h)), At(s, tid, PopLoadNext(h, t)));
    GoesOn(s, c, 3, At(s, tid, PopLoadNext(h, t)), At(s, tid, PopCheckHead(h, t, Some(next))));
    GoesOn(s, c, 4, At(s, tid, PopCheckHead(h, t, Some(next))), At(s, tid, PopLoadValue(h, Some(next))));
    GoesOn(s, c, 5, At(s, tid, PopLoadValue(h, Some(next))), At(s, tid, PopUnlink(h, next, v)));
    GoesOn(s, c, 6, At(s, tid, PopUnlink(h, next, v)), At(m, tid, PopReturn(v)));
    Ends(s, c, 7, At(m, tid, PopReturn(v)), At(m, tid, Ready), Popped(v));
    AtRest(m, tid);
  }

  lemma EmptyPopSteps<T>(s: State<T>, ch: Chain, tid: nat)
    requires Rests(s, ch, tid, [])
    ensures Repeat(s, Choice(tid, Pop, false), 6) == (s, CallTrace(tid, Pop, 4, Empty))
  {
    RestsMeans(s, ch, tid, []);
    var c, h := Choice(tid, Pop, false), s.head;
    StepAllocated(s, c);
    assert Step(s, c) == Move(At(s, tid, PopLoadHead), Invoke(tid, Pop));
    hide Step, Rests, Allocated, At, Reaches, Repeat;
    AtFields(s, tid);
    PopStages(s, tid, h, h, None);
    PopReturns(s, tid, s.nodes[h].value);
    Begins(s, c, At(s, tid, PopLoadHead));
    GoesOn(s, c, 1, At(s, tid, PopLoadHead), At(s, tid, PopLoadTail(h)));
    GoesOn(s, c, 2, At(s, tid, PopLoadTail(h)), At(s, tid, PopLoadNext(h, h)));
    GoesOn(s, c, 3, At(s, tid, PopLoadNext(h, h)), At(s, tid, PopCheckHead(h, h, None)));
    GoesOn(s, c, 4, At(s, tid, PopCheckHead(h, h, None)), At(s, tid, PopReturnEmpty));
    Ends(s, c, 5, At(s, tid, PopReturnEmpty), At(s, tid, Ready), Empty);
    AtRest(s, tid);
  }

  lemma RestsShape<T>(s: State<T>, ch: Chain, tid: nat, held: seq<T>)
    requires Rests(s, ch, tid, held)
    ensures Shape(s, ch) && Contents(s, ch) == held && s.head in ch.rank && s.tail in ch.rank
  {
  }

  lemma PushRests<T>(s: State<T>, ch: Chain, tid: nat, held: seq<T>, v: T) returns (ch': Chain)
    requires Rests(s, ch, tid, held)
    ensures var grown, node := s.nodes + [Node(v, None)], |s.nodes|;
            && s.tail < |grown|
            && var s' := s.(nodes := grown[s.tail := grown[s.tail].(next := Some(node))], tail := node);
               Allocated(s') ==> Rests(s', ch', tid, held + [v])
  {
    RestsMeans(s, ch, tid, held);
    var node := |s.nodes|;
    var s0 := s.(nodes := s.nodes + [Node(v, None)]);
    AllocateKeepsShape(s, ch, Allocate(v), s0);
    if node in ch.rank { NextInChain(s, ch, node); }
    var link: Write<T> := Link(s.tail, node);
    var s1 := s0.(nodes := s0.nodes[s.tail := s0.nodes[s.tail].(next := Some(node))]);
    SafeWrite(s0, ch, link, s1);
    ch' := Grown(ch, link);
    SafeWrite(s1, ch', SwingTail(node), s1.(tail := node));
  }

  /** One call more: the answer of the sequential queue, and the thread rests again. */
  lemma OneCall<T>(s: State<T>, ch: Chain, tid: nat, held: seq<T>, call: Call<T>) returns (ch': Chain)
    requires Rests(s, ch, tid, held)
    ensures var (s', labels) := Repeat(s, Choice(tid, call, false), StepsOf(held, call));
            Rests(s', ch', tid, HeldAfter(held, call)) && Responses(labels) == [Answer(held, call)]
  {
    hide Allocated, Shape, Contents;
    RestsMeans(s, ch, tid, held);
    match call
    case Push(v) =>
      PushSteps(s, ch, tid, held, v);
      ch' := PushRests(s, ch, tid, held, v);
      OneResponse(tid, call, 5, Pushed);
    case Pop =>
      ch' := ch;
      if held == [] {
        EmptyPopSteps(s, ch, tid);
        OneResponse(tid, call, 4, Empty);
      } else {
        PopSteps(s, ch, tid, held);
        RestsShape(s, ch, tid, held);
        SwingHeadDrops(s, ch, SwingHead(s.nodes[s.head].next.value), s.(head := s.nodes[s.head].next.value));
        OneResponse(tid, call, 6, Popped(held[0]));
      }
  }

  lemma {:induction false} ScriptRuns<T>(threadCount: nat, dummy: T, tid: nat, calls: seq<Call<T>>) returns (ch: Chain)
    requires tid < threadCount
    ensures Schedule(threadCount, Script(tid, calls))
    ensures var (s, labels) := Run(threadCount, dummy, Script(tid, calls));
            Rests(s, ch, tid, Held(calls)) && Responses(labels) == Answers(calls)
  {
    hide Rests, Answer, HeldAfter, StepsOf;
    if calls == [] {
      ch := Chain([0], map[0 := 0]);
      InitRests(threadCount, dummy, tid);
    } else {
      var before, call := calls[..|calls| - 1], calls[|calls| - 1];
      ch := ScriptRuns(threadCount, dummy, tid, before);
      var (s, labels) := Run(threadCount, dummy, Script(tid, before));
      var n := StepsOf(Held(before), call);
      RunRepeats(threadCount, dummy, Script(tid, before), Choice(tid, call, false), n);
      ch := OneCall(s, ch, tid, Held(before), call);
      ResponsesConcat(labels, Repeat(s, Choice(tid, call, false), n).1);
    }
  }

  lemma InitRests<T>(threadCount: nat, dummy: T, tid: nat)
    requires tid < threadCount
    ensures Rests(Init(threadCount, dummy), Chain([0], map[0 := 0]), tid, [])
  {
    InitInv(threadCount, dummy);
  }

  /** Whatever calls a thread makes while it is alone, it gets the answers of a queue. */
  lemma AloneItIsAQueue<T>(threadCount: nat, dummy: T, tid: nat, calls: seq<Call<T>>)
    requires tid < threadCount
    ensures Schedule(threadCount, Script(tid, calls))
    ensures Responses(Run(threadCount, dummy, Script(tid, calls)).1) == Answers(calls)
  {
    var _ := ScriptRuns(threadCount, dummy, tid, calls);
  }

  function Pops<T>(n: nat): seq<Call<T>> { seq(n, _ => Pop) }

  lemma {:induction false} PushesAnswered<T>(values: seq<T>)
    ensures Held(Pushes(values)) == values && Answers(Pushes(values)) == seq(|values|, _ => Pushed)
  {
    if values != [] {
      var before := values[..|values| - 1];
      PushesAnswered(before);
      assert Pushes(values)[..|values| - 1] == Pushes(before);
      assert values == before + [values[|values| - 1]];
    }
  }

  lemma MoreCalls<T>(calls: seq<Call<T>>, call: Call<T>)
    ensures Held(calls + [call]) == HeldAfter(Held(calls), call)
    ensures Answers(calls + [call]) == Answers(calls) + [Answer(Held(calls), call)]
  {
    assert (calls + [call])[..|calls|] == calls;
  }

  lemma {:induction false} PopsAnswered<T>(values: seq<T>, n: nat)
    requires n <= |values|
    ensures var calls := Pushes(values) + Pops(n);
            && Held(calls) == values[n..]
            && Answers(calls) == seq(|values|, _ => Pushed) + seq(n, i requires 0 <= i < n => Popped(values[i]))
  {
    hide Held, Answers, Pushes;
    PushesAnswered(values);
    if n == 0 {
      assert Pushes(values) + Pops(0) == Pushes(values);
    } else {
      PopsAnswered(values, n - 1);
      MoreCalls(Pushes(values) + Pops(n - 1), Pop);
      assert Pushes(values) + Pops(n) == Pushes(values) + Pops(n - 1) + [Pop];
      assert values[n - 1..][1..] == values[n..];
    }
  }

  /** Values pushed and then popped come back in their order, and then there is none. */
  lemma PushedThenPopped<T>(threadCount: nat, dummy: T, tid: nat, values: seq<T>)
    requires tid < threadCount
    ensures var script := Script(tid, Pushes(values) + Pops(|values| + 1));
            && Schedule(threadCount, script)
            && Responses(Run(threadCount, dummy, script).1) ==
               seq(|values|, _ => Pushed) + seq(|values|, i requires 0 <= i < |values| => Popped(values[i])) + [Empty]
  {
    hide Script, Held, Answers, Run;
    var calls := Pushes(values) + Pops(|values|);
    PopsAnswered(values, |values|);
    MoreCalls(calls, Pop);
    assert calls + [Pop] == Pushes(values) + Pops(|values| + 1);
    AloneItIsAQueue(threadCount, dummy, tid, calls + [Pop]);
  }
}
