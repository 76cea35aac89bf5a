/** What it means for a trace of a concurrent FIFO queue to be linearizable.

    A trace is a sequence of labels, one per atomic step of some thread.  To explain
    a trace one picks, for each step, at most one operation that takes effect there
    (its linearization point).  The explanation is good when the operations, taken in
    the order of those points, form a legal run of a sequential FIFO queue, and every
    point lies between the invocation and the response of the operation it explains.
 */
module Linearizability {
  import opened Common

  datatype Call<+T> = Push(value: T) | Pop

  /** Pushed and Rejected answer a push (true and false); Popped and Empty answer a pop. */
  datatype Outcome<+T> = Pushed | Rejected | Popped(value: T) | Empty

  datatype Label<+T> =
    | Invoke(tid: nat, call: Call<T>)
    | Internal(tid: nat)
    | Respond(tid: nat, outcome: Outcome<T>)

  datatype Effect<+T> = Effect(tid: nat, call: Call<T>, outcome: Outcome<T>)

  /** One operation on the sequential queue; None when that outcome is not allowed.
      With a limit, the queue may refuse a push once it holds `limit` items and must
      refuse it once it holds twice as many. */
  function Apply<T(==)>(q: seq<T>, e: Effect<T>, limit: Option<nat>): Option<seq<T>> {
    match (e.call, e.outcome)
    case (Push(v), Pushed) => if limit.Some? && |q| >= 2 * limit.value then None else Some(q + [v])
    case (Push(_), Rejected) => if limit.Some? && |q| >= limit.value then Some(q) else None
    case (Pop, Popped(v)) => if |q| > 0 && q[0] == v then Some(q[1..]) else None
    case (Pop, Empty) => if q == [] then Some(q) else None
    case _ => None
  }

  /** The sequential queue after all points, or None when some outcome was not allowed. */
  function Replay<T(==)>(points: seq<Option<Effect<T>>>, limit: Option<nat>): Option<seq<T>> {
    if points == [] then Some([]) else
    var before := Replay(points[..|points| - 1], limit);
    var point := points[|points| - 1];
    if before.None? || point.None? then before else Apply(before.value, point.value, limit)
  }

  /** Where a thread stands: no operation, one without effect yet, one with its effect. */
  datatype Status<+T> = Idle | Pending(call: Call<T>) | Done(call: Call<T>, outcome: Outcome<T>)

  function Invoked<T>(status: Status<T>, act: Label<T>, tid: nat): Option<Status<T>> {
    if act.Invoke? && act.tid == tid then
      if status.Idle? then Some(Pending(act.call)) else None
    else Some(status)
  }

  function Effected<T(==)>(status: Status<T>, point: Option<Effect<T>>, tid: nat): Option<Status<T>> {
    if point.Some? && point.value.tid == tid then
      if status == Pending(point.value.call) then Some(Done(point.value.call, point.value.outcome)) else None
    else Some(status)
  }

  function Responded<T(==)>(status: Status<T>, act: Label<T>, tid: nat): Option<Status<T>> {
    if act.Respond? && act.tid == tid then
      if status.Done? && status.outcome == act.outcome then Some(Idle) else None
    else Some(status)
  }

  function Advance<T(==)>(status: Status<T>, act: Label<T>, point: Option<Effect<T>>, tid: nat)
    : Option<Status<T>>
  {
    var s1 := Invoked(status, act, tid);
    if s1.None? then None else
    var s2 := Effected(s1.value, point, tid);
    if s2.None? then None else Responded(s2.value, act, tid)
  }

  /** The status of one thread after the whole trace; None when a point lies outside
      the operation it explains, or an operation returns something else than its effect. */
  function Track<T(==)>(labels: seq<Label<T>>, points: seq<Option<Effect<T>>>, tid: nat): Option<Status<T>>
    requires |labels| == |points|
  {
    if labels == [] then Some(Idle) else
    var n := |labels| - 1;
    var before := Track(labels[..n], points[..n], tid);
    if before.None? then None else Advance(before.value, labels[n], points[n], tid)
  }

  ghost predicate Explains<T>(labels: seq<Label<T>>, points: seq<Option<Effect<T>>>, limit: Option<nat>) {
    && |points| == |labels|
    && Replay(points, limit).Some?
    && forall tid: nat :: Track(labels, points, tid).Some?
  }

  ghost predicate Linearizable<T(!new)>(labels: seq<Label<T>>, limit: Option<nat>) {
    exists points: seq<Option<Effect<T>>> :: Explains(labels, points, limit)
  }

  /** A pop that finds the queue empty may be given its point after the fact: at a past
      step of its own where the sequential queue was empty and nothing else took effect. */
  ghost predicate EmptyAt<T>(labels: seq<Label<T>>, points: seq<Option<Effect<T>>>, limit: Option<nat>,
                             tid: nat, k: nat)
    requires |labels| == |points|
  {
    && k < |labels|
    && labels[k] == Internal(tid)
    && points[k] == None
    && Replay(points[..k], limit) == Some([])
    && forall j | k <= j <= |labels| :: Track(labels[..j], points[..j], tid) == Some(Pending(Pop))
  }

  function EmptyPoint<T>(tid: nat): Option<Effect<T>> { Some(Effect(tid, Pop, Empty)) }

  lemma {:induction false} ReplayWithEmpty<T>(points: seq<Option<Effect<T>>>, limit: Option<nat>, tid: nat, k: nat)
    requires k < |points| && points[k] == None && Replay(points[..k], limit) == Some([])
    ensures Replay(points[k := EmptyPoint(tid)], limit) == Replay(points, limit)
  {
    var n := |points| - 1;
    var changed := points[k := EmptyPoint(tid)];
    if k == n {
      assert changed[..n] == points[..n];
    } else {
      assert changed[..n] == points[..n][k := EmptyPoint(tid)];
      assert points[..n][..k] == points[..k];
      ReplayWithEmpty(points[..n], limit, tid, k);
    }
  }

  lemma {:induction false} TrackOthers<T>(labels: seq<Label<T>>, points: seq<Option<Effect<T>>>, tid: nat, k: nat, other: nat)
    requires |labels| == |points| && k < |points| && points[k] == None && other != tid
    ensures Track(labels, points[k := EmptyPoint(tid)], other) == Track(labels, points, other)
  {
    var n := |points| - 1;
    var changed := points[k := EmptyPoint(tid)];
    if k == n {
      assert changed[..n] == points[..n];
    } else {
      assert changed[..n] == points[..n][k := EmptyPoint(tid)];
      TrackOthers(labels[..n], points[..n], tid, k, other);
    }
  }

  /** Giving a waiting pop its empty point turns it from waiting to done. */
  lemma {:induction false} TrackWithEmpty<T>(labels: seq<Label<T>>, points: seq<Option<Effect<T>>>, limit: Option<nat>,
                                             tid: nat, k: nat)
    requires |labels| == |points| && EmptyAt(labels, points, limit, tid, k)
    ensures Track(labels, points[k := EmptyPoint(tid)], tid) == Some(Done(Pop, Empty))
  {
    var n := |points| - 1;
    var changed := points[k := EmptyPoint(tid)];
    assert labels[..n + 1] == labels && points[..n + 1] == points;
    assert Track(labels[..n], points[..n], tid) == Some(Pending(Pop));
    if k == n {
      assert changed[..n] == points[..n];
    } else {
      assert changed[..n] == points[..n][k := EmptyPoint(tid)];
      EmptyAtPrefix(labels, points, limit, tid, k, n);
      TrackWithEmpty(labels[..n], points[..n], limit, tid, k);
      assert Track(labels, points, tid) == Some(Pending(Pop));
    }
  }

  lemma EmptyAtPrefix<T>(labels: seq<Label<T>>, points: seq<Option<Effect<T>>>, limit: Option<nat>,
                         tid: nat, k: nat, n: nat)
    requires |labels| == |points| && EmptyAt(labels, points, limit, tid, k)
    requires k < n <= |labels|
    ensures EmptyAt(labels[..n], points[..n], limit, tid, k)
  {
    assert points[..n][..k] == points[..k];
    forall j | k <= j <= n
      ensures Track(labels[..n][..j], points[..n][..j], tid) == Some(Pending(Pop))
    {
      assert labels[..n][..j] == labels[..j] && points[..n][..j] == points[..j];
    }
  }

  /** A chance to be empty survives a step that leaves the thread waiting. */
  lemma EmptyAtExtend<T>(labels: seq<Label<T>>, points: seq<Option<Effect<T>>>, limit: Option<nat>,
                         tid: nat, k: nat, act: Label<T>, point: Option<Effect<T>>)
    requires |labels| == |points| && EmptyAt(labels, points, limit, tid, k)
    requires Track(labels + [act], points + [point], tid) == Some(Pending(Pop))
    ensures EmptyAt(labels + [act], points + [point], limit, tid, k)
  {
    var ls, ps := labels + [act], points + [point];
    assert ps[..k] == points[..k];
    forall j | k <= j <= |ls|
      ensures Track(ls[..j], ps[..j], tid) == Some(Pending(Pop))
    {
      if j < |ls| {
        assert ls[..j] == labels[..j] && ps[..j] == points[..j];
      } else {
        assert ls[..j] == ls && ps[..j] == ps;
      }
    }
  }

  /** A chance to be empty survives another thread using its own. */
  lemma EmptyAtOther<T>(labels: seq<Label<T>>, points: seq<Option<Effect<T>>>, limit: Option<nat>,
                        tid: nat, k: nat, other: nat, m: nat)
    requires |labels| == |points| && other != tid
    requires EmptyAt(labels, points, limit, tid, k) && EmptyAt(labels, points, limit, other, m)
    ensures EmptyAt(labels, points[k := EmptyPoint(tid)], limit, other, m)
  {
    var changed := points[k := EmptyPoint(tid)];
    if k < m {
      assert changed[..m] == points[..m][k := EmptyPoint(tid)];
      assert points[..m][..k] == points[..k];
      ReplayWithEmpty(points[..m], limit, tid, k);
    } else {
      assert changed[..m] == points[..m];
    }
    forall j | m <= j <= |labels|
      ensures Track(labels[..j], changed[..j], other) == Some(Pending(Pop))
    {
      if k < j {
        assert changed[..j] == points[..j][k := EmptyPoint(tid)];
        TrackOthers(labels[..j], points[..j], tid, k, other);
      } else {
        assert changed[..j] == points[..j];
      }
    }
  }

  lemma ReplayExtend<T>(points: seq<Option<Effect<T>>>, point: Option<Effect<T>>, limit: Option<nat>)
    ensures Replay(points + [point], limit) ==
            var before := Replay(points, limit);
            if before.None? || point.None? then before else Apply(before.value, point.value, limit)
  {
    assert (points + [point])[..|points|] == points;
  }

  lemma TrackExtend<T>(labels: seq<Label<T>>, points: seq<Option<Effect<T>>>, act: Label<T>, point: Option<Effect<T>>, tid: nat)
    requires |labels| == |points|
    ensures Track(labels + [act], points + [point], tid) ==
            var before := Track(labels, points, tid);
            if before.None? then None else Advance(before.value, act, point, tid)
  {
    assert (labels + [act])[..|labels|] == labels;
    assert (points + [point])[..|points|] == points;
  }

  /** The values of the pushes that took effect, and of the pops that did, in order. */
  function PushedValues<T>(points: seq<Option<Effect<T>>>): seq<T> {
    if points == [] then [] else
    var point := points[|points| - 1];
    PushedValues(points[..|points| - 1]) +
    (if point.Some? && point.value.outcome.Pushed? && point.value.call.Push? then [point.value.call.value] else [])
  }

  function PoppedValues<T>(points: seq<Option<Effect<T>>>): seq<T> {
    if points == [] then [] else
    var point := points[|points| - 1];
    PoppedValues(points[..|points| - 1]) +
    (if point.Some? && point.value.outcome.Popped? then [point.value.outcome.value] else [])
  }

  /** In any legal order nothing is lost, repeated or reordered: what was pushed is what
      was popped followed by what is still queued. */
  lemma {:induction false} FirstInFirstOut<T>(points: seq<Option<Effect<T>>>, limit: Option<nat>)
    requires Replay(points, limit).Some?
    ensures PushedValues(points) == PoppedValues(points) + Replay(points, limit).value
  {
    if points != [] {
      FirstInFirstOut(points[..|points| - 1], limit);
    }
  }

  /** The outcomes with which the calls of a trace return, in order. */
  function Responses<T>(labels: seq<Label<T>>): seq<Outcome<T>> {
    if labels == [] then [] else
    var last := labels[|labels| - 1];
    Responses(labels[..|labels| - 1]) + if last.Respond? then [last.outcome] else []
  }

  lemma {:induction false} ResponsesConcat<T>(a: seq<Label<T>>, b: seq<Label<T>>)
    ensures Responses(a + b) == Responses(a) + Responses(b)
  {
    if b == [] {
      assert a + b == a;
    } else {
      assert (a + b)[..|a + b| - 1] == a + b[..|b| - 1];
      ResponsesConcat(a, b[..|b| - 1]);
    }
  }

  /** A call nobody interferes with: asked, so many steps, answered. */
  function CallTrace<T>(tid: nat, call: Call<T>, n: nat, outcome: Outcome<T>): seq<Label<T>> {
    [Invoke(tid, call)] + seq(n, _ => Label<T>.Internal(tid)) + [Respond(tid, outcome)]
  }

  lemma {:induction false} NoResponses<T>(tid: nat, n: nat)
    ensures Responses(seq(n, _ => Label<T>.Internal(tid))) == []
  {
    if n > 0 {
      NoResponses<T>(tid, n - 1);
      assert seq(n, _ => Label<T>.Internal(tid))[..n - 1] == seq(n - 1, _ => Label<T>.Internal(tid));
    }
  }

  lemma OneResponse<T>(tid: nat, call: Call<T>, n: nat, outcome: Outcome<T>)
    ensures Responses(CallTrace(tid, call, n, outcome)) == [outcome]
  {
    var first: seq<Label<T>> := [Invoke(tid, call)];
    var labels := first + seq(n, _ => Label<T>.Internal(tid));
    NoResponses<T>(tid, n);
    ResponsesConcat(first, seq(n, _ => Label<T>.Internal(tid)));
    assert first[..0] == [];
    assert CallTrace(tid, call, n, outcome)[..|labels|] == labels;
  }

  function Pushes<T>(values: seq<T>): seq<Call<T>> { seq(|values|, i requires 0 <= i < |values| => Push(values[i])) }

  // ---------------------------------------------- what an explanation says of the trace

  lemma {:induction false} ReplayPrefix<T>(points: seq<Option<Effect<T>>>, limit: Option<nat>, k: nat)
    requires Replay(points, limit).Some? && k <= |points|
    ensures Replay(points[..k], limit).Some?
    decreases |points|
  {
    if k == |points| {
      assert points[..k] == points;
    } else {
      ReplayPrefix(points[..|points| - 1], limit, k);
      assert points[..|points| - 1][..k] == points[..k];
    }
  }

  /** A pop gets the oldest value pushed and not yet popped, and fails only when there is none; with
      a limit, a push is refused only from the limit on and taken only below twice the limit. */
  lemma OutcomesAreEarned<T>(points: seq<Option<Effect<T>>>, limit: Option<nat>, k: nat)
    requires Replay(points, limit).Some? && k < |points| && points[k].Some?
    ensures var pushed, popped := PushedValues(points[..k]), PoppedValues(points[..k]);
            var e := points[k].value;
            && |popped| <= |pushed|
            && (e.call.Push? <==> e.outcome.Pushed? || e.outcome.Rejected?)
            && match e.outcome
               case Pushed => limit.Some? ==> |pushed| - |popped| < 2 * limit.value
               case Rejected => limit.Some? && |pushed| - |popped| >= limit.value
               case Popped(v) => |popped| < |pushed| && v == pushed[|popped|]
               case Empty => popped == pushed
  {
    ReplayPrefix(points, limit, k);
    ReplayPrefix(points, limit, k + 1);
    assert points[..k + 1][..k] == points[..k];
    FirstInFirstOut(points[..k], limit);
  }

  /** Since its call at `a` the thread has neither called nor returned. */
  ghost predicate InCall<T>(labels: seq<Label<T>>, tid: nat, call: Call<T>, a: nat) {
    && a < |labels| && labels[a] == Invoke(tid, call)
    && forall i | a < i < |labels| && labels[i].tid == tid :: labels[i].Internal?
  }

  ghost predicate TookEffect<T>(points: seq<Option<Effect<T>>>, e: Effect<T>, a: nat) {
    exists k | a <= k < |points| :: points[k] == Some(e)
  }

  lemma {:induction false} StatusMeans<T>(labels: seq<Label<T>>, points: seq<Option<Effect<T>>>, tid: nat) returns (a: nat)
    requires |labels| == |points| && Track(labels, points, tid).Some?
    ensures match Track(labels, points, tid).value
            case Idle => true
            case Pending(call) => InCall(labels, tid, call, a)
            case Done(call, outcome) => InCall(labels, tid, call, a) && TookEffect(points, Effect(tid, call, outcome), a)
  {
    a := 0;
    if labels != [] {
      var n := |labels| - 1;
      var before := StatusMeans(labels[..n], points[..n], tid);
      var was := Track(labels[..n], points[..n], tid).value;
      a := if labels[n].Invoke? && labels[n].tid == tid then n else before;
      if was.Done? && TookEffect(points[..n], Effect(tid, was.call, was.outcome), before) {
        var k :| before <= k < n && points[..n][k] == Some(Effect(tid, was.call, was.outcome));
        assert points[k] == Some(Effect(tid, was.call, was.outcome));
      }
      if points[n].Some? && points[n].value.tid == tid {
        assert points[n] == Some(points[n].value);
      }
    }
  }

  /** Every return was preceded by its call, and between the two the call took effect with just
      that outcome. */
  lemma ReturnsAreExplained<T>(labels: seq<Label<T>>, points: seq<Option<Effect<T>>>, limit: Option<nat>, i: nat)
    returns (a: nat, k: nat)
    requires Explains(labels, points, limit) && i < |labels| && labels[i].Respond?
    ensures a < i && labels[a].Invoke? && labels[a].tid == labels[i].tid && a <= k <= i
    ensures points[k] == Some(Effect(labels[i].tid, labels[a].call, labels[i].outcome))
    ensures forall j | a < j < i && labels[j].tid == labels[i].tid :: labels[j].Internal?
  {
    var tid := labels[i].tid;
    TrackPrefix(labels, points, tid, i + 1);
    TrackPrefix(labels, points, tid, i);
    assert labels[..i + 1][..i] == labels[..i] && points[..i + 1][..i] == points[..i];
    a := StatusMeans(labels[..i], points[..i], tid);
    var was := Track(labels[..i], points[..i], tid).value;
    if was.Done? {
      k :| a <= k < i && points[..i][k] == Some(Effect(tid, was.call, was.outcome));
    } else {
      k := i;
    }
  }

  lemma {:induction false} TrackPrefix<T>(labels: seq<Label<T>>, points: seq<Option<Effect<T>>>, tid: nat, k: nat)
    requires |labels| == |points| && Track(labels, points, tid).Some? && k <= |labels|
    ensures Track(labels[..k], points[..k], tid).Some?
    decreases |labels|
  {
    if k == |labels| {
      assert labels[..k] == labels && points[..k] == points;
    } else {
      var n := |labels| - 1;
      TrackPrefix(labels[..n], points[..n], tid, k);
      assert labels[..n][..k] == labels[..k] && points[..n][..k] == points[..k];
    }
  }
}
