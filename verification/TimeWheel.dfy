/** Timers as a plain set of deadlines: what the wheel with its sixty slots must look
    like from outside, and what follows for whole runs. */
module Timers {
  type Id = nat

  const SLOTS := 60

  datatype Timer = Timer(range: int, target: int, repeat: bool)

  /** A callback that has run: for which event, which target it had, at which check. */
  datatype Firing = Firing(id: Id, target: int, at: int)

  datatype State = State(pending: map<Id, Timer>, used: nat, lastCheck: int, now: int, fired: seq<Firing>)

  ghost predicate Fires(fired: seq<Firing>, id: Id) { exists i | 0 <= i < |fired| :: fired[i].id == id }

  /** Which pending events a check at time `current` fires: those whose target has passed,
      and those due right now if the wheel has gone round since the last check. */
  predicate Due(t: Timer, lastCheck: int, current: int) {
    t.target < current || (t.target == current && current - lastCheck >= SLOTS)
  }

  ghost predicate Ready(s: State) {
    && s.lastCheck <= s.now
    && (forall id | id in s.pending :: id < s.used && Sound(s.pending[id], s.lastCheck))
  }

  predicate Sound(t: Timer, lastCheck: int) { t.target >= lastCheck && t.range >= 0 && (t.repeat ==> t.range >= 1) }

  ghost predicate DelayStep(s: State, s': State, id: Id, seconds: nat, repeat: bool) {
    && id == s.used && s'.used == s.used + 1
    && s.now <= s'.now && s'.lastCheck == s.lastCheck && s'.fired == s.fired
    && s'.pending == s.pending[id := Timer(seconds, s'.now + seconds, repeat)]
  }

  ghost predicate CancelStep(s: State, s': State, id: Id) {
    id in s.pending && s' == s.(pending := s.pending - {id})
  }

  /** What has been fired since. */
  function News(s: State, s': State): seq<Firing> {
    if |s.fired| <= |s'.fired| then s'.fired[|s.fired|..] else []
  }

  ghost predicate CheckStep(s: State, s': State) {
    var current, news := s'.lastCheck, News(s, s');
    && s.now <= current <= s'.now && s'.used == s.used && s.fired <= s'.fired
    && FiredOnce(s.pending, news, s.lastCheck, current)
    && (forall id | id in s'.pending :: id in s.pending)
    && (forall id | id in s.pending :: Outcome(s.pending, s'.pending, id, Due(s.pending[id], s.lastCheck, current), current, s'.now))
    && ByTurns(news, s.lastCheck)
  }

  /** Exactly the due events fire, each once, at its target. */
  ghost predicate FiredOnce(pending: map<Id, Timer>, news: seq<Firing>, lastCheck: int, current: int) {
    && (forall i | 0 <= i < |news| ::
          && news[i].id in pending && Due(pending[news[i].id], lastCheck, current)
          && news[i].target == pending[news[i].id].target && news[i].at == current)
    && (forall i, j | 0 <= i < j < |news| :: news[i].id != news[j].id)
    && (forall id | id in pending && Due(pending[id], lastCheck, current) :: Fires(news, id))
  }

  /** What becomes of one pending event. */
  ghost predicate Outcome(before: map<Id, Timer>, after: map<Id, Timer>, id: Id, fires: bool, current: int, now: int)
    requires id in before
  {
    var t := before[id];
    if !fires then id in after && after[id] == t
    else if !t.repeat then id !in after
    else
      && id in after && after[id] == t.(target := after[id].target)
      && current + t.range <= after[id].target <= now + t.range
  }

  ghost predicate InOrder(news: seq<Firing>) { forall i, j | 0 <= i < j < |news| :: news[i].target <= news[j].target }

  /** How far round the wheel a target lies from the last check. */
  function Turn(lastCheck: int, target: int): int { (target - lastCheck) % SLOTS }

  /** In the order in which a check comes round to them. */
  ghost predicate ByTurns(news: seq<Firing>, lastCheck: int) {
    forall i, j | 0 <= i < j < |news| :: Turn(lastCheck, news[i].target) <= Turn(lastCheck, news[j].target)
  }

  datatype Event = Delay(id: Id, seconds: nat, repeat: bool) | Cancel(id: Id) | Check

  ghost predicate Step(s: State, e: Event, s': State) {
    match e
    case Delay(id, seconds, repeat) => (repeat ==> seconds >= 1) && DelayStep(s, s', id, seconds, repeat)
    case Cancel(id) => CancelStep(s, s', id)
    case Check => CheckStep(s, s')
  }

  ghost predicate IsRun(states: seq<State>, events: seq<Event>) {
    && |states| == |events| + 1
    && Ready(states[0]) && states[0].pending == map[] && states[0].fired == []
    && forall i | 0 <= i < |events| :: Step(states[i], events[i], states[i + 1])
  }

  /** What is always known of every firing. */
  ghost predicate History(s: State) {
    && Ready(s)
    && (forall i | 0 <= i < |s.fired| ::
          && s.fired[i].target <= s.fired[i].at <= s.lastCheck && s.fired[i].id < s.used
          && (s.fired[i].id in s.pending ==>
                var t := s.pending[s.fired[i].id];
                t.repeat && s.fired[i].at + t.range <= t.target))
  }

  lemma HistoryKept(s: State, e: Event, s': State)
    requires History(s) && Step(s, e, s')
    ensures History(s')
  {
    if e.Check? {
      CheckKeepsHistory(s, s');
    }
  }

  lemma CheckKeepsHistory(s: State, s': State)
    requires History(s) && CheckStep(s, s')
    ensures History(s')
    ensures forall id | id in s'.pending :: s'.pending[id].target >= s'.lastCheck
  {
    var news, current := News(s, s'), s'.lastCheck;
    assert s'.fired == s.fired + news;
    forall id | id in s'.pending
      ensures Sound(s'.pending[id], current) && id < s'.used
    {
      assert id in s.pending;
    }
    forall i | 0 <= i < |s'.fired|
      ensures s'.fired[i].target <= s'.fired[i].at <= current && s'.fired[i].id < s'.used
      ensures s'.fired[i].id in s'.pending ==>
                var t := s'.pending[s'.fired[i].id]; t.repeat && s'.fired[i].at + t.range <= t.target
    {
      var f := s'.fired[i];
      if i < |s.fired| {
        assert f == s.fired[i];
      } else {
        assert f == news[i - |s.fired|];
      }
    }
  }

  lemma {:induction false} RunHistory(states: seq<State>, events: seq<Event>, n: nat)
    requires IsRun(states, events) && n < |states|
    ensures History(states[n])
  {
    if n > 0 {
      RunHistory(states, events, n - 1);
      HistoryKept(states[n - 1], events[n - 1], states[n]);
    }
  }

  /** Over a whole run no callback runs before its target. */
  lemma NeverEarly(states: seq<State>, events: seq<Event>, n: nat, i: nat)
    requires IsRun(states, events) && n < |states| && i < |states[n].fired|
    ensures states[n].fired[i].target <= states[n].fired[i].at
  {
    RunHistory(states, events, n);
  }

  /** After a check no pending event has a target that had passed. */
  lemma NothingOverdue(states: seq<State>, events: seq<Event>, n: nat, id: Id)
    requires IsRun(states, events) && n < |events| && events[n].Check? && id in states[n + 1].pending
    ensures states[n + 1].pending[id].target >= states[n + 1].lastCheck
  {
    RunHistory(states, events, n);
    CheckKeepsHistory(states[n], states[n + 1]);
  }

  /** How far apart firings of one event are: it must be a repeating one to fire twice,
      and then its range lies between two checks that fire it. */
  ghost predicate Spaced(s: State, ranges: map<Id, Timer>) {
    && (forall id | id in s.pending :: id in ranges && s.pending[id] == ranges[id].(target := s.pending[id].target))
    && (forall id | id in ranges :: id < s.used)
    && (forall i | 0 <= i < |s.fired| :: s.fired[i].id in ranges)
    && (forall i, j | 0 <= i < j < |s.fired| && s.fired[i].id == s.fired[j].id ::
          ranges[s.fired[i].id].repeat && s.fired[i].at + ranges[s.fired[i].id].range <= s.fired[j].at)
  }

  /** What each event was created as. */
  function Created(ranges: map<Id, Timer>, e: Event): map<Id, Timer> {
    if e.Delay? then ranges[e.id := Timer(e.seconds, 0, e.repeat)] else ranges
  }

  function AllCreated(events: seq<Event>): map<Id, Timer> {
    if events == [] then map[] else Created(AllCreated(events[..|events| - 1]), events[|events| - 1])
  }

  lemma SpacedKept(s: State, e: Event, s': State, ranges: map<Id, Timer>)
    requires History(s) && Spaced(s, ranges) && Step(s, e, s')
    ensures Spaced(s', Created(ranges, e))
  {
    if e.Check? {
      var news := News(s, s');
      assert s'.fired == s.fired + news;
      forall i, j | 0 <= i < j < |s'.fired| && s'.fired[i].id == s'.fired[j].id
        ensures s'.fired[i].id in ranges && ranges[s'.fired[i].id].repeat
        ensures s'.fired[i].at + ranges[s'.fired[i].id].range <= s'.fired[j].at
      {
        if j < |s.fired| {
          assert s'.fired[i] == s.fired[i] && s'.fired[j] == s.fired[j];
        } else {
          assert s'.fired[j] == news[j - |s.fired|];
          if i >= |s.fired| {
            assert false;
          }
          assert s'.fired[i] == s.fired[i];
        }
      }
    }
  }

  lemma {:induction false} RunSpaced(states: seq<State>, events: seq<Event>, n: nat)
    requires IsRun(states, events) && n < |states|
    ensures Spaced(states[n], AllCreated(events[..n]))
  {
    if n > 0 {
      RunSpaced(states, events, n - 1);
      RunHistory(states, events, n - 1);
      assert events[..n][..n - 1] == events[..n - 1];
      SpacedKept(states[n - 1], events[n - 1], states[n], AllCreated(events[..n - 1]));
    }
  }

  /** Over a whole run a one-shot event fires at most once, and a repeating event's firings
      are at least its range apart. */
  lemma FiringsOfOneEvent(states: seq<State>, events: seq<Event>, n: nat, i: nat, j: nat)
    requires IsRun(states, events) && n < |states| && i < j < |states[n].fired|
    requires states[n].fired[i].id == states[n].fired[j].id
    ensures var id, created := states[n].fired[i].id, AllCreated(events[..n]);
            && id in created && created[id].repeat
            && states[n].fired[i].at + created[id].range <= states[n].fired[j].at
  {
    RunSpaced(states, events, n);
  }

  /** Only pending events fire, and only new ones become pending. */
  lemma GoneForAStep(s: State, e: Event, s': State, id: Id)
    requires Step(s, e, s') && id < s.used && id !in s.pending
    ensures id < s'.used && id !in s'.pending && s.fired <= s'.fired
    ensures forall i | |s.fired| <= i < |s'.fired| :: s'.fired[i].id != id
  {
    if e.Check? {
      var news := News(s, s');
      forall i | |s.fired| <= i < |s'.fired|
        ensures s'.fired[i].id != id
      {
        assert s'.fired[i] == news[i - |s.fired|];
      }
    }
  }

  /** An event that is gone stays gone. */
  lemma {:induction false} GoneStaysGone(states: seq<State>, events: seq<Event>, n: nat, m: nat, id: Id)
    requires IsRun(states, events) && n <= m < |states|
    requires id < states[n].used && id !in states[n].pending
    ensures id < states[m].used && id !in states[m].pending && |states[n].fired| <= |states[m].fired|
    ensures forall i | |states[n].fired| <= i < |states[m].fired| :: states[m].fired[i].id != id
    decreases m - n
  {
    hide Step;
    if n < m {
      GoneStaysGone(states, events, n, m - 1, id);
      GoneForAStep(states[m - 1], events[m - 1], states[m], id);
    }
  }

  /** A check less than a turn after the one before it fires in the order of the targets. */
  lemma InOrderWithinATurn(s: State, s': State)
    requires Ready(s) && CheckStep(s, s') && s'.lastCheck - s.lastCheck < SLOTS
    ensures InOrder(News(s, s'))
  {
    var news := News(s, s');
    forall i | 0 <= i < |news|
      ensures Turn(s.lastCheck, news[i].target) == news[i].target - s.lastCheck
    {
      assert Sound(s.pending[news[i].id], s.lastCheck);
    }
    forall i, j | 0 <= i < j < |news|
      ensures news[i].target <= news[j].target
    {
      assert Turn(s.lastCheck, news[i].target) <= Turn(s.lastCheck, news[j].target);
    }
  }

  /** After a turn or more it need not: whatever the longer gap, of two events added in one
      second the one due in sixty seconds is fired before the one due in one. */
  lemma OrderNeedsLessThanATurn(states: seq<State>, events: seq<Event>)
    requires IsRun(states, events) && events == [Delay(states[0].used, SLOTS, false), Delay(states[0].used + 1, 1, false), Check]
    requires states[0].lastCheck == states[1].now == states[2].now
    requires states[3].lastCheck - states[0].lastCheck >= SLOTS
    ensures !InOrder(states[3].fired)
  {
    var s0, s1, s2, s3 := states[0], states[1], states[2], states[3];
    assert Step(s0, events[0], s1) && Step(s1, events[1], s2) && Step(s2, events[2], s3);
    var first, second := s0.used, s0.used + 1;
    var news := s3.fired;
    assert s2.fired == [] && News(s2, s3) == news;
    assert s2.pending == map[first := Timer(SLOTS, s0.lastCheck + SLOTS, false), second := Timer(1, s0.lastCheck + 1, false)];
    assert Fires(news, first) && Fires(news, second);
    var i :| 0 <= i < |news| && news[i].id == first;
    var j :| 0 <= j < |news| && news[j].id == second;
    assert Turn(s0.lastCheck, news[i].target) < Turn(s0.lastCheck, news[j].target);
  }

  /** A cancelled event never fires again. */
  lemma CancelledNeverFires(states: seq<State>, events: seq<Event>, n: nat, m: nat, i: nat)
    requires IsRun(states, events) && n < m < |states| && events[n].Cancel?
    requires |states[n].fired| <= i < |states[m].fired|
    ensures states[m].fired[i].id != events[n].id
  {
    RunHistory(states, events, n);
    assert Step(states[n], events[n], states[n + 1]);
    GoneStaysGone(states, events, n + 1, m, events[n].id);
  }
}

/** The wheel itself. */
module TimeWheel {
  import opened Timers

  type Slots = slots: seq<seq<Id>> | |slots| == SLOTS witness seq(SLOTS, i => [])

  function SlotOf(startTime: int, target: int): (k: nat)
    ensures k < SLOTS
  {
    (target - startTime) % SLOTS
  }

  ghost predicate NoRepeats(ids: seq<Id>) { forall i, j | 0 <= i < j < |ids| :: ids[i] != ids[j] }

  /** Every pending event is in the one slot its target belongs to, once. */
  ghost predicate Placed(slots: Slots, pending: map<Id, Timer>, startTime: int) {
    && (forall k | 0 <= k < SLOTS :: NoRepeats(slots[k]))
    && (forall k, p | 0 <= k < SLOTS && 0 <= p < |slots[k]| ::
          slots[k][p] in pending && SlotOf(startTime, pending[slots[k][p]].target) == k)
    && (forall id | id in pending :: id in slots[SlotOf(startTime, pending[id].target)])
  }

  function Without(ids: seq<Id>, p: nat): seq<Id>
    requires p < |ids|
  {
    ids[..p] + ids[p + 1..]
  }

  lemma AppendPlaces(slots: Slots, pending: map<Id, Timer>, startTime: int, id: Id, t: Timer)
    requires Placed(slots, pending, startTime) && id !in pending
    ensures var k := SlotOf(startTime, t.target);
            Placed(slots[k := slots[k] + [id]], pending[id := t], startTime)
  {
    var k := SlotOf(startTime, t.target);
    var slots' := slots[k := slots[k] + [id]];
    var pending' := pending[id := t];
    forall j, p | 0 <= j < SLOTS && 0 <= p < |slots'[j]|
      ensures slots'[j][p] in pending' && SlotOf(startTime, pending'[slots'[j][p]].target) == j
    {
      if j != k || p < |slots[k]| { assert slots'[j][p] == slots[j][p]; }
    }
    forall x | x in pending'
      ensures x in slots'[SlotOf(startTime, pending'[x].target)]
    {
      if x == id {
        assert slots'[k][|slots[k]|] == id;
      } else {
        var j := SlotOf(startTime, pending[x].target);
        var p :| 0 <= p < |slots[j]| && slots[j][p] == x;
        assert slots'[j][p] == x;
      }
    }
  }

  lemma RemovePlaces(slots: Slots, pending: map<Id, Timer>, startTime: int, k: nat, p: nat)
    requires Placed(slots, pending, startTime) && k < SLOTS && p < |slots[k]|
    ensures Placed(slots[k := Without(slots[k], p)], pending - {slots[k][p]}, startTime)
  {
    var id := slots[k][p];
    var slots' := slots[k := Without(slots[k], p)];
    var pending' := pending - {id};
    WithoutKeepsOthers(slots[k], p);
    forall j, q | 0 <= j < SLOTS && 0 <= q < |slots'[j]|
      ensures slots'[j][q] in pending' && SlotOf(startTime, pending'[slots'[j][q]].target) == j
    {
      assert slots'[j][q] in slots[j] && slots'[j][q] != id;
    }
    forall x | x in pending'
      ensures x in slots'[SlotOf(startTime, pending'[x].target)]
    {
      assert x in slots[SlotOf(startTime, pending[x].target)];
    }
  }

  lemma WithoutKeepsOthers(ids: seq<Id>, p: nat)
    requires p < |ids| && NoRepeats(ids)
    ensures NoRepeats(Without(ids, p))
    ensures forall x :: x in Without(ids, p) <==> x in ids && x != ids[p]
  {
    var rest := Without(ids, p);
    forall x | x in ids && x != ids[p]
      ensures x in rest
    {
      var q :| 0 <= q < |ids| && ids[q] == x;
      assert rest[if q < p then q else q - 1] == x;
    }
    forall x | x in rest
      ensures x in ids && x != ids[p]
    {
      var q :| 0 <= q < |rest| && rest[q] == x;
      assert ids[if q < p then q else q + 1] == x;
    }
  }

  // ----------------------------------------------------- one check, in progress

  /** What a check at time `current` has done so far: each event is either as it was or
      has fired, once, and had what becomes of it. */
  ghost predicate Sweeping(before: map<Id, Timer>, pending: map<Id, Timer>, news: seq<Firing>, current: int, now: int) {
    && (forall i | 0 <= i < |news| ::
          && news[i].id in before && before[news[i].id].target <= current
          && news[i].target == before[news[i].id].target && news[i].at == current)
    && (forall i, j | 0 <= i < j < |news| :: news[i].id != news[j].id)
    && (forall id | id in pending :: id in before)
    && (forall id | id in before :: Outcome(before, pending, id, Fires(news, id), current, now))
  }

  /** No event in the slot, up to position `p`, is due any more. */
  ghost predicate Quiet(slot: seq<Id>, pending: map<Id, Timer>, p: nat, current: int)
    requires p <= |slot|
  {
    forall q | 0 <= q < p :: slot[q] in pending && pending[slot[q]].target > current
  }

  ghost predicate QuietSlot(slots: Slots, pending: map<Id, Timer>, first: nat, j: nat, current: int) {
    var slot := slots[(first + j) % SLOTS];
    Quiet(slot, pending, |slot|, current)
  }

  /** The slots visited so far, starting from `first`, are quiet. */
  ghost predicate AllQuiet(slots: Slots, pending: map<Id, Timer>, first: nat, visited: nat, current: int) {
    forall j: nat | j < visited :: QuietSlot(slots, pending, first, j, current)
  }

  function Rearmed(pending: map<Id, Timer>, id: Id, now: int): map<Id, Timer>
    requires id in pending
  {
    var t := pending[id];
    if t.repeat then pending[id := t.(target := now + t.range)] else pending - {id}
  }

  lemma FireOne(before: map<Id, Timer>, pending: map<Id, Timer>, news: seq<Firing>, current: int, now: int, id: Id, now': int)
    requires Sweeping(before, pending, news, current, now) && current <= now <= now'
    requires forall x | x in before && before[x].repeat :: before[x].range >= 1
    requires id in pending && pending[id].target <= current
    ensures id in before && pending[id] == before[id] && !Fires(news, id)
    ensures Sweeping(before, Rearmed(pending, id, now'), news + [Firing(id, pending[id].target, current)], current, now')
  {
    assert id in before && Outcome(before, pending, id, Fires(news, id), current, now);
    assert !Fires(news, id);
    var news' := news + [Firing(id, pending[id].target, current)];
    var pending' := Rearmed(pending, id, now');
    assert news'[|news|].id == id;
    forall x | x in before
      ensures Outcome(before, pending', x, Fires(news', x), current, now')
    {
      assert Outcome(before, pending, x, Fires(news, x), current, now);
      if Fires(news, x) {
        var i :| 0 <= i < |news| && news[i].id == x;
        assert news'[i].id == x;
      } else if x != id {
        assert !Fires(news', x);
      }
    }
  }

  /** The slot `i` steps on from the last check holds the events that lie so far round. */
  lemma SlotTells(startTime: int, lastCheck: int, target: int, i: nat)
    requires i < SLOTS && SlotOf(startTime, target) == (SlotOf(startTime, lastCheck) + i) % SLOTS
    ensures Turn(lastCheck, target) == i
  {
    var a, d := lastCheck - startTime, target - lastCheck;
    assert (a + d) % SLOTS == (a % SLOTS + i) % SLOTS;
    assert (a + d) % SLOTS == (a + i) % SLOTS;
  }

  lemma SlotOfLater(startTime: int, lastCheck: int, i: nat)
    ensures SlotOf(startTime, lastCheck + i) == (SlotOf(startTime, lastCheck) + i) % SLOTS
  {
  }

  lemma EverySlotVisited(first: nat, k: nat) returns (j: nat)
    requires first < SLOTS && k < SLOTS
    ensures j < SLOTS && (first + j) % SLOTS == k
  {
    j := (k + SLOTS - first) % SLOTS;
  }

  /** Once every slot from the last check up to now is quiet, exactly the due events have fired. */
  lemma SweptExactly(before: map<Id, Timer>, pending: map<Id, Timer>, news: seq<Firing>, slots: Slots,
                     startTime: int, lastCheck: int, current: int, now: int, visited: nat)
    requires Sweeping(before, pending, news, current, now) && Placed(slots, pending, startTime)
    requires forall id | id in before :: Sound(before[id], lastCheck)
    requires lastCheck <= current && visited == if current - lastCheck < SLOTS then current - lastCheck else SLOTS
    requires AllQuiet(slots, pending, SlotOf(startTime, lastCheck), visited, current)
    requires current - lastCheck < SLOTS ==> forall i | 0 <= i < |news| :: news[i].target < current
    ensures FiredOnce(before, news, lastCheck, current)
    ensures forall id | id in before :: Fires(news, id) == Due(before[id], lastCheck, current)
  {
    forall id | id in before && Due(before[id], lastCheck, current)
      ensures Fires(news, id)
    {
      if !Fires(news, id) {
        assert Outcome(before, pending, id, false, current, now);
        UnfiredIsNotDue(pending, slots, startTime, lastCheck, current, visited, id);
      }
    }
    forall i | 0 <= i < |news|
      ensures Due(before[news[i].id], lastCheck, current)
    {
    }
  }

  lemma UnfiredIsNotDue(pending: map<Id, Timer>, slots: Slots, startTime: int, lastCheck: int, current: int, visited: nat, id: Id)
    requires Placed(slots, pending, startTime) && id in pending && pending[id].target >= lastCheck
    requires lastCheck <= current && visited == if current - lastCheck < SLOTS then current - lastCheck else SLOTS
    requires AllQuiet(slots, pending, SlotOf(startTime, lastCheck), visited, current)
    ensures !Due(pending[id], lastCheck, current)
  {
    if Due(pending[id], lastCheck, current) {
      var k := SlotOf(startTime, pending[id].target);
      var j: nat;
      if current - lastCheck < SLOTS {
        j := pending[id].target - lastCheck;
        SlotOfLater(startTime, lastCheck, j);
      } else {
        j := EverySlotVisited(SlotOf(startTime, lastCheck), k);
      }
      VisitedIsLater(pending, slots, startTime, SlotOf(startTime, lastCheck), current, visited, id, j);
    }
  }

  lemma VisitedIsLater(pending: map<Id, Timer>, slots: Slots, startTime: int, first: nat, current: int, visited: nat, id: Id, j: nat)
    requires Placed(slots, pending, startTime) && id in pending && AllQuiet(slots, pending, first, visited, current)
    requires j < visited && SlotOf(startTime, pending[id].target) == (first + j) % SLOTS
    ensures pending[id].target > current
  {
    assert QuietSlot(slots, pending, first, j, current);
    assert id in slots[SlotOf(startTime, pending[id].target)];
  }

  /** What the walks have done to the wheel: how far a check has come. */
  datatype Sweep = Sweep(slots: Slots, pending: map<Id, Timer>, news: seq<Firing>, now: int)

  /** A check at time `current` that has visited the slots before the `i`-th. */
  ghost predicate Visited(w: Sweep, before: map<Id, Timer>, startTime: int, lastCheck: int, current: int, i: nat) {
    && Placed(w.slots, w.pending, startTime) && current <= w.now
    && Sweeping(before, w.pending, w.news, current, w.now)
    && AllQuiet(w.slots, w.pending, SlotOf(startTime, lastCheck), i, current)
    && ByTurns(w.news, lastCheck) && (forall x | 0 <= x < |w.news| :: Turn(lastCheck, w.news[x].target) < i)
  }

  /** The same, and has walked up to position `p` of the `i`-th slot. */
  ghost predicate Walking(w: Sweep, before: map<Id, Timer>, startTime: int, lastCheck: int, current: int, i: nat, p: nat) {
    var first := SlotOf(startTime, lastCheck);
    var slot := w.slots[(first + i) % SLOTS];
    && Placed(w.slots, w.pending, startTime) && current <= w.now
    && Sweeping(before, w.pending, w.news, current, w.now)
    && AllQuiet(w.slots, w.pending, first, i, current)
    && p <= |slot| && Quiet(slot, w.pending, p, current)
    && ByTurns(w.news, lastCheck) && (forall x | 0 <= x < |w.news| :: Turn(lastCheck, w.news[x].target) <= i)
  }

  lemma SweepStarts(slots: Slots, before: map<Id, Timer>, startTime: int, lastCheck: int, current: int)
    requires Placed(slots, before, startTime)
    ensures Visited(Sweep(slots, before, [], current), before, startTime, lastCheck, current, 0)
  {
    forall id | id in before
      ensures Outcome(before, before, id, Fires([], id), current, current)
    {
    }
  }

  lemma SlotWalked(w: Sweep, before: map<Id, Timer>, startTime: int, lastCheck: int, current: int, i: nat)
    requires Walking(w, before, startTime, lastCheck, current, i, |w.slots[(SlotOf(startTime, lastCheck) + i) % SLOTS]|)
    ensures Visited(w, before, startTime, lastCheck, current, i + 1)
  {
    hide Placed, Sweeping, Quiet, ByTurns;
    var first := SlotOf(startTime, lastCheck);
    assert QuietSlot(w.slots, w.pending, first, i, current);
  }

  /** The slots after the event at `p` of slot `k` has been re-armed or deleted, and erased. */
  function Erased(slots: Slots, pending: map<Id, Timer>, startTime: int, k: nat, p: nat, now: int): (slots': Slots)
    requires k < SLOTS && p < |slots[k]| && slots[k][p] in pending
  {
    var id := slots[k][p];
    var appended :=
      if pending[id].repeat then
        var k' := SlotOf(startTime, now + pending[id].range); slots[k' := slots[k'] + [id]]
      else slots;
    appended[k := Without(appended[k], p)]
  }

  /** Appending first and erasing then is the same as erasing first. */
  lemma EraseFirst(slots: Slots, k: nat, p: nat, k': nat, id: Id)
    requires k < SLOTS && p < |slots[k]| && k' < SLOTS
    ensures var appended := slots[k' := slots[k'] + [id]];
            var erased := slots[k := Without(slots[k], p)];
            appended[k := Without(appended[k], p)] == erased[k' := erased[k'] + [id]]
  {
    var appended := slots[k' := slots[k'] + [id]];
    var erased := slots[k := Without(slots[k], p)];
    if k == k' {
      assert Without(slots[k] + [id], p) == Without(slots[k], p) + [id];
    }
    assert appended[k := Without(appended[k], p)] == erased[k' := erased[k'] + [id]];
  }

  lemma ErasedPlaced(slots: Slots, pending: map<Id, Timer>, startTime: int, k: nat, p: nat, now: int)
    requires Placed(slots, pending, startTime) && k < SLOTS && p < |slots[k]| && slots[k][p] in pending
    ensures Placed(Erased(slots, pending, startTime, k, p, now), Rearmed(pending, slots[k][p], now), startTime)
  {
    hide Placed;
    var id := slots[k][p];
    RemovePlaces(slots, pending, startTime, k, p);
    if pending[id].repeat {
      var t := pending[id].(target := now + pending[id].range);
      EraseFirst(slots, k, p, SlotOf(startTime, t.target), id);
      AppendPlaces(slots[k := Without(slots[k], p)], pending - {id}, startTime, id, t);
      assert (pending - {id})[id := t] == pending[id := t];
    }
  }

  /** Quiet stretches stay quiet: what is re-armed is due only later. */
  lemma ErasedQuiet(slots: Slots, pending: map<Id, Timer>, startTime: int, k: nat, p: nat, now: int, current: int, first: nat, i: nat)
    requires k < SLOTS && p < |slots[k]| && slots[k][p] in pending && pending[slots[k][p]].target <= current <= now
    requires pending[slots[k][p]].repeat ==> pending[slots[k][p]].range >= 1
    requires Quiet(slots[k], pending, p, current) && AllQuiet(slots, pending, first, i, current)
    ensures var id, slots' := slots[k][p], Erased(slots, pending, startTime, k, p, now);
            && p <= |slots'[k]| && Quiet(slots'[k], Rearmed(pending, id, now), p, current)
            && AllQuiet(slots', Rearmed(pending, id, now), first, i, current)
  {
    var id := slots[k][p];
    var slots', pending' := Erased(slots, pending, startTime, k, p, now), Rearmed(pending, id, now);
    forall j: nat | j < i
      ensures QuietSlot(slots', pending', first, j, current)
    {
      var m := (first + j) % SLOTS;
      assert QuietSlot(slots, pending, first, j, current);
      assert m != k;
      forall q | 0 <= q < |slots'[m]|
        ensures slots'[m][q] in pending' && pending'[slots'[m][q]].target > current
      {
        if q < |slots[m]| { assert slots'[m][q] == slots[m][q]; }
      }
    }
    forall q | 0 <= q < p
      ensures slots'[k][q] in pending' && pending'[slots'[k][q]].target > current
    {
      assert slots'[k][q] == slots[k][q];
    }
  }

  lemma WalkOn(w: Sweep, before: map<Id, Timer>, startTime: int, lastCheck: int, current: int, i: nat, p: nat)
    requires Walking(w, before, startTime, lastCheck, current, i, p)
    requires var slot := w.slots[(SlotOf(startTime, lastCheck) + i) % SLOTS];
             p < |slot| && slot[p] in w.pending && w.pending[slot[p]].target > current
    ensures Walking(w, before, startTime, lastCheck, current, i, p + 1)
  {
    hide Placed, Sweeping, AllQuiet, ByTurns;
  }

  function AfterFiring(w: Sweep, startTime: int, k: nat, p: nat, current: int, now: int): Sweep
    requires k < SLOTS && p < |w.slots[k]| && w.slots[k][p] in w.pending
  {
    var id := w.slots[k][p];
    Sweep(Erased(w.slots, w.pending, startTime, k, p, now), Rearmed(w.pending, id, now),
          w.news + [Firing(id, w.pending[id].target, current)], now)
  }

  ghost function Unfired(before: map<Id, Timer>, news: seq<Firing>): set<Id> {
    set id | id in before.Keys && !Fires(news, id)
  }

  lemma FireInWalk(w: Sweep, before: map<Id, Timer>, startTime: int, lastCheck: int, current: int, i: nat, p: nat, now: int)
    requires Walking(w, before, startTime, lastCheck, current, i, p) && w.now <= now && lastCheck <= current && i < SLOTS
    requires forall id | id in before :: Sound(before[id], lastCheck)
    requires var slot := w.slots[(SlotOf(startTime, lastCheck) + i) % SLOTS];
             p < |slot| && slot[p] in w.pending && w.pending[slot[p]].target <= current
    ensures var w' := AfterFiring(w, startTime, (SlotOf(startTime, lastCheck) + i) % SLOTS, p, current, now);
            && Walking(w', before, startTime, lastCheck, current, i, p)
            && Unfired(before, w'.news) < Unfired(before, w.news)
  {
    hide Placed, Quiet, AllQuiet, Sweeping, Erased, Rearmed;
    var first := SlotOf(startTime, lastCheck);
    var k := (first + i) % SLOTS;
    var id := w.slots[k][p];
    SlotHolds(w.slots, w.pending, startTime, k, p);
    FireOne(before, w.pending, w.news, current, w.now, id, now);
    assert Sound(before[id], lastCheck);
    ErasedPlaced(w.slots, w.pending, startTime, k, p, now);
    ErasedQuiet(w.slots, w.pending, startTime, k, p, now, current, first, i);
    SlotTells(startTime, lastCheck, w.pending[id].target, i);
    OneMoreFired(before, w.news, Firing(id, w.pending[id].target, current));
  }

  lemma SlotHolds(slots: Slots, pending: map<Id, Timer>, startTime: int, k: nat, p: nat)
    requires Placed(slots, pending, startTime) && k < SLOTS && p < |slots[k]|
    ensures slots[k][p] in pending && SlotOf(startTime, pending[slots[k][p]].target) == k
  {
  }

  lemma OneMoreFired(before: map<Id, Timer>, news: seq<Firing>, f: Firing)
    requires f.id in before && !Fires(news, f.id)
    ensures Unfired(before, news + [f]) < Unfired(before, news)
  {
    var news' := news + [f];
    assert news'[|news|] == f && Fires(news', f.id);
    forall id | Fires(news, id)
      ensures Fires(news', id)
    {
      var i :| 0 <= i < |news| && news[i].id == id;
      assert news'[i].id == id;
    }
    assert f.id in Unfired(before, news) && f.id !in Unfired(before, news');
  }

  /** A check that has visited its slots is a step of the plain set of timers. */
  lemma SweepEnds(w: Sweep, before: map<Id, Timer>, startTime: int, lastCheck: int, current: int, visited: nat,
                  s: State, s': State)
    requires Visited(w, before, startTime, lastCheck, current, visited) && Ready(s)
    requires visited == if current - lastCheck < SLOTS then current - lastCheck else SLOTS
    requires s.now <= current && s.pending == before && s.lastCheck == lastCheck
    requires s' == State(w.pending, s.used, current, w.now, s.fired + w.news)
    ensures CheckStep(s, s') && Ready(s') && Placed(w.slots, w.pending, startTime)
  {
    hide Placed, AllQuiet, ByTurns;
    assert News(s, s') == w.news;
    forall i | 0 <= i < |w.news|
      ensures current - lastCheck < SLOTS ==> w.news[i].target < current
    {
      assert Sound(before[w.news[i].id], lastCheck);
    }
    SweptExactly(before, w.pending, w.news, w.slots, startTime, lastCheck, current, w.now, visited);
    forall id | id in w.pending
      ensures id < s.used && Sound(w.pending[id], current)
    {
      assert id in before && Outcome(before, w.pending, id, Fires(w.news, id), current, w.now);
    }
  }

  lemma WalkStarts(w: Sweep, before: map<Id, Timer>, startTime: int, lastCheck: int, current: int, i: nat)
    requires Visited(w, before, startTime, lastCheck, current, i)
    ensures Walking(w, before, startTime, lastCheck, current, i, 0)
  {
    hide Placed, Sweeping, AllQuiet, ByTurns;
  }

  lemma ReadyMeans(s: State)
    requires Ready(s)
    ensures s.lastCheck <= s.now && forall id | id in s.pending :: Sound(s.pending[id], s.lastCheck)
  {
  }

  class TimeWheel {
    var startTime: int
    var lastCheckTime: int
    var slots: Slots
    var next: seq<nat>
    // the heap of events
    var events: map<Id, Timer>
    var used: nat
    // the clock, and the callbacks that have run
    var now: int
    var fired: seq<Firing>

    ghost predicate Valid()
      reads this
    {
      && Placed(slots, events, startTime)
      && startTime <= lastCheckTime
      && |next| == SLOTS && (forall k | 0 <= k < SLOTS :: next[k] == (k + 1) % SLOTS)
      && Ready(Abs())
    }

    ghost function Abs(): State
      reads this
    {
      State(events, used, lastCheckTime, now, fired)
    }

    /** The clock never goes back. */
    method GetTimestamp() returns (t: int)
      modifies `now
      ensures t == now >= old(now)
    {
      t := *;
      if t < now {
        t := now;
      }
      now := t;
    }

    /** The slots are linked into a ring, last slot first. */
    constructor (clock: int)
      ensures Valid() && Abs() == State(map[], 0, now, now, []) && now >= clock
    {
      slots := seq(SLOTS, i => []);
      next := seq(SLOTS, i => 0);
      events, used, fired, now := map[], 0, [], clock;
      new;
      var pre := 0;
      var number := 59;
      while number >= 0
        invariant -1 <= number <= 59 && |next| == SLOTS
        invariant number < 59 ==> pre == number + 1
        invariant forall k | number < k < 59 :: next[k] == k + 1
        invariant fresh(this) && slots == seq(SLOTS, i => []) && events == map[] && used == 0 && fired == [] && now == clock
      {
        next := next[number := pre];
        pre := number;
        number := number - 1;
      }
      next := next[59 := 0];
      var t := GetTimestamp();
      startTime, lastCheckTime := t, t;
    }

    method Delay(seconds: nat, repeat: bool) returns (event: Id)
      requires Valid() && (repeat ==> seconds >= 1)
      modifies this
      ensures Valid() && DelayStep(old(Abs()), Abs(), event, seconds, repeat)
    {
      hide Placed;
      var current := GetTimestamp();
      event := used;
      used := used + 1;
      var target := current + seconds;
      AppendPlaces(slots, events, startTime, event, Timer(seconds, target, repeat));
      events := events[event := Timer(seconds, target, repeat)];
      var index := (target - startTime) % SLOTS;
      slots := slots[index := slots[index] + [event]];
    }

    /** Only an event that is still pending may be cancelled: another has been deleted. */
    method Cancel(event: Id)
      requires Valid() && event in events
      modifies this
      ensures Valid() && CancelStep(old(Abs()), Abs(), event)
    {
      var index := (events[event].target - startTime) % SLOTS;
      var p := 0;
      while slots[index][p] != event
        invariant p < |slots[index]| && event in slots[index][p..]
        decreases |slots[index]| - p
      {
        p := p + 1;
      }
      RemovePlaces(slots, events, startTime, index, p);
      slots := slots[index := Without(slots[index], p)];
      events := events - {event};
    }

    ghost function Progress(was: seq<Firing>): Sweep
      reads this
    {
      Sweep(slots, events, News(State(map[], 0, 0, 0, was), Abs()), now)
    }

    method Check()
      requires Valid()
      modifies this
      ensures Valid() && CheckStep(old(Abs()), Abs())
    {
      hide Placed, Visited, CheckStep, Ready;
      ghost var before, was, asked := events, fired, Abs();
      ReadyMeans(asked);
      var current := GetTimestamp();
      var numberOfSlots := current - lastCheckTime;
      numberOfSlots := if numberOfSlots < 60 then numberOfSlots else 60;
      var index := (lastCheckTime - startTime) % SLOTS;
      var pSlot := index;
      SweepStarts(slots, before, startTime, lastCheckTime, current);
      assert Progress(was).news == [];
      for i := 0 to numberOfSlots
        modifies `slots, `events, `now, `fired
        invariant pSlot == (index + i) % SLOTS && was <= fired
        invariant Visited(Progress(was), before, startTime, lastCheckTime, current, i)
      {
        SweepSlot(pSlot, current, before, was, i);
        pSlot := next[pSlot];
      }
      SweepEnds(Progress(was), before, startTime, lastCheckTime, current, numberOfSlots, asked,
                Abs().(lastCheck := current));
      lastCheckTime := current;
    }

    /** The body of the loop over slots: a walk along one slot's list, which may grow at its
        end while the walk goes on. */
    method SweepSlot(pSlot: nat, current: int, ghost before: map<Id, Timer>, ghost was: seq<Firing>, ghost i: nat)
      requires i < SLOTS && pSlot == (SlotOf(startTime, lastCheckTime) + i) % SLOTS
      requires lastCheckTime <= current
      requires forall id | id in before :: Sound(before[id], lastCheckTime)
      requires was <= fired && Visited(Progress(was), before, startTime, lastCheckTime, current, i)
      modifies `slots, `events, `now, `fired
      ensures was <= fired && Visited(Progress(was), before, startTime, lastCheckTime, current, i + 1)
    {
      hide Placed, Sweeping, AllQuiet, ByTurns, Quiet, Unfired;
      var p := 0;
      WalkStarts(Progress(was), before, startTime, lastCheckTime, current, i);
      while p < |slots[pSlot]|
        invariant was <= fired && Walking(Progress(was), before, startTime, lastCheckTime, current, i, p)
        decreases Unfired(before, Progress(was).news), |slots[pSlot]| - p
      {
        ghost var w := Progress(was);
        SlotHolds(slots, events, startTime, pSlot, p);
        var event := slots[pSlot][p];
        if events[event].target > current {
          WalkOn(w, before, startTime, lastCheckTime, current, i, p);
          p := p + 1;
        } else {
          fired := fired + [Firing(event, events[event].target, current)];
          if events[event].repeat {
            var t := GetTimestamp();
            events := events[event := events[event].(target := t + events[event].range)];
            var newIndex := (events[event].target - startTime) % SLOTS;
            slots := slots[newIndex := slots[newIndex] + [event]];
          } else {
            events := events - {event};
          }
          slots := slots[pSlot := Without(slots[pSlot], p)];
          FireInWalk(w, before, startTime, lastCheckTime, current, i, p, now);
          assert Progress(was) == AfterFiring(w, startTime, pSlot, p, current, now);
        }
      }
      SlotWalked(Progress(was), before, startTime, lastCheckTime, current, i);
    }
  }
}
