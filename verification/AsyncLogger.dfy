/** The asynchronous logger: producers append records to the current buffer under a lock,
    and one consumer takes the filled buffers away, writes them out and recycles them.
 */

/** The logger as a machine over byte strings: what each locked section and each part
    of the consumer's iteration does to the bytes on their way out. */
module LogPipeline {
  import opened Common

  type byte = x: int | 0 <= x < 256

  const RECORD_BUFFER_SIZE: nat := 4096
  const MAX_BATCH: nat := 25

  /** What the consumer does next. */
  datatype Phase = Collecting | Discarding | Dumping | Recycling

  datatype State = State(
    dumped: seq<byte>, batch: seq<seq<byte>>, phase: Phase, ready: seq<seq<byte>>, current: seq<byte>)

  datatype Event = Log(content: seq<byte>) | Consume

  const INITIAL := State([], [], Collecting, [], [])

  /** A buffer keeps of a write what fits. */
  function Fit(content: seq<byte>): seq<byte> {
    if |content| <= RECORD_BUFFER_SIZE then content else content[..RECORD_BUFFER_SIZE]
  }

  function Logged(s: State, content: seq<byte>): State {
    if RECORD_BUFFER_SIZE - |s.current| > |content| then s.(current := s.current + content)
    else s.(ready := s.ready + [s.current], current := Fit(content))
  }

  function Collected(s: State): State {
    s.(batch := s.ready + [s.current], ready := [], current := [], phase := Discarding)
  }

  function Discarded(s: State): State {
    s.(batch := if |s.batch| > MAX_BATCH then s.batch[..2] else s.batch, phase := Dumping)
  }

  function Dumped(s: State): State { s.(dumped := s.dumped + Flatten(s.batch), phase := Recycling) }

  function Recycled(s: State): State { s.(batch := [], phase := Collecting) }

  function Consumed(s: State): State {
    match s.phase
    case Collecting => Collected(s)
    case Discarding => Discarded(s)
    case Dumping => Dumped(s)
    case Recycling => Recycled(s)
  }

  function Next(s: State, e: Event): State {
    match e
    case Log(content) => Logged(s, content)
    case Consume => Consumed(s)
  }

  /** Any interleaving of producers' calls with the parts of the consumer's iterations. */
  function Run(events: seq<Event>): State {
    if events == [] then INITIAL else Next(Run(events[..|events| - 1]), events[|events| - 1])
  }

  /** The records handed to the logger, in order. */
  function Accepted(events: seq<Event>): seq<byte> {
    if events == [] then [] else
    var e := events[|events| - 1];
    Accepted(events[..|events| - 1]) + if e.Log? then e.content else []
  }

  /** Bytes already written out, then the batch in hand, the ready list and the current buffer. */
  function Pipeline(s: State): seq<byte> {
    s.dumped + (if s.phase.Discarding? || s.phase.Dumping? then Flatten(s.batch) else []) + Flatten(s.ready) + s.current
  }

  /** The bytes a step throws away: the end of a record larger than a buffer, or all but
      two buffers of a batch of more than 25. */
  function LossOf(s: State, e: Event): nat {
    match e
    case Log(content) => |content| - |Fit(content)|
    case Consume =>
      if s.phase.Discarding? && |s.batch| > MAX_BATCH then |Flatten(s.batch[2..])| else 0
  }

  function Lost(events: seq<Event>): nat {
    if events == [] then 0 else
    Lost(events[..|events| - 1]) + LossOf(Run(events[..|events| - 1]), events[|events| - 1])
  }

  /** A current buffer never holds more than fits. */
  lemma {:induction false} CurrentFits(events: seq<Event>)
    ensures |Run(events).current| <= RECORD_BUFFER_SIZE
    ensures !Run(events).phase.Collecting? || Run(events).batch == []
  {
    if events != [] { CurrentFits(events[..|events| - 1]); }
  }

  lemma LogAccounts(s: State, content: seq<byte>)
    requires |s.current| <= RECORD_BUFFER_SIZE
    ensures Pipeline(Logged(s, content)) == Pipeline(s) + Fit(content)
  {
    if RECORD_BUFFER_SIZE - |s.current| <= |content| {
      FlattenConcat(s.ready, [s.current]);
      FlattenOne(s.current);
    }
  }

  lemma ConsumeAccounts(s: State)
    requires s.phase.Collecting? ==> s.batch == []
    ensures !s.phase.Discarding? || |s.batch| <= MAX_BATCH ==> Pipeline(Consumed(s)) == Pipeline(s)
    ensures |Pipeline(s)| == |Pipeline(Consumed(s))| + LossOf(s, Consume)
  {
    if s.phase.Collecting? {
      FlattenConcat(s.ready, [s.current]);
      FlattenOne(s.current);
      assert Pipeline(Consumed(s)) == Pipeline(s);
    } else if s.phase.Discarding? && |s.batch| > MAX_BATCH {
      assert s.batch == s.batch[..2] + s.batch[2..];
      FlattenConcat(s.batch[..2], s.batch[2..]);
    } else {
      assert Pipeline(Consumed(s)) == Pipeline(s);
    }
  }

  /** One step: a lossless step passes on exactly what it accepts; a lossy one is short by its loss. */
  lemma StepAccounts(s: State, e: Event)
    requires |s.current| <= RECORD_BUFFER_SIZE && (s.phase.Collecting? ==> s.batch == [])
    ensures var accepted := if e.Log? then e.content else [];
            && |Pipeline(s)| + |accepted| == |Pipeline(Next(s, e))| + LossOf(s, e)
            && (LossOf(s, e) == 0 ==> Pipeline(Next(s, e)) == Pipeline(s) + accepted)
  {
    match e
    case Log(content) =>
      LogAccounts(s, content);
    case Consume =>
      ConsumeAccounts(s);
      if s.phase.Discarding? && |s.batch| > MAX_BATCH && LossOf(s, e) == 0 {
        assert s.batch == s.batch[..2] + s.batch[2..];
        FlattenConcat(s.batch[..2], s.batch[2..]);
        assert Flatten(s.batch) == Flatten(s.batch[..2]);
      }
  }

  /** In every interleaving the bytes accepted are those in the pipeline plus those lost. */
  lemma {:induction false} RunAccounts(events: seq<Event>)
    ensures |Accepted(events)| == |Pipeline(Run(events))| + Lost(events)
    ensures Lost(events) == 0 ==> Pipeline(Run(events)) == Accepted(events)
  {
    if events != [] {
      var before, e := events[..|events| - 1], events[|events| - 1];
      RunAccounts(before);
      CurrentFits(before);
      StepAccounts(Run(before), e);
    }
  }

  /** The two branches that throw nothing away: the record fits a buffer, the batch is not cut. */
  predicate Guard(s: State, e: Event) {
    match e
    case Log(content) => |content| <= 4096
    case Consume => s.phase.Discarding? ==> |s.batch| <= 25
  }

  ghost predicate Guarded(events: seq<Event>) {
    forall i | 0 <= i < |events| :: Guard(Run(events[..i]), events[i])
  }

  /** Records share a buffer as long as they fit: one is put aside only for a record that
      fills it, or the next one. */
  ghost predicate Packed(buffers: seq<seq<byte>>) {
    forall i | 0 < i < |buffers| :: |buffers[i - 1]| + |buffers[i]| >= 4096
  }

  lemma {:induction false} PackedEver(events: seq<Event>)
    ensures var s := Run(events); Packed(s.ready + [s.current]) && Packed(s.batch)
  {
    if events != [] {
      var s := Run(events[..|events| - 1]);
      PackedEver(events[..|events| - 1]);
      if events[|events| - 1].Log? { LogKeepsPacked(s, events[|events| - 1].content); }
    }
  }

  lemma LogKeepsPacked(s: State, content: seq<byte>)
    requires Packed(s.ready + [s.current])
    ensures var s' := Logged(s, content); Packed(s'.ready + [s'.current])
  {
    var buffers, s' := s.ready + [s.current], Logged(s, content);
    var buffers' := s'.ready + [s'.current];
    forall i | 0 < i < |buffers'|
      ensures |buffers'[i - 1]| + |buffers'[i]| >= 4096
    {
      if i < |buffers| {
        assert |buffers[i - 1]| + |buffers[i]| >= 4096;
        assert buffers'[i - 1] == buffers[i - 1] && |buffers'[i]| >= |buffers[i]|;
      }
    }
  }

  lemma {:induction false} PackedBytes(buffers: seq<seq<byte>>, pairs: nat)
    requires Packed(buffers) && 2 * pairs <= |buffers|
    ensures |Flatten(buffers)| >= pairs * 4096
  {
    if pairs > 0 {
      var n := |buffers|;
      assert |buffers[n - 1 - 1]| + |buffers[n - 1]| >= 4096;
      assert buffers[..n - 1][..n - 2] == buffers[..n - 2];
      assert Flatten(buffers) == Flatten(buffers[..n - 2]) + buffers[n - 2] + buffers[n - 1];
      PackedBytes(buffers[..n - 2], pairs - 1);
    }
  }

  /** So cutting a batch always loses bytes. */
  lemma LossIffGuardFails(s: State, e: Event)
    requires Packed(s.batch)
    ensures LossOf(s, e) == 0 <==> Guard(s, e)
  {
    if !Guard(s, e) && e.Consume? {
      var cut := s.batch[2..];
      forall i | 0 < i < |cut| ensures |cut[i - 1]| + |cut[i]| >= 4096 {
        assert |s.batch[i + 2 - 1]| + |s.batch[i + 2]| >= 4096;
      }
      PackedBytes(cut, 1);
    }
  }

  lemma {:induction false} LosesNothingIffGuarded(events: seq<Event>)
    ensures Lost(events) == 0 <==> Guarded(events)
  {
    hide Run, LossOf, Guard, Packed, Guarded;
    GuardedGrows(events);
    if events != [] {
      var before, e := events[..|events| - 1], events[|events| - 1];
      LosesNothingIffGuarded(before);
      PackedEver(before);
      LossIffGuardFails(Run(before), e);
    }
  }

  lemma GuardedGrows(events: seq<Event>)
    ensures Guarded([])
    ensures events != [] ==>
              var before := events[..|events| - 1];
              Guarded(events) <==> Guarded(before) && Guard(Run(before), events[|events| - 1])
  {
    hide Run, Guard;
    if events != [] {
      var before := events[..|events| - 1];
      forall i | 0 <= i < |before|
        ensures Guard(Run(before[..i]), before[i]) <==> Guard(Run(events[..i]), events[i])
      {
        assert before[..i] == events[..i];
      }
    }
  }

  /** The logger delivers everything accepted, in order, exactly in those runs in which every
      record fits a buffer and no batch of more than 25 buffers meets the cut. */
  lemma {:induction false} DeliversIffGuarded(events: seq<Event>)
    ensures Pipeline(Run(events)) == Accepted(events) <==> Guarded(events)
  {
    RunAccounts(events);
    LosesNothingIffGuarded(events);
  }

  /** The bytes accepted since the batch before was collected. */
  function SinceCollection(events: seq<Event>): nat {
    if events == [] then 0 else
    var before, e := events[..|events| - 1], events[|events| - 1];
    if e.Log? then SinceCollection(before) + |e.content|
    else if Run(before).phase.Collecting? then 0
    else SinceCollection(before)
  }

  lemma {:induction false} SinceIsAccepted(before: seq<Event>, logs: seq<Event>)
    requires forall i | 0 <= i < |logs| :: logs[i].Log?
    ensures SinceCollection(before + logs) == SinceCollection(before) + |Accepted(logs)|
    ensures Run(before).phase.Collecting? ==> SinceCollection(before + [Consume]) == 0
  {
    assert (before + [Consume])[..|before|] == before;
    if logs == [] {
      assert before + logs == before;
    } else {
      var n := |logs| - 1;
      assert (before + logs)[..|before + logs| - 1] == before + logs[..n] && (before + logs)[|before + logs| - 1] == logs[n];
      SinceIsAccepted(before, logs[..n]);
    }
  }

  ghost predicate Light(events: seq<Event>) {
    forall i | 0 <= i < |events| ::
      match events[i]
      case Log(content) => |content| <= 4096
      case Consume => Run(events[..i]).phase.Collecting? ==> SinceCollection(events[..i]) < 13 * 4096
  }

  lemma {:induction false} LightBatches(events: seq<Event>)
    requires Light(events)
    ensures var s := Run(events);
            && |Flatten(s.ready)| + |s.current| <= SinceCollection(events)
            && (s.phase.Discarding? ==> |Flatten(s.batch)| < 13 * 4096)
  {
    if events != [] {
      var before, e := events[..|events| - 1], events[|events| - 1];
      forall i | 0 <= i < |before| ensures before[..i] == events[..i] && before[i] == events[i] {
      }
      LightBatches(before);
      var s := Run(before);
      FlattenConcat(s.ready, [s.current]);
      FlattenOne(s.current);
      assert Run(events) == Next(s, e);
    }
  }

  /** A caller need only know what is accepted: with every record within a buffer, and less
      than 13 buffers' worth of bytes between any two collections, everything is delivered. */
  lemma LightLoadIsDelivered(events: seq<Event>)
    requires Light(events)
    ensures Pipeline(Run(events)) == Accepted(events)
  {
    hide Run, Pipeline, Accepted, SinceCollection;
    forall i | 0 <= i < |events|
      ensures Guard(Run(events[..i]), events[i])
    {
      var before := events[..i];
      forall j | 0 <= j < |before| ensures before[..j] == events[..j] && before[j] == events[j] {
      }
      LightBatches(before);
      PackedEver(before);
      if |Run(before).batch| >= 26 { PackedBytes(Run(before).batch, 13); }
    }
    DeliversIffGuarded(events);
  }

  // ------------------------------------------------ what is left when bytes are lost

  /** `a` is `b` with some elements left out. */
  ghost predicate Subsequence(a: seq<byte>, b: seq<byte>) {
    if b == [] then a == []
    else
      || Subsequence(a, b[..|b| - 1])
      || (a != [] && a[|a| - 1] == b[|b| - 1] && Subsequence(a[..|a| - 1], b[..|b| - 1]))
  }

  lemma {:induction false} SubsequenceOfItself(a: seq<byte>)
    ensures Subsequence(a, a) && Subsequence([], a)
  {
    if a != [] { SubsequenceOfItself(a[..|a| - 1]); }
  }

  lemma {:induction false} SubsequenceConcat(a: seq<byte>, b: seq<byte>, c: seq<byte>, d: seq<byte>)
    requires Subsequence(a, b) && Subsequence(c, d)
    ensures Subsequence(a + c, b + d)
  {
    if d == [] {
      assert a + c == a && b + d == b;
    } else {
      var d' := d[..|d| - 1];
      assert (b + d)[..|b + d| - 1] == b + d';
      if Subsequence(c, d') {
        SubsequenceConcat(a, b, c, d');
      } else {
        assert (a + c)[..|a + c| - 1] == a + c[..|c| - 1];
        SubsequenceConcat(a, b, c[..|c| - 1], d');
      }
    }
  }

  lemma {:induction false} SubsequenceTransitive(a: seq<byte>, b: seq<byte>, c: seq<byte>)
    requires Subsequence(a, b) && Subsequence(b, c)
    ensures Subsequence(a, c)
  {
    if c != [] {
      var c' := c[..|c| - 1];
      if Subsequence(b, c') {
        SubsequenceTransitive(a, b, c');
      } else if Subsequence(a, b[..|b| - 1]) {
        SubsequenceTransitive(a, b[..|b| - 1], c');
      } else {
        SubsequenceTransitive(a[..|a| - 1], b[..|b| - 1], c');
      }
    }
  }

  lemma PrefixIsSubsequence(a: seq<byte>, b: seq<byte>)
    requires a <= b
    ensures Subsequence(a, b)
  {
    SubsequenceOfItself(a);
    SubsequenceOfItself(b[|a|..]);
    SubsequenceConcat(a, a, [], b[|a|..]);
    assert a + [] == a && a + b[|a|..] == b;
  }

  lemma CutIsSubsequence(s: State)
    requires s.phase.Collecting? ==> s.batch == []
    ensures Subsequence(Pipeline(Consumed(s)), Pipeline(s))
  {
    hide Subsequence, Flatten;
    ConsumeAccounts(s);
    SubsequenceOfItself(Pipeline(s));
    if s.phase.Discarding? && |s.batch| > MAX_BATCH {
      var kept, all, behind := Flatten(s.batch[..2]), Flatten(s.batch), Flatten(s.ready) + s.current;
      assert s.batch == s.batch[..2] + s.batch[2..];
      FlattenConcat(s.batch[..2], s.batch[2..]);
      PrefixIsSubsequence(kept, all);
      SubsequenceOfItself(s.dumped);
      SubsequenceOfItself(behind);
      SubsequenceConcat(s.dumped, s.dumped, kept, all);
      SubsequenceConcat(s.dumped + kept, s.dumped + all, behind, behind);
      assert Pipeline(s) == s.dumped + all + behind && Pipeline(Consumed(s)) == s.dumped + kept + behind;
    }
  }

  /** Whatever is lost, nothing is repeated, invented or reordered. */
  lemma {:induction false} NothingReordered(events: seq<Event>)
    ensures Subsequence(Pipeline(Run(events)), Accepted(events))
  {
    if events != [] {
      var before, e := events[..|events| - 1], events[|events| - 1];
      var s := Run(before);
      NothingReordered(before);
      CurrentFits(before);
      if e.Log? {
        LogAccounts(s, e.content);
        PrefixIsSubsequence(Fit(e.content), e.content);
        SubsequenceConcat(Pipeline(s), Accepted(before), Fit(e.content), e.content);
      } else {
        CutIsSubsequence(s);
        SubsequenceTransitive(Pipeline(Consumed(s)), Pipeline(s), Accepted(before));
        assert Accepted(events) == Accepted(before);
      }
    }
  }

  // ------------------------------------------------ a losing run for each branch

  lemma LongRecordIsCut(content: seq<byte>)
    requires |content| > 4096
    ensures Accepted([Log(content)]) == content && Pipeline(Run([Log(content)])) == content[..4096]
  {
    var e := Log(content);
    assert [e][..0] == [];
    LogAccounts(INITIAL, content);
  }

  function Repeated(content: seq<byte>, k: nat): seq<Event> { seq(k, _ => Log(content)) }

  lemma {:induction false} FullRecords(full: seq<byte>, k: nat)
    requires |full| == 4096 && k > 0
    ensures Run(Repeated(full, k)) == State([], [], Collecting, [[]] + seq(k - 1, _ => full), full)
    ensures |Accepted(Repeated(full, k))| == k * 4096
  {
    var before := Repeated(full, k)[..k - 1];
    assert before == Repeated(full, k - 1);
    if k == 1 {
      assert before == [] && [[]] + seq(0, _ => full) == [] + [[]];
    } else {
      FullRecords(full, k - 1);
      assert [[]] + seq(k - 2, _ => full) + [full] == [[]] + seq(k - 1, _ => full);
    }
  }

  lemma TwoStages(events: seq<Event>)
    ensures Run(events + [Consume, Consume]) == Consumed(Consumed(Run(events)))
    ensures Accepted(events + [Consume, Consume]) == Accepted(events)
  {
    hide Consumed;
    var one := events + [Consume];
    assert one[..|one| - 1] == events;
    assert (events + [Consume, Consume])[..|one|] == one;
  }

  /** Of 25 or more full records that meet one iteration of the consumer, one is left. */
  lemma LargeBatchIsCut(full: seq<byte>, k: nat)
    requires |full| == 4096 && k >= 25
    ensures var events := Repeated(full, k) + [Consume, Consume];
            Pipeline(Run(events)) == full && |Accepted(events)| == k * 4096
  {
    hide Run, Accepted, Repeated;
    FullRecords(full, k);
    TwoStages(Repeated(full, k));
    var s := Run(Repeated(full, k));
    assert (s.ready + [s.current])[..2] == [[], full];
    assert [[], full] == [[]] + [full];
    FlattenConcat([[]], [full]);
    FlattenOne<byte>([]);
    FlattenOne(full);
  }

  // ------------------------------------------------ work outside the lock

  function LoggedAll(s: State, contents: seq<seq<byte>>): State {
    if contents == [] then s else Logged(LoggedAll(s, contents[..|contents| - 1]), contents[|contents| - 1])
  }

  /** The consumer outside the lock changes only its own part of the state.  Any piece of that
      work commutes with any calls to `Log` made meanwhile, so taking a whole stage as one
      step leaves out no outcome. */
  lemma {:induction false} OutsideTheLock(s: State, s': State, contents: seq<seq<byte>>)
    requires s'.ready == s.ready && s'.current == s.current
    ensures LoggedAll(s', contents) ==
            LoggedAll(s, contents).(dumped := s'.dumped, batch := s'.batch, phase := s'.phase)
    ensures LoggedAll(s, contents).dumped == s.dumped && LoggedAll(s, contents).batch == s.batch
    ensures LoggedAll(s, contents).phase == s.phase
  {
    if contents != [] { OutsideTheLock(s, s', contents[..|contents| - 1]); }
  }

  lemma StagesCommute(s: State, contents: seq<seq<byte>>)
    requires !s.phase.Collecting?
    ensures LoggedAll(Consumed(s), contents) == Consumed(LoggedAll(s, contents))
  {
    OutsideTheLock(s, Consumed(s), contents);
  }
}

module AsyncLogger {
  import opened Common
  import opened LogPipeline

  /** Buffers live in a heap of their own: a pointer is a key, `new` adds a key that was
      never used and `delete` removes one, so that a buffer used after its deletion, held
      twice or leaked would show. */
  type Pointer = nat
  type Heap = map<Pointer, seq<byte>>

  predicate AllLive(heap: Heap, buffers: seq<Pointer>) {
    forall i | 0 <= i < |buffers| :: buffers[i] in heap
  }

  function Texts(heap: Heap, buffers: seq<Pointer>): (texts: seq<seq<byte>>)
    requires AllLive(heap, buffers)
    ensures |texts| == |buffers|
    ensures forall i | 0 <= i < |buffers| :: texts[i] == heap[buffers[i]]
  {
    if buffers == [] then [] else Texts(heap, buffers[..|buffers| - 1]) + [heap[buffers[|buffers| - 1]]]
  }

  /** Who can hold a buffer: the producers' side, then the consumer's. */
  datatype Places = Places(
    current: Pointer, next: Option<Pointer>, ready: seq<Pointer>,
    spare1: Option<Pointer>, spare2: Option<Pointer>, batch: seq<Pointer>)

  function Held(p: Option<Pointer>): multiset<Pointer> { if p.None? then multiset{} else multiset{p.value} }

  function Holdings(p: Places): multiset<Pointer> {
    multiset{p.current} + Held(p.next) + multiset(p.ready) + Held(p.spare1) + Held(p.spare2) + multiset(p.batch)
  }

  /** Every live buffer has exactly one holder, and only live buffers are held. */
  ghost predicate OneHolderEach(p: Places, heap: Heap) {
    Holdings(p) == multiset(heap.Keys)
  }

  /** `next` is missing exactly while buffers are ready; while the consumer works on a
      batch it has given away its first spare, and its second exactly when the batch has
      a buffer to replace it. */
  ghost predicate Rotation(p: Places, phase: Phase) {
    && (p.next.None? <==> p.ready != [])
    && (phase.Collecting? ==> p.spare1.Some? && p.spare2.Some? && p.batch == [])
    && (!phase.Collecting? ==> p.spare1.None? && p.batch != [] && (p.spare2.None? <==> |p.batch| >= 2))
  }

  ghost predicate Blank(p: Option<Pointer>, heap: Heap) {
    p.Some? ==> p.value in heap && heap[p.value] == []
  }

  lemma HeldIsLive(p: Places, heap: Heap)
    requires OneHolderEach(p, heap)
    ensures p.current in heap && AllLive(heap, p.ready) && AllLive(heap, p.batch)
    ensures (p.next.Some? ==> p.next.value in heap) && (p.spare1.Some? ==> p.spare1.value in heap)
    ensures p.spare2.Some? ==> p.spare2.value in heap
  {
    assert forall x | x in Holdings(p) :: x in heap.Keys;
    assert p.current in Holdings(p);
    forall i | 0 <= i < |p.ready| ensures p.ready[i] in heap { assert p.ready[i] in multiset(p.ready); }
    forall i | 0 <= i < |p.batch| ensures p.batch[i] in heap { assert p.batch[i] in multiset(p.batch); }
  }

  /** Two different places never hold the same buffer. */
  lemma CurrentIsApart(p: Places, heap: Heap)
    requires OneHolderEach(p, heap)
    ensures p.current !in p.ready && p.current !in p.batch
    ensures Some(p.current) != p.next && Some(p.current) != p.spare1 && Some(p.current) != p.spare2
  {
    assert Holdings(p)[p.current] == multiset(heap.Keys)[p.current] <= 1;
    assert p.current in p.ready ==> p.current in multiset(p.ready);
    assert p.current in p.batch ==> p.current in multiset(p.batch);
  }

  lemma {:induction false} TextsFrame(heap: Heap, heap': Heap, buffers: seq<Pointer>)
    requires AllLive(heap, buffers) && AllLive(heap', buffers)
    requires forall i | 0 <= i < |buffers| :: heap'[buffers[i]] == heap[buffers[i]]
    ensures Texts(heap', buffers) == Texts(heap, buffers)
  {
  }

  /** Everything the logger's methods change, as one value. */
  datatype Desk = Desk(
    heap: Heap, used: nat, places: Places, phase: Phase, builtIn: seq<byte>, appenders: seq<seq<byte>>)

  ghost predicate Valid(d: Desk) {
    && OneHolderEach(d.places, d.heap)
    && Rotation(d.places, d.phase)
    && Blank(d.places.next, d.heap) && Blank(d.places.spare1, d.heap) && Blank(d.places.spare2, d.heap)
    && (forall b | b in d.heap :: b < d.used && |d.heap[b]| <= RECORD_BUFFER_SIZE)
    && (forall i | 0 <= i < |d.appenders| :: d.appenders[i] == d.builtIn)
  }

  ghost function Abs(d: Desk): State
    requires Valid(d)
  {
    HeldIsLive(d.places, d.heap);
    State(d.builtIn, Texts(d.heap, d.places.batch), d.phase, Texts(d.heap, d.places.ready), d.heap[d.places.current])
  }

  /** What a method needs to know of a valid desk. */
  lemma Facts(d: Desk)
    requires Valid(d)
    ensures d.places.current in d.heap && |d.heap[d.places.current]| <= RECORD_BUFFER_SIZE
    ensures AllLive(d.heap, d.places.batch)
    ensures Abs(d).batch == Texts(d.heap, d.places.batch) && Abs(d).phase == d.phase && Abs(d).current == d.heap[d.places.current]
    ensures d.used !in d.heap
    ensures d.phase.Collecting? ==> d.places.spare1.Some? && d.places.spare2.Some? && d.places.batch == []
    ensures !d.phase.Collecting? ==> d.places.spare1.None? && d.places.batch != []
    ensures !d.phase.Collecting? ==> (d.places.spare2.None? <==> |d.places.batch| >= 2)
    ensures forall i | 0 <= i < |d.appenders| :: d.appenders[i] == d.builtIn
  {
    HeldIsLive(d.places, d.heap);
  }

  /** Writing to the current buffer touches no other. */
  lemma WriteCurrent(d: Desk, text: seq<byte>)
    requires Valid(d) && |text| <= RECORD_BUFFER_SIZE
    ensures var d' := d.(heap := d.heap[d.places.current := text]);
            Valid(d') && Abs(d') == Abs(d).(current := text)
  {
    var d' := d.(heap := d.heap[d.places.current := text]);
    HeldIsLive(d.places, d.heap);
    CurrentIsApart(d.places, d.heap);
    assert d'.heap.Keys == d.heap.Keys;
    TextsFrame(d.heap, d'.heap, d.places.ready);
    TextsFrame(d.heap, d'.heap, d.places.batch);
  }

  lemma SwitchToNext(d: Desk)
    requires Valid(d) && d.places.next.Some?
    ensures var p := d.places;
            var d' := d.(places := p.(current := p.next.value, next := None, ready := p.ready + [p.current]));
            Valid(d') && Abs(d') == Abs(d).(ready := Abs(d).ready + [Abs(d).current], current := [])
  {
    var p := d.places;
    var p' := p.(current := p.next.value, next := None, ready := p.ready + [p.current]);
    assert Holdings(p') == Holdings(p);
    assert p'.ready[..|p.ready|] == p.ready;
    HeldIsLive(p, d.heap);
  }

  lemma SwitchToNew(d: Desk)
    requires Valid(d) && d.places.next.None?
    ensures var p := d.places;
            var d' := d.(heap := d.heap[d.used := []], used := d.used + 1,
                         places := p.(current := d.used, ready := p.ready + [p.current]));
            Valid(d') && Abs(d') == Abs(d).(ready := Abs(d).ready + [Abs(d).current], current := [])
  {
    var p, heap' := d.places, d.heap[d.used := []];
    var p' := p.(current := d.used, ready := p.ready + [p.current]);
    HeldIsLive(p, d.heap);
    assert d.used !in d.heap;
    assert heap'.Keys == d.heap.Keys + {d.used};
    assert Holdings(p') == Holdings(p) + multiset{d.used};
    assert multiset(heap'.Keys) == multiset(d.heap.Keys) + multiset{d.used};
    assert p'.ready[..|p.ready|] == p.ready;
    TextsFrame(d.heap, heap', p.ready);
    TextsFrame(d.heap, heap', p.batch);
  }

  function Taken(p: Places): Places
    requires p.spare1.Some?
  {
    Places(p.spare1.value, if p.next.None? then p.spare2 else p.next, [],
           None, if p.next.None? then None else p.spare2, p.ready + [p.current])
  }

  lemma TakeAll(d: Desk)
    requires Valid(d) && d.phase.Collecting?
    ensures var d' := d.(places := Taken(d.places), phase := Discarding);
            Valid(d') && Abs(d') == Collected(Abs(d))
  {
    var p, p' := d.places, Taken(d.places);
    assert Holdings(p') == Holdings(p);
    assert p'.batch[..|p.ready|] == p.ready;
    HeldIsLive(p, d.heap);
  }

  lemma DeletedAreApart(p: Places, heap: Heap)
    requires OneHolderEach(p, heap) && |p.batch| > 2
    ensures OneHolderEach(p.(batch := p.batch[..2]), heap - (set b | b in p.batch[2..]))
  {
    var rest := set b | b in p.batch[2..];
    assert p.batch == p.batch[..2] + p.batch[2..];
    var kept := p.(batch := p.batch[..2]);
    assert Holdings(p) == Holdings(kept) + multiset(p.batch[2..]);
    forall b
      ensures Holdings(kept)[b] == multiset(heap.Keys - rest)[b]
    {
      assert Holdings(p)[b] == multiset(heap.Keys)[b];
      assert b in rest <==> multiset(p.batch[2..])[b] > 0;
    }
    assert (heap - rest).Keys == heap.Keys - rest;
  }

  lemma DeleteBeyondTwo(d: Desk)
    requires Valid(d) && !d.phase.Collecting? && |d.places.batch| > 2
    ensures var d' := d.(heap := d.heap - (set b | b in d.places.batch[2..]),
                         places := d.places.(batch := d.places.batch[..2]));
            Valid(d') && Abs(d') == Abs(d).(batch := Abs(d).batch[..2])
  {
    var p := d.places;
    var p', heap' := p.(batch := p.batch[..2]), d.heap - (set b | b in p.batch[2..]);
    HeldIsLive(p, d.heap);
    DeletedAreApart(p, d.heap);
    HeldIsLive(p', heap');
    TextsFrame(d.heap, heap', p.ready);
    assert Texts(heap', p'.batch) == Texts(d.heap, p.batch)[..2];
  }

  lemma Proceed(d: Desk)
    requires Valid(d) && d.phase.Discarding?
    ensures Valid(d.(phase := Dumping)) && Abs(d.(phase := Dumping)) == Abs(d).(phase := Dumping)
  {
  }

  lemma Output(d: Desk, built: seq<byte>, appenders: seq<seq<byte>>)
    requires Valid(d) && d.phase.Dumping?
    requires built == d.builtIn + Flatten(Abs(d).batch)
    requires forall i | 0 <= i < |appenders| :: appenders[i] == built
    ensures var d' := d.(phase := Recycling, builtIn := built, appenders := appenders);
            Valid(d') && Abs(d') == Dumped(Abs(d))
  {
  }

  /** Once the batch has at most two buffers, the missing spares are exactly the batch. */
  function Refilled(p: Places): Places
    requires p.spare1.None? && 1 <= |p.batch| <= 2 && (p.spare2.None? <==> |p.batch| == 2)
  {
    p.(spare1 := Some(p.batch[|p.batch| - 1]),
       spare2 := if p.spare2.None? then Some(p.batch[0]) else p.spare2,
       batch := [])
  }

  lemma ReadyIsApart(p: Places, heap: Heap, b: Pointer)
    requires OneHolderEach(p, heap) && b in p.ready
    ensures b !in p.batch
  {
    assert b in multiset(p.ready) && (b in p.batch ==> b in multiset(p.batch));
    assert Holdings(p)[b] == multiset(heap.Keys)[b] <= 1;
  }

  lemma NextIsApart(p: Places, heap: Heap)
    requires OneHolderEach(p, heap) && p.next.Some?
    ensures p.next.value !in p.batch
  {
    var b := p.next.value;
    assert b in p.batch ==> b in multiset(p.batch);
    assert Holdings(p)[b] == multiset(heap.Keys)[b] <= 1;
  }

  lemma SpareIsApart(p: Places, heap: Heap)
    requires OneHolderEach(p, heap) && p.spare2.Some?
    ensures p.spare2.value !in p.batch
  {
    var b := p.spare2.value;
    assert b in p.batch ==> b in multiset(p.batch);
    assert Holdings(p)[b] == multiset(heap.Keys)[b] <= 1;
  }

  lemma RefilledHoldsTheSame(p: Places)
    requires p.spare1.None? && 1 <= |p.batch| <= 2 && (p.spare2.None? <==> |p.batch| == 2)
    ensures Holdings(Refilled(p)) == Holdings(p)
  {
    if |p.batch| == 1 {
      assert p.batch == [p.batch[0]];
    } else {
      assert p.batch == [p.batch[0], p.batch[1]];
    }
  }

  lemma RefilledIsBlank(p: Places, heap: Heap, heap': Heap)
    requires OneHolderEach(p, heap) && heap'.Keys == heap.Keys
    requires Blank(p.next, heap) && Blank(p.spare2, heap)
    requires p.spare1.None? && 1 <= |p.batch| <= 2 && (p.spare2.None? <==> |p.batch| == 2)
    requires forall b | b in heap' :: heap'[b] == if b in p.batch then [] else heap[b]
    ensures Blank(p.next, heap') && Blank(Refilled(p).spare1, heap') && Blank(Refilled(p).spare2, heap')
  {
    HeldIsLive(p, heap);
    if p.next.Some? { NextIsApart(p, heap); }
    if p.spare2.Some? { SpareIsApart(p, heap); }
    assert p.batch[|p.batch| - 1] in p.batch && p.batch[0] in p.batch;
  }

  /** The spare buffers come back, emptied, and nothing else changes hands. */
  lemma Refill(d: Desk, heap': Heap)
    requires Valid(d) && d.phase.Recycling? && |d.places.batch| <= 2
    requires heap'.Keys == d.heap.Keys
    requires forall b | b in heap' :: heap'[b] == if b in d.places.batch then [] else d.heap[b]
    ensures var d' := d.(heap := heap', places := Refilled(d.places), phase := Collecting);
            Valid(d') && Abs(d') == Recycled(Abs(d))
  {
    var p := d.places;
    HeldIsLive(p, d.heap);
    CurrentIsApart(p, d.heap);
    RefilledHoldsTheSame(p);
    RefilledIsBlank(p, d.heap, heap');
    forall i | 0 <= i < |p.ready| ensures p.ready[i] !in p.batch {
      ReadyIsApart(p, d.heap, p.ready[i]);
    }
    TextsFrame(d.heap, heap', p.ready);
  }

  lemma BothEmptied(heap: Heap, batch: seq<Pointer>, heap': Heap)
    requires AllLive(heap, batch) && 1 <= |batch| <= 2
    requires |batch| == 1 ==> heap' == heap[batch[0] := []]
    requires |batch| == 2 ==> heap' == heap[batch[1] := []][batch[0] := []]
    ensures heap'.Keys == heap.Keys
    ensures forall b | b in heap' :: heap'[b] == if b in batch then [] else heap[b]
  {
  }

  class AsyncLogger {
    var heap: Heap
    var used: nat
    // shared, guarded by the mutex
    var currentBuffer: Pointer
    var nextBuffer: Option<Pointer>
    var buffer2Ready: seq<Pointer>
    // the consumer's own
    var buffer1: Option<Pointer>
    var buffer2: Option<Pointer>
    var buffer2Write: seq<Pointer>
    ghost var phase: Phase
    // what the appenders have been given
    var builtInAppender: seq<byte>
    var appenderVector: seq<seq<byte>>

    ghost function Now(): Desk
      reads this
    {
      Desk(heap, used, Places(currentBuffer, nextBuffer, buffer2Ready, buffer1, buffer2, buffer2Write), phase,
           builtInAppender, appenderVector)
    }

    constructor (appenders: nat)
      ensures Valid(Now()) && Abs(Now()) == INITIAL && |appenderVector| == appenders
    {
      heap, used := map[0 := [], 1 := [], 2 := [], 3 := []], 4;
      currentBuffer, nextBuffer, buffer1, buffer2 := 0, Some(1), Some(2), Some(3);
      buffer2Ready, buffer2Write, phase := [], [], Collecting;
      builtInAppender, appenderVector := [], seq(appenders, i => []);
    }

    /** A buffer keeps what fits of a write. */
    method Write(b: Pointer, content: seq<byte>)
      requires b in heap && |heap[b]| <= RECORD_BUFFER_SIZE
      modifies `heap
      ensures heap == old(heap)[b := Fit(old(heap)[b] + content)]
    {
      if RECORD_BUFFER_SIZE - |heap[b]| >= |content| {
        heap := heap[b := heap[b] + content];
      } else {
        assert heap[b] + content[..RECORD_BUFFER_SIZE - |heap[b]|] == (heap[b] + content)[..RECORD_BUFFER_SIZE];
        heap := heap[b := heap[b] + content[..RECORD_BUFFER_SIZE - |heap[b]|]];
      }
    }

    /** A producer's call: the whole of it runs under the mutex. */
    method Log(content: seq<byte>)
      requires Valid(Now())
      modifies this
      ensures Valid(Now())
      ensures Abs(Now()) == Logged(old(Abs(Now())), content)
      ensures old(heap.Keys) <= heap.Keys
    {
      hide Valid, Abs;
      Facts(Now());
      if RECORD_BUFFER_SIZE - |heap[currentBuffer]| > |content| {
        WriteCurrent(Now(), heap[currentBuffer] + content);
        Write(currentBuffer, content);
      } else {
        Switch();
        Facts(Now());
        assert heap[currentBuffer] + content == content;
        WriteCurrent(Now(), Fit(content));
        Write(currentBuffer, content);
      }
    }

    /** The full buffer joins the ready list; the next one, or a new one, takes its place. */
    method Switch()
      requires Valid(Now())
      modifies this
      ensures Valid(Now()) && old(heap.Keys) <= heap.Keys
      ensures Abs(Now()) == old(Abs(Now())).(ready := old(Abs(Now())).ready + [old(Abs(Now())).current], current := [])
    {
      hide Valid, Abs;
      if nextBuffer.Some? {
        SwitchToNext(Now());
      } else {
        SwitchToNew(Now());
      }
      buffer2Ready := buffer2Ready + [currentBuffer];
      if nextBuffer.Some? {
        currentBuffer := nextBuffer.value;
        nextBuffer := None;
      } else {
        currentBuffer := used;
        used := used + 1;
        heap := heap[currentBuffer := []];
      }
    }

    /** The consumer's locked section: it takes everything, the current buffer included,
        and leaves its spare buffers in exchange. */
    method Collect()
      requires Valid(Now()) && phase.Collecting?
      modifies this
      ensures Valid(Now())
      ensures Abs(Now()) == Collected(old(Abs(Now())))
      ensures heap == old(heap)
    {
      hide Valid, Abs;
      Facts(Now());
      TakeAll(Now());
      buffer2Ready := buffer2Ready + [currentBuffer];
      currentBuffer := buffer1.value;
      buffer1 := None;
      buffer2Write, buffer2Ready := buffer2Ready, buffer2Write;
      if nextBuffer.None? {
        nextBuffer := buffer2;
        buffer2 := None;
      }
      phase := Discarding;
    }

    /** Deletes all but the first two buffers of the batch. */
    method DeleteRest()
      requires Valid(Now()) && !phase.Collecting? && |buffer2Write| > 2
      modifies `heap, `buffer2Write
      ensures Valid(Now())
      ensures Abs(Now()) == old(Abs(Now())).(batch := old(Abs(Now())).batch[..2])
      ensures buffer2Write == old(buffer2Write[..2])
      ensures heap == old(heap) - (set b | b in old(buffer2Write[2..]))
    {
      hide Valid, Abs;
      DeleteBeyondTwo(Now());
      for i := 2 to |buffer2Write|
        modifies `heap
        invariant heap == old(heap) - (set b | b in buffer2Write[2..i])
      {
        assert buffer2Write[2..i + 1] == buffer2Write[2..i] + [buffer2Write[i]];
        heap := heap - {buffer2Write[i]};
      }
      assert buffer2Write[2..|buffer2Write|] == buffer2Write[2..];
      buffer2Write := buffer2Write[..2];
    }

    /** Too large a batch is cut down before anyone sees it. */
    method Discard()
      requires Valid(Now()) && phase.Discarding?
      modifies this
      ensures Valid(Now())
      ensures Abs(Now()) == Discarded(old(Abs(Now())))
      ensures heap.Keys <= old(heap.Keys)
    {
      hide Valid, Abs;
      Facts(Now());
      if |buffer2Write| > MAX_BATCH {
        DeleteRest();
      }
      Proceed(Now());
      phase := Dumping;
    }

    /** One appender is given the batch, buffer by buffer. */
    method DumpTo(appender: seq<byte>) returns (dumped: seq<byte>)
      requires AllLive(heap, buffer2Write)
      ensures dumped == appender + Flatten(Texts(heap, buffer2Write))
    {
      dumped := appender;
      ghost var texts := Texts(heap, buffer2Write);
      for i := 0 to |buffer2Write|
        invariant dumped == appender + Flatten(texts[..i])
      {
        assert texts[..i + 1][..i] == texts[..i];
        dumped := dumped + heap[buffer2Write[i]];
      }
      assert texts[..|buffer2Write|] == texts;
    }

    /** The other appenders are given the batch one after the other. */
    method DumpToAll(ghost before: seq<byte>)
      requires AllLive(heap, buffer2Write)
      requires forall i | 0 <= i < |appenderVector| :: appenderVector[i] == before
      modifies `appenderVector
      ensures |appenderVector| == old(|appenderVector|)
      ensures forall i | 0 <= i < |appenderVector| :: appenderVector[i] == before + Flatten(Texts(heap, buffer2Write))
    {
      for k := 0 to |appenderVector|
        invariant |appenderVector| == old(|appenderVector|)
        invariant forall j | 0 <= j < |appenderVector| ::
                    appenderVector[j] == if j < k then before + Flatten(Texts(heap, buffer2Write)) else before
      {
        var dumped := DumpTo(appenderVector[k]);
        appenderVector := appenderVector[k := dumped];
      }
    }

    /** The built-in appender and then all others are given the same batch. */
    method Dump()
      requires Valid(Now()) && phase.Dumping?
      modifies this
      ensures Valid(Now())
      ensures Abs(Now()) == Dumped(old(Abs(Now())))
      ensures heap == old(heap) && |appenderVector| == |old(appenderVector)|
    {
      hide Valid, Abs;
      ghost var d := Now();
      Facts(d);
      builtInAppender := DumpTo(builtInAppender);
      DumpToAll(d.builtIn);
      Output(d, builtInAppender, appenderVector);
      phase := Recycling;
    }

    /** The spare buffers are refilled from the batch.  Taking the last of an empty batch
        would be an error; it never happens, and when the batch is cleared no buffer is
        left in it: the only buffers gone are those beyond the second, which were deleted. */
    method Recycle()
      requires Valid(Now()) && phase.Recycling?
      modifies this
      ensures Valid(Now())
      ensures Abs(Now()) == Recycled(old(Abs(Now())))
      ensures heap.Keys == old(heap.Keys) - if |old(buffer2Write)| > 2 then (set b | b in old(buffer2Write)[2..]) else {}
    {
      hide Valid, Abs;
      Facts(Now());
      if |buffer2Write| > 2 {
        DeleteRest();
      }
      Facts(Now());
      TakeBack();
      phase := Collecting;
    }

    method TakeBack()
      requires Valid(Now()) && phase.Recycling? && |buffer2Write| <= 2
      modifies `heap, `buffer1, `buffer2, `buffer2Write
      ensures Valid(Now().(phase := Collecting)) && heap.Keys == old(heap.Keys)
      ensures Abs(Now().(phase := Collecting)) == Recycled(old(Abs(Now())))
    {
      hide Valid, Abs;
      ghost var d := Now();
      Facts(d);
      if buffer1.None? {
        buffer1 := Some(buffer2Write[|buffer2Write| - 1]);
        buffer2Write := buffer2Write[..|buffer2Write| - 1];
        heap := heap[buffer1.value := []];
      }
      if buffer2.None? {
        buffer2 := Some(buffer2Write[|buffer2Write| - 1]);
        buffer2Write := buffer2Write[..|buffer2Write| - 1];
        heap := heap[buffer2.value := []];
      }
      assert buffer2Write == [];
      buffer2Write := [];
      BothEmptied(d.heap, d.places.batch, heap);
      Refill(d, heap);
      assert Now().places == Refilled(d.places);
    }
  }
}
