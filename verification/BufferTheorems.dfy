/** What every run of the metrics buffer keeps. */
module BufferTheorems {
  import opened Collections
  import opened Splitter
  import opened MemoryQueue
  import opened BufferSpec

  // ---------- conservation ----------

  /** How often a resource metric occurs. */
  function Occ(s: seq<Item>, x: Item): nat {
    if s == [] then 0 else (if s[0] == x then 1 else 0) + Occ(s[1..], x)
  }

  lemma {:induction false} OccAppend(a: seq<Item>, b: seq<Item>, x: Item)
    ensures Occ(a + b, x) == Occ(a, x) + Occ(b, x)
  {
    if a == [] {
      assert a + b == b;
    } else {
      assert (a + b)[1..] == a[1..] + b;
      OccAppend(a[1..], b, x);
    }
  }

  lemma OccSplit(s: seq<Item>, k: nat, x: Item)
    requires k <= |s|
    ensures Occ(s, x) == Occ(s[..k], x) + Occ(s[k..], x)
  {
    assert s == s[..k] + s[k..];
    OccAppend(s[..k], s[k..], x);
  }

  function InSink(k: Sink, x: Item): nat {
    Occ(Concat(k.failover), x) + Occ(k.exported, x) + Occ(k.queued, x) + Occ(k.evicted, x) + Occ(k.lost, x)
  }

  /** In how many places a resource metric is. */
  function Places(s: Store, x: Item): nat {
    Occ(s.buffer, x) + InSink(s.sink, x)
  }

  lemma FallbackHolds(c: Config, k: Sink, batch: seq<Item>, x: Item)
    ensures InSink(Fallback(c, k, batch), x) == InSink(k, x) + Occ(batch, x)
  {
    OccAppend(k.lost, batch, x);
    if c.failover.Some? && Storable(c.failover.value, batch) {
      var n := Evictions(c.failover.value, k.failover, c.failover.value.wire(batch));
      var gone, stay := k.failover[..n], k.failover[n..];
      assert k.failover == gone + stay;
      ConcatAppend(gone, stay);
      ConcatSnoc(stay, batch);
      OccAppend(Concat(gone), Concat(stay), x);
      OccAppend(Concat(stay), batch, x);
      OccAppend(k.evicted, Concat(gone), x);
    }
  }

  /** An export, however it splits, puts each resource metric of the batch in one place. */
  lemma {:induction false} ExportHolds(c: Config, k: Sink, batch: seq<Item>, answers: nat -> Outcome, x: Item)
    ensures InSink(Export(c, k, batch, answers), x) == InSink(k, x) + Occ(batch, x)
    ensures Export(c, k, batch, answers).duplicated == k.duplicated
    decreases |batch|
  {
    var o := answers(k.attempts);
    var tried := Tried(k, batch, o);
    if o == TooLarge && |batch| > 1 {
      var mid := |batch| / 2;
      ExportHolds(c, tried, batch[..mid], answers, x);
      ExportHolds(c, Export(c, tried, batch[..mid], answers), batch[mid..], answers, x);
      OccSplit(batch, mid, x);
    } else {
      FallbackHolds(c, tried, batch, x);
      OccAppend(k.exported, batch, x);
      OccAppend(k.queued, batch, x);
    }
  }

  lemma {:induction false} ExportAllHolds(c: Config, k: Sink, batches: seq<seq<Item>>, answers: nat -> Outcome, x: Item)
    ensures InSink(ExportAll(c, k, batches, answers), x) == InSink(k, x) + Occ(Concat(batches), x)
    ensures ExportAll(c, k, batches, answers).duplicated == k.duplicated
    decreases |batches|
  {
    if batches != [] {
      ExportHolds(c, k, batches[0], answers, x);
      ExportAllHolds(c, Export(c, k, batches[0], answers), batches[1..], answers, x);
      OccAppend(batches[0], Concat(batches[1..]), x);
    }
  }

  lemma PutBackHolds(c: Config, k: Sink, req: seq<Item>, o: Outcome, x: Item)
    ensures InSink(PutBack(c, k, req, o), x) - Occ(PutBack(c, k, req, o).duplicated, x)
         == InSink(k, x) + Occ(req, x) - Occ(k.duplicated, x)
  {
    var marked := if o == Queued then k.(queued := k.queued + req, duplicated := k.duplicated + req) else k;
    FallbackHolds(c, marked, req, x);
    OccAppend(k.queued, req, x);
    OccAppend(k.duplicated, req, x);
  }

  lemma {:induction false} DrainHolds(c: Config, k: Sink, budget: nat, answers: nat -> Outcome, x: Item)
    ensures InSink(Drain(c, k, budget, answers), x) - Occ(Drain(c, k, budget, answers).duplicated, x)
         == InSink(k, x) - Occ(k.duplicated, x)
    decreases budget
  {
    if budget > 0 && k.failover != [] {
      var popped := Popped(k);
      OccAppend(k.failover[0], Concat(k.failover[1..]), x);
      if answers(k.attempts) == Exported {
        OccAppend(k.exported, k.failover[0], x);
        DrainHolds(c, Deliver(popped, k.failover[0]), budget - 1, answers, x);
      } else {
        PutBackHolds(c, popped, k.failover[0], answers(k.attempts), x);
      }
    }
  }

  predicate Balanced(s: Store, x: Item) {
    Places(s, x) == Occ(s.accepted, x) + Occ(s.sink.duplicated, x)
  }

  lemma NextBalanced(c: Config, s: Store, e: Event, answers: nat -> Outcome, x: Item)
    requires c.maxBatchSize > 0 && Balanced(s, x)
    ensures Balanced(Next(c, s, e, answers), x)
  {
    match e
    case AddBatch(batch) =>
      var k := Overflow(c, s.buffer, SizeOf(batch));
      OccSplit(s.buffer, k, x);
      OccAppend(s.buffer[k..], batch, x);
      OccAppend(s.accepted, batch, x);
      OccAppend(s.sink.evicted, s.buffer[..k], x);
    case FlushNow(maxBytes) =>
      FlushKeepsOrder(s.buffer, c.maxBatchSize, maxBytes);
      ExportAllHolds(c, s.sink, FlushBatches(s.buffer, c.maxBatchSize, maxBytes), answers, x);
    case DrainTick =>
      DrainHolds(c, s.sink, MAX_DRAIN, answers, x);
  }

  /** Over every run each accepted resource metric is in exactly one place, plus one more for
      every time a drained request was answered ErrExportQueued. */
  lemma {:induction false} RunBalanced(c: Config, s: Store, events: seq<Event>, answers: nat -> Outcome, x: Item)
    requires c.maxBatchSize > 0 && Balanced(s, x)
    ensures Balanced(Run(c, s, events, answers), x)
    decreases |events|
  {
    if events != [] {
      NextBalanced(c, s, events[0], answers, x);
      RunBalanced(c, Next(c, s, events[0], answers), events[1..], answers, x);
    }
  }

  // ---------- when nothing is duplicated ----------

  lemma {:induction false} ExportNonEmpty(c: Config, k: Sink, batch: seq<Item>, answers: nat -> Outcome)
    requires NonEmpty(k.failover) && batch != []
    ensures NonEmpty(Export(c, k, batch, answers).failover)
    ensures Export(c, k, batch, answers).duplicated == k.duplicated
    decreases |batch|
  {
    if answers(k.attempts) == TooLarge && |batch| > 1 {
      var tried, mid := Tried(k, batch, TooLarge), |batch| / 2;
      ExportNonEmpty(c, tried, batch[..mid], answers);
      ExportNonEmpty(c, Export(c, tried, batch[..mid], answers), batch[mid..], answers);
    }
  }

  lemma {:induction false} ExportAllNonEmpty(c: Config, k: Sink, batches: seq<seq<Item>>, answers: nat -> Outcome)
    requires NonEmpty(k.failover) && NonEmpty(batches)
    ensures NonEmpty(ExportAll(c, k, batches, answers).failover)
    ensures ExportAll(c, k, batches, answers).duplicated == k.duplicated
    decreases |batches|
  {
    if batches != [] {
      ExportNonEmpty(c, k, batches[0], answers);
      ExportAllNonEmpty(c, Export(c, k, batches[0], answers), batches[1..], answers);
    }
  }

  /** The first request this drain cannot deliver is answered ErrExportQueued. */
  predicate DrainMeetsQueued(k: Sink, budget: nat, answers: nat -> Outcome)
    decreases budget
  {
    && budget > 0 && k.failover != []
    && (answers(k.attempts) == Queued ||
        (answers(k.attempts) == Exported &&
         DrainMeetsQueued(Deliver(Popped(k), k.failover[0]), budget - 1, answers)))
  }

  lemma PutBackNonEmpty(c: Config, k: Sink, req: seq<Item>, o: Outcome)
    requires NonEmpty(k.failover) && req != []
    ensures NonEmpty(PutBack(c, k, req, o).failover)
    ensures o == Queued ==> |PutBack(c, k, req, o).duplicated| > |k.duplicated|
    ensures o != Queued ==> PutBack(c, k, req, o).duplicated == k.duplicated
  {
  }

  lemma {:induction false} DrainNonEmpty(c: Config, k: Sink, budget: nat, answers: nat -> Outcome)
    requires NonEmpty(k.failover)
    ensures NonEmpty(Drain(c, k, budget, answers).failover)
    ensures DrainMeetsQueued(k, budget, answers) ==> |Drain(c, k, budget, answers).duplicated| > |k.duplicated|
    ensures !DrainMeetsQueued(k, budget, answers) ==> Drain(c, k, budget, answers).duplicated == k.duplicated
    decreases budget
  {
    if budget > 0 && k.failover != [] {
      var popped := Popped(k);
      assert NonEmpty(popped.failover);
      if answers(k.attempts) == Exported {
        DrainNonEmpty(c, Deliver(popped, k.failover[0]), budget - 1, answers);
      } else {
        PutBackNonEmpty(c, popped, k.failover[0], answers(k.attempts));
      }
    }
  }

  /** No drain of the run is answered ErrExportQueued. */
  ghost predicate DrainsClean(c: Config, s: Store, events: seq<Event>, answers: nat -> Outcome)
    requires c.maxBatchSize > 0
    decreases |events|
  {
    events == [] ||
    (&& (events[0].DrainTick? ==> !DrainMeetsQueued(s.sink, MAX_DRAIN, answers))
     && DrainsClean(c, Next(c, s, events[0], answers), events[1..], answers))
  }

  lemma {:induction false} DuplicatedIff(c: Config, s: Store, events: seq<Event>, answers: nat -> Outcome)
    requires c.maxBatchSize > 0 && NonEmpty(s.sink.failover)
    ensures |Run(c, s, events, answers).sink.duplicated| >= |s.sink.duplicated|
    ensures DrainsClean(c, s, events, answers) <==>
            |Run(c, s, events, answers).sink.duplicated| == |s.sink.duplicated|
    decreases |events|
  {
    if events != [] {
      match events[0] {
        case AddBatch(batch) =>
        case FlushNow(maxBytes) =>
          FlushNonEmpty(s.buffer, c.maxBatchSize, maxBytes);
          ExportAllNonEmpty(c, s.sink, FlushBatches(s.buffer, c.maxBatchSize, maxBytes), answers);
        case DrainTick =>
          DrainNonEmpty(c, s.sink, MAX_DRAIN, answers);
      }
      DuplicatedIff(c, Next(c, s, events[0], answers), events[1..], answers);
    }
  }

  /** Every accepted resource metric is in exactly one place if and only if no drain of the
      run was answered ErrExportQueued. */
  lemma ConservedIff(c: Config, events: seq<Event>, answers: nat -> Outcome)
    requires c.maxBatchSize > 0
    ensures var end := Run(c, EMPTY, events, answers);
            (forall x :: Places(end, x) == Occ(end.accepted, x)) <==> DrainsClean(c, EMPTY, events, answers)
  {
    var end := Run(c, EMPTY, events, answers);
    DuplicatedIff(c, EMPTY, events, answers);
    forall x ensures Balanced(end, x) {
      RunBalanced(c, EMPTY, events, answers, x);
    }
    if end.sink.duplicated != [] {
      var x := end.sink.duplicated[0];
      assert Occ(end.sink.duplicated, x) > 0;
      assert Balanced(end, x);
      assert Places(end, x) != Occ(end.accepted, x);
    } else {
      forall x ensures Places(end, x) == Occ(end.accepted, x) {
        assert Balanced(end, x);
      }
    }
  }

  lemma RefusedFlush(c: Config, x: Item, answers: nat -> Outcome)
    requires c.maxBatchSize > 0 && c.failover.Some? && Storable(c.failover.value, [x]) && answers(0) == Refused
    ensures Flush(c, EMPTY.(buffer := [x], accepted := [x], latest := [x]), 0, answers)
         == Store([], [x], [x], Sink([[x]], [], [], [], [], [], 1))
  {
    var k := EMPTY.sink;
    assert FlushBatches([x], c.maxBatchSize, 0) == [[x]] by {
      assert [x][..1] == [x] && [x][1..] == [];
    }
    var stored := Export(c, k, [x], answers);
    assert stored == Fallback(c, k.(attempts := 1), [x]);
    assert stored == Sink([[x]], [], [], [], [], [], 1);
    assert ExportAll(c, stored, [], answers) == stored && [[x]][1..] == [];
  }

  /** One refused flush and one drain answered ErrExportQueued: the resource metric is both
      with the exporter and back in the failover queue. */
  lemma DrainDuplicates(c: Config, x: Item, answers: nat -> Outcome)
    requires c.maxBatchSize > 0 && c.maxBufferBytes <= 0 && c.failover.Some? && Storable(c.failover.value, [x])
    requires answers(0) == Refused && answers(1) == Queued
    ensures var end := Next(c, Next(c, Next(c, EMPTY, AddBatch([x]), answers), FlushNow(0), answers), DrainTick,
            answers);
            end.accepted == [x] && end.sink.queued == [x] && end.sink.failover == [[x]]
  {
    assert Add(c, EMPTY, [x]) == EMPTY.(buffer := [x], accepted := [x], latest := [x]);
    RefusedFlush(c, x, answers);
    var k := Sink([[x]], [], [], [], [], [], 1);
    var popped := Sink([], [], [], [], [], [], 2);
    assert k.(failover := k.failover[1..], attempts := 2) == popped;
    assert Drain(c, k, MAX_DRAIN, answers) == PutBack(c, popped, [x], Queued);
  }

  // ---------- bounds ----------

  predicate SinkBounded(c: Config, k: Sink) {
    if c.failover.None? then k.failover == [] else Within(c.failover.value, k.failover)
  }

  /** Over the cap only by a batch that is alone in the buffer, under drop-oldest. */
  ghost predicate Bounded(c: Config, s: Store) {
    && SinkBounded(c, s.sink)
    && (!Fits(c, SizeOf(s.buffer), 0) ==> c.policy == DropOldest && s.buffer == s.latest)
  }

  lemma FallbackBounded(c: Config, k: Sink, batch: seq<Item>)
    requires Sane(c) && SinkBounded(c, k)
    ensures SinkBounded(c, Fallback(c, k, batch))
  {
    if c.failover.Some? {
      PushKeepsWithin(c.failover.value, k.failover, batch);
    }
  }

  lemma {:induction false} ExportBounded(c: Config, k: Sink, batch: seq<Item>, answers: nat -> Outcome)
    requires Sane(c) && SinkBounded(c, k)
    ensures SinkBounded(c, Export(c, k, batch, answers))
    decreases |batch|
  {
    var tried := Tried(k, batch, answers(k.attempts));
    if answers(k.attempts) == TooLarge && |batch| > 1 {
      var mid := |batch| / 2;
      ExportBounded(c, tried, batch[..mid], answers);
      ExportBounded(c, Export(c, tried, batch[..mid], answers), batch[mid..], answers);
    } else {
      FallbackBounded(c, tried, batch);
    }
  }

  lemma {:induction false} ExportAllBounded(c: Config, k: Sink, batches: seq<seq<Item>>, answers: nat -> Outcome)
    requires Sane(c) && SinkBounded(c, k)
    ensures SinkBounded(c, ExportAll(c, k, batches, answers))
    decreases |batches|
  {
    if batches != [] {
      ExportBounded(c, k, batches[0], answers);
      ExportAllBounded(c, Export(c, k, batches[0], answers), batches[1..], answers);
    }
  }

  /** How many requests a drain delivers before its first error or its budget. */
  function Delivered(k: Sink, budget: nat, answers: nat -> Outcome): (n: nat)
    ensures n <= |k.failover| && n <= budget
    decreases budget
  {
    if budget == 0 || k.failover == [] || answers(k.attempts) != Exported then 0
    else 1 + Delivered(Deliver(Popped(k), k.failover[0]), budget - 1, answers)
  }

  /** What a drain that delivers n requests leaves. */
  ghost predicate Rotated(c: Config, k: Sink, after: Sink, n: nat, budget: nat)
    requires n <= |k.failover|
  {
    && after.exported == k.exported + Concat(k.failover[..n])
    && after.failover ==
       (if n == budget || n == |k.failover| then k.failover[n..] else k.failover[n + 1..] + [k.failover[n]])
    && after.evicted == k.evicted && after.lost == k.lost
    && SinkBounded(c, after)
  }

  lemma PutBackRotates(c: Config, k: Sink, o: Outcome, budget: nat)
    requires SinkBounded(c, k) && k.failover != [] && budget > 0
    ensures Rotated(c, k, PutBack(c, Popped(k), k.failover[0], o), 0, budget)
  {
    var b := c.failover.value;
    var head, rest := k.failover[0], k.failover[1..];
    RepushFits(b, k.failover);
    BytesSnoc(b, rest, head);
    assert Evicted(b, rest, head) == [];
    assert k.evicted + [] == k.evicted;
  }

  lemma NothingRotates(c: Config, k: Sink, budget: nat)
    requires SinkBounded(c, k) && (budget == 0 || k.failover == [])
    ensures Rotated(c, k, k, 0, budget)
  {
    assert k.failover[..0] == [] && k.failover[0..] == k.failover;
  }

  lemma DeliverRotates(c: Config, k: Sink, after: Sink, n: nat, budget: nat)
    requires k.failover != [] && n < |k.failover|
    requires Rotated(c, Deliver(Popped(k), k.failover[0]), after, n, budget)
    ensures Rotated(c, k, after, n + 1, budget + 1)
  {
    ConcatHead(k.failover, n);
    assert k.exported + k.failover[0] + Concat(k.failover[1..][..n]) == k.exported + Concat(k.failover[..n + 1]);
    assert k.failover[n + 1..] == k.failover[1..][n..];
    assert n + 1 < |k.failover| ==> k.failover[n + 2..] == k.failover[1..][n + 1..];
  }

  lemma ConcatHead(entries: seq<seq<Item>>, n: nat)
    requires n < |entries|
    ensures Concat(entries[..n + 1]) == entries[0] + Concat(entries[1..][..n])
  {
    assert entries[..n + 1] == [entries[0]] + entries[1..][..n];
    assert entries[..n + 1][1..] == entries[1..][..n];
  }

  /** A drain from a queue within bounds delivers the oldest requests in order, moves the one
      that failed to the back, and evicts and loses nothing. */
  lemma {:induction false} DrainRotates(c: Config, k: Sink, budget: nat, answers: nat -> Outcome)
    requires SinkBounded(c, k)
    ensures Rotated(c, k, Drain(c, k, budget, answers), Delivered(k, budget, answers), budget)
    decreases budget
  {
    if budget == 0 || k.failover == [] {
      NothingRotates(c, k, budget);
    } else {
      var popped := Popped(k);
      if answers(k.attempts) == Exported {
        var next := Deliver(popped, k.failover[0]);
        DrainRotates(c, next, budget - 1, answers);
        DeliverRotates(c, k, Drain(c, next, budget - 1, answers), Delivered(next, budget - 1, answers), budget - 1);
      } else {
        PutBackRotates(c, k, answers(k.attempts), budget);
      }
    }
  }

  /** Drop-oldest removes the shortest oldest prefix that makes room, or everything. */
  lemma {:induction false} OverflowLeast(c: Config, buffer: seq<Item>, incoming: nat)
    ensures var k := Overflow(c, buffer, incoming);
            && (k == |buffer| || Fits(c, SizeOf(buffer[k..]), incoming))
            && (forall i :: 0 <= i < k ==> !Fits(c, SizeOf(buffer[i..]), incoming))
    decreases |buffer|
  {
    assert buffer[0..] == buffer;
    if buffer != [] && !Fits(c, SizeOf(buffer), incoming) {
      var k := Overflow(c, buffer[1..], incoming);
      OverflowLeast(c, buffer[1..], incoming);
      assert buffer[k + 1..] == buffer[1..][k..];
      forall i | 0 <= i < k + 1 ensures !Fits(c, SizeOf(buffer[i..]), incoming) {
        if i > 0 {
          assert buffer[i..] == buffer[1..][i - 1..];
        }
      }
    }
  }

  /** A batch is accepted, whole and at the end, if and only if there is room for it or the policy
      is to drop the oldest; otherwise nothing changes, and only the blocking policy waits. */
  lemma AddAcceptsIff(c: Config, s: Store, batch: seq<Item>)
    requires batch != []
    ensures var after := Add(c, s, batch);
            var room := c.maxBufferBytes <= 0 || SizeOf(s.buffer) + SizeOf(batch) <= c.maxBufferBytes;
            && (room || c.policy == DropOldest ==>
                  after.accepted == s.accepted + batch && |after.buffer| >= |batch| &&
                  after.buffer[|after.buffer| - |batch|..] == batch)
            && (room ==> after.buffer == s.buffer + batch)
            && (!room && c.policy != DropOldest ==> after == s)
            && (Judge(c, s.buffer, batch) == Waiting <==> !room && c.policy == Block)
            && (Judge(c, s.buffer, batch) == Full <==> !room && (c.policy == DropNewest || c.policy == Unknown))
  {
    if Fits(c, SizeOf(s.buffer), SizeOf(batch)) {
      assert s.buffer[0..] == s.buffer;
    }
  }

  lemma AddBounded(c: Config, s: Store, batch: seq<Item>)
    requires Bounded(c, s)
    ensures Bounded(c, Add(c, s, batch))
  {
    var k := Overflow(c, s.buffer, SizeOf(batch));
    OverflowLeast(c, s.buffer, SizeOf(batch));
    SizeAppend(s.buffer[k..], batch);
    assert k == |s.buffer| ==> s.buffer[k..] + batch == batch;
    if Fits(c, SizeOf(s.buffer), SizeOf(batch)) {
      assert s.buffer[0..] == s.buffer;
    }
  }

  /** In every reachable state both bounds of the failover queue hold, and the buffer is over
      its cap only while it holds nothing but the batch accepted last. */
  lemma {:induction false} RunBounded(c: Config, s: Store, events: seq<Event>, answers: nat -> Outcome)
    requires Sane(c) && Bounded(c, s)
    ensures Bounded(c, Run(c, s, events, answers))
    decreases |events|
  {
    if events != [] {
      match events[0] {
        case AddBatch(batch) =>
          AddBounded(c, s, batch);
        case FlushNow(maxBytes) =>
          ExportAllBounded(c, s.sink, FlushBatches(s.buffer, c.maxBatchSize, maxBytes), answers);
        case DrainTick =>
          DrainRotates(c, s.sink, MAX_DRAIN, answers);
      }
      RunBounded(c, Next(c, s, events[0], answers), events[1..], answers);
    }
  }

  // ---------- attempts ----------

  /** A batch of n resource metrics costs between 1 and 2n - 1 export attempts. */
  lemma {:induction false} AttemptsBounded(c: Config, k: Sink, batch: seq<Item>, answers: nat -> Outcome)
    requires batch != []
    ensures k.attempts < Export(c, k, batch, answers).attempts <= k.attempts + 2 * |batch| - 1
    decreases |batch|
  {
    if answers(k.attempts) == TooLarge && |batch| > 1 {
      var tried, mid := Tried(k, batch, TooLarge), |batch| / 2;
      AttemptsBounded(c, tried, batch[..mid], answers);
      AttemptsBounded(c, Export(c, tried, batch[..mid], answers), batch[mid..], answers);
    }
  }

  /** If every attempt is refused as too large, exactly 2n - 1, and what is stored or lost is
      single resource metrics. */
  lemma {:induction false} AttemptsExact(c: Config, k: Sink, batch: seq<Item>, answers: nat -> Outcome)
    requires batch != [] && forall i :: i >= k.attempts ==> answers(i) == TooLarge
    ensures Export(c, k, batch, answers).attempts == k.attempts + 2 * |batch| - 1
    ensures (forall e :: e in k.failover ==> |e| == 1) ==> forall e :: e in Export(c, k, batch, answers).failover ==>
            |e| == 1
    decreases |batch|
  {
    if |batch| > 1 {
      var tried, mid := Tried(k, batch, TooLarge), |batch| / 2;
      AttemptsExact(c, tried, batch[..mid], answers);
      AttemptsExact(c, Export(c, tried, batch[..mid], answers), batch[mid..], answers);
    }
  }

  /** A refused batch costs one attempt, is never split, and reaches the failover queue whole, or is
      lost whole if there is none or it alone is too large for it. */
  lemma RefusedGoesWhole(c: Config, k: Sink, batch: seq<Item>, answers: nat -> Outcome)
    requires answers(k.attempts) == Refused
    ensures var after := Export(c, k, batch, answers);
            && after.attempts == k.attempts + 1 && after.exported == k.exported && after.queued == k.queued
            && (if c.failover.Some? && c.failover.value.wire(batch) <= c.failover.value.maxBytes
                then after.failover != [] && after.failover[|after.failover| - 1] == batch && after.lost == k.lost
                else after.failover == k.failover && after.lost == k.lost + batch)
  {
  }

  /** A batch that succeeds, or that the exporter queues, costs one attempt and goes there whole. */
  lemma TakenGoesWhole(c: Config, k: Sink, batch: seq<Item>, answers: nat -> Outcome)
    requires answers(k.attempts) == Exported || answers(k.attempts) == Queued
    ensures var after := Export(c, k, batch, answers);
            && after.attempts == k.attempts + 1 && after.failover == k.failover && after.lost == k.lost
            && after.exported == (if answers(k.attempts) == Exported then k.exported + batch else k.exported)
            && after.queued == (if answers(k.attempts) == Queued then k.queued + batch else k.queued)
  {
  }

  // ---------- order ----------

  lemma {:induction false} ExportAllInOrder(c: Config, k: Sink, batches: seq<seq<Item>>, answers: nat -> Outcome)
    requires forall i: nat :: answers(i) == Exported
    ensures var after := ExportAll(c, k, batches, answers);
            after == k.(exported := k.exported + Concat(batches), attempts := k.attempts + |batches|)
    decreases |batches|
  {
    if batches != [] {
      ExportAllInOrder(c, Export(c, k, batches[0], answers), batches[1..], answers);
    }
  }

  /** While the exporter never fails and the policy is not drop-oldest, delivery is in order
      of acceptance: what was exported followed by what is buffered is what was accepted. */
  lemma {:induction false} InOrderDelivery(c: Config, s: Store, events: seq<Event>, answers: nat -> Outcome)
    requires c.maxBatchSize > 0 && c.policy != DropOldest
    requires forall i: nat :: answers(i) == Exported
    requires s.sink.failover == [] && s.sink.exported + s.buffer == s.accepted
    ensures var end := Run(c, s, events, answers);
            && end.sink.exported + end.buffer == end.accepted
            && end.sink.evicted == s.sink.evicted && end.sink.lost == s.sink.lost && end.sink.failover == []
    decreases |events|
  {
    if events != [] {
      match events[0] {
        case AddBatch(batch) =>
          if Fits(c, SizeOf(s.buffer), SizeOf(batch)) {
            assert s.buffer[..0] == [] && s.buffer[0..] == s.buffer;
            assert s.sink.exported + (s.buffer + batch) == s.accepted + batch;
          }
        case FlushNow(maxBytes) =>
          FlushKeepsOrder(s.buffer, c.maxBatchSize, maxBytes);
          ExportAllInOrder(c, s.sink, FlushBatches(s.buffer, c.maxBatchSize, maxBytes), answers);
        case DrainTick =>
      }
      InOrderDelivery(c, Next(c, s, events[0], answers), events[1..], answers);
    }
  }
}
