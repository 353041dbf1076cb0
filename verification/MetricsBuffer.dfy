/** The buffer as the source runs it: parallel slices, a byte counter and a failover queue
    object (internal/buffer/buffer.go). */
module MetricsBuffer {
  import opened Collections
  import opened Splitter
  import opened MemoryQueue
  import opened BufferSpec

  lemma SizesTail(items: seq<Item>)
    requires items != []
    ensures Sizes(items[1..]) == Sizes(items)[1..]
    ensures SizeOf(items) == items[0].size + SizeOf(items[1..])
  {
    assert Sizes(items[1..]) == Sizes(items)[1..];
    assert Sizes(items)[0] == items[0].size;
  }

  class Buffer {
    var metrics: seq<Item>
    var metricSizes: seq<nat>
    var currentBytes: int
    const config: Config
    const failover: Queue?

    // The exporter: its answer to the n-th attempt, and what it took.
    const answers: nat -> Outcome
    var attempts: nat
    var exported: seq<Item>
    var queued: seq<Item>

    // What the source only counts or logs.
    ghost var accepted: seq<Item>
    ghost var latest: seq<Item>
    ghost var evicted: seq<Item>
    ghost var lost: seq<Item>
    ghost var duplicated: seq<Item>

    /** The counter and the cached sizes are exact; the queue object matches the configuration. */
    ghost predicate Valid() reads this, failover {
      && config.maxBatchSize > 0
      && metricSizes == Sizes(metrics) && currentBytes == SizeOf(metrics)
      && (failover == null <==> config.failover.None?)
      && (failover != null ==> failover.Valid() && config.failover == Some(failover.bounds))
    }

    ghost function SinkView(): Sink reads this, failover {
      Sink(if failover == null then [] else failover.entries, exported, queued, evicted, lost, duplicated, attempts)
    }

    ghost function View(): Store reads this, failover {
      Store(metrics, accepted, latest, SinkView())
    }

    constructor (config: Config, failover: Queue?, answers: nat -> Outcome)
      requires config.maxBatchSize > 0
      requires failover == null <==> config.failover.None?
      requires failover != null ==>
                 failover.Valid() && failover.entries == [] && config.failover == Some(failover.bounds)
      ensures Valid() && View() == EMPTY
      ensures this.config == config && this.failover == failover && this.answers == answers
    {
      this.config, this.failover, this.answers := config, failover, answers;
      metrics, metricSizes, currentBytes := [], [], 0;
      attempts, exported, queued := 0, [], [];
      accepted, latest, evicted, lost, duplicated := [], [], [], [], [];
    }

    /** Make room by dropping the oldest; what must go is computed once. */
    method EvictOldest(incoming: nat)
      requires Valid() && config.maxBufferBytes > 0
      modifies this`metrics, this`metricSizes, this`currentBytes, this`evicted
      ensures Valid()
      ensures metrics == old(metrics)[Overflow(config, old(metrics), incoming)..]
      ensures evicted == old(evicted) + old(metrics)[..Overflow(config, old(metrics), incoming)]
    {
      var needed := currentBytes + incoming - config.maxBufferBytes;
      var freed := 0;
      ghost var was := metrics;
      ghost var gone := 0;
      assert was[0..] == was;
      while freed < needed && |metrics| > 0
        invariant gone <= |was| && metrics == was[gone..] && metricSizes == Sizes(metrics)
        invariant SizeOf(metrics) + freed == currentBytes
        invariant Overflow(config, was, incoming) == gone + Overflow(config, metrics, incoming)
        invariant needed == currentBytes + incoming - config.maxBufferBytes
        invariant currentBytes == old(currentBytes) && evicted == old(evicted)
        decreases |metrics|
      {
        SizesTail(metrics);
        var size := metricSizes[0];
        metrics := metrics[1..];
        metricSizes := metricSizes[1..];
        freed := freed + size;
        gone := gone + 1;
      }
      currentBytes := currentBytes - freed;
      evicted := evicted + was[..gone];
    }

    method EnforceCapacity(incoming: nat) returns (verdict: Verdict)
      requires Valid() && config.maxBufferBytes > 0
      modifies this`metrics, this`metricSizes, this`currentBytes, this`evicted
      ensures Valid()
      ensures verdict == if Fits(config, SizeOf(old(metrics)), incoming) || config.policy == DropOldest then Accepted
                         else if config.policy == Block then Waiting else Full
      ensures var k := if verdict == Accepted then Overflow(config, old(metrics), incoming) else 0;
              metrics == old(metrics)[k..] && evicted == old(evicted) + old(metrics)[..k]
    {
      if currentBytes + incoming <= config.maxBufferBytes {
        return Accepted;
      }
      match config.policy
      case DropNewest => return Full;
      case DropOldest =>
        EvictOldest(incoming);
        return Accepted;
      case Block => return Waiting;
      case Unknown => return Full;
    }

    method AddBatch(batch: seq<Item>) returns (verdict: Verdict)
      requires Valid()
      modifies this
      ensures Valid()
      ensures verdict == if batch == [] then Accepted else Judge(config, old(metrics), batch)
      ensures View() == Add(config, old(View()), batch)
    {
      if |batch| == 0 {
        return Accepted;
      }
      var sizes, incoming := Measure(batch);
      verdict := Accepted;
      if config.maxBufferBytes > 0 {
        verdict := EnforceCapacity(incoming);
        if verdict != Accepted {
          return;
        }
      }
      Append(batch, sizes, incoming);
    }

    method Append(batch: seq<Item>, sizes: seq<nat>, incoming: nat)
      requires Valid() && sizes == Sizes(batch) && incoming == SizeOf(batch)
      modifies this`metrics, this`metricSizes, this`currentBytes, this`accepted, this`latest
      ensures Valid()
      ensures metrics == old(metrics) + batch && accepted == old(accepted) + batch && latest == batch
    {
      SizeAppend(metrics, batch);
      assert Sizes(metrics + batch) == metricSizes + sizes;
      metrics := metrics + batch;
      metricSizes := metricSizes + sizes;
      currentBytes := currentBytes + incoming;
      accepted, latest := accepted + batch, batch;
    }

    /** One request to the exporter. */
    method Send(batch: seq<Item>) returns (outcome: Outcome)
      modifies this`attempts, this`exported, this`queued
      ensures outcome == answers(old(attempts))
      ensures SinkView() == Tried(old(SinkView()), batch, outcome)
    {
      outcome := answers(attempts);
      attempts := attempts + 1;
      if outcome == Exported {
        exported := exported + batch;
      } else if outcome == Queued {
        queued := queued + batch;
      }
    }

    method PushFailover(batch: seq<Item>)
      requires Valid()
      modifies this`lost, this`evicted, failover
      ensures Valid()
      ensures SinkView() == Fallback(config, old(SinkView()), batch)
    {
      if failover != null {
        ghost var gone := Evicted(failover.bounds, failover.entries, batch);
        var ok := failover.Push(batch);
        if ok {
          evicted := evicted + Concat(gone);
        } else {
          lost := lost + batch;
        }
      } else {
        lost := lost + batch;
      }
    }

    method ExportBatch(batch: seq<Item>)
      requires Valid()
      modifies this`attempts, this`exported, this`queued, this`lost, this`evicted, failover
      ensures Valid()
      ensures SinkView() == Export(config, old(SinkView()), batch, answers)
      decreases |batch|, 1
    {
      var outcome := Send(batch);
      if outcome == Exported || outcome == Queued {
        return;
      }
      if outcome == TooLarge && |batch| > 1 {
        ExportHalves(batch);
        return;
      }
      PushFailover(batch);
    }

    method ExportHalves(batch: seq<Item>)
      requires Valid() && |batch| > 1
      modifies this`attempts, this`exported, this`queued, this`lost, this`evicted, failover
      ensures Valid()
      ensures var mid := |batch| / 2;
              SinkView() == Export(config, Export(config, old(SinkView()), batch[..mid], answers), batch[mid..],
                  answers)
      decreases |batch|, 0
    {
      var mid := |batch| / 2;
      ExportBatch(batch[..mid]);
      ExportBatch(batch[mid..]);
    }

    method FlushBuffer(maxBytes: int)
      requires Valid()
      modifies this, failover
      ensures Valid()
      ensures View() == Flush(config, old(View()), maxBytes, answers)
    {
      if |metrics| == 0 {
        return;
      }
      var taken := metrics;
      metrics, metricSizes, currentBytes := [], [], 0;
      var batches := CutBatches(taken, config.maxBatchSize, maxBytes);
      ExportBatches(batches);
    }

    method ExportBatches(batches: seq<seq<Item>>)
      requires Valid()
      modifies this`attempts, this`exported, this`queued, this`lost, this`evicted, failover
      ensures Valid()
      ensures SinkView() == ExportAll(config, old(SinkView()), batches, answers)
    {
      ghost var start := SinkView();
      assert batches[0..] == batches;
      for i := 0 to |batches|
        invariant Valid()
        invariant ExportAll(config, start, batches, answers) == ExportAll(config, SinkView(), batches[i..], answers)
      {
        assert batches[i..][1..] == batches[i + 1..];
        ExportBatch(batches[i]);
      }
    }

    /** One round of the drain; more tells whether it goes on. */
    method DrainOne() returns (more: bool)
      requires Valid() && failover != null
      modifies this`attempts, this`exported, this`queued, this`duplicated, this`lost, this`evicted, failover
      ensures Valid()
      ensures var k := old(SinkView());
              if k.failover == [] then !more && SinkView() == k
              else
                && more == (answers(k.attempts) == Exported)
                && SinkView() == if more then Deliver(Popped(k), k.failover[0])
                                 else PutBack(config, Popped(k), k.failover[0], answers(k.attempts))
    {
      var head := failover.Pop();
      if head.None? {
        return false;
      }
      var outcome := Send(head.value);
      if outcome == Exported {
        return true;
      }
      if outcome == Queued {
        duplicated := duplicated + head.value;
      }
      PushFailover(head.value);
      return false;
    }

    method DrainFailoverQueue()
      requires Valid()
      modifies this`attempts, this`exported, this`queued, this`duplicated, this`lost, this`evicted, failover
      ensures Valid()
      ensures SinkView() == Drain(config, old(SinkView()), MAX_DRAIN, answers)
    {
      if failover == null || |failover.entries| == 0 {
        return;
      }
      ghost var start := SinkView();
      for i := 0 to MAX_DRAIN
        invariant Valid()
        invariant Drain(config, start, MAX_DRAIN, answers) == Drain(config, SinkView(), MAX_DRAIN - i, answers)
      {
        var more := DrainOne();
        if !more {
          return;
        }
      }
    }
  }
}
