/** The metrics buffer with its failover queue, one call per step (internal/buffer/buffer.go). */
module BufferSpec {
  import opened Collections
  import opened Splitter
  import opened MemoryQueue

  /** How the exporter answers one request: success, ErrExportQueued, a splittable error, or
      any other error. */
  datatype Outcome = Exported | Queued | TooLarge | Refused

  datatype Policy = DropNewest | DropOldest | Block | Unknown

  /** failover is None when no failover queue is configured. */
  datatype Config = Config(maxBufferBytes: int, policy: Policy, maxBatchSize: nat, failover: Option<Bounds>)

  ghost predicate Sane(c: Config) {
    c.maxBatchSize > 0 && (c.failover.Some? ==> c.failover.value.maxSize > 0)
  }

  /** Everything behind the buffer. duplicated lists what the exporter queued while the drain
      also put it back. */
  datatype Sink = Sink(
    failover: seq<seq<Item>>, exported: seq<Item>, queued: seq<Item>, evicted: seq<Item>,
    lost: seq<Item>, duplicated: seq<Item>, attempts: nat)

  /** latest is the batch accepted last. */
  datatype Store = Store(buffer: seq<Item>, accepted: seq<Item>, latest: seq<Item>, sink: Sink)

  const EMPTY := Store([], [], [], Sink([], [], [], [], [], [], 0))

  // ---------- adding ----------

  predicate Fits(c: Config, held: nat, incoming: nat) {
    c.maxBufferBytes <= 0 || held + incoming <= c.maxBufferBytes
  }

  /** How many of the oldest resource metrics drop-oldest removes. */
  function Overflow(c: Config, buffer: seq<Item>, incoming: nat): (k: nat)
    ensures k <= |buffer|
  {
    if buffer == [] || Fits(c, SizeOf(buffer), incoming) then 0 else 1 + Overflow(c, buffer[1..], incoming)
  }

  datatype Verdict = Accepted | Full | Waiting

  function Judge(c: Config, buffer: seq<Item>, batch: seq<Item>): Verdict {
    if Fits(c, SizeOf(buffer), SizeOf(batch)) || c.policy == DropOldest then Accepted
    else if c.policy == Block then Waiting
    else Full
  }

  /** A call that waits changes nothing; it is taken again when there is room. */
  function Add(c: Config, s: Store, batch: seq<Item>): Store {
    if batch == [] || Judge(c, s.buffer, batch) != Accepted then s
    else
      var k := Overflow(c, s.buffer, SizeOf(batch));
      Store(s.buffer[k..] + batch, s.accepted + batch, batch,
            s.sink.(evicted := s.sink.evicted + s.buffer[..k]))
  }

  // ---------- exporting ----------

  /** An exhausted batch goes to the failover queue, or is lost. */
  function Fallback(c: Config, k: Sink, batch: seq<Item>): Sink {
    if c.failover.None? || !Storable(c.failover.value, batch) then k.(lost := k.lost + batch)
    else
      k.(failover := AfterPush(c.failover.value, k.failover, batch),
         evicted := k.evicted + Concat(Evicted(c.failover.value, k.failover, batch)))
  }

  function Deliver(k: Sink, batch: seq<Item>): Sink {
    k.(exported := k.exported + batch)
  }

  /** One attempt: the exporter may take the batch, or queue it. */
  function Tried(k: Sink, batch: seq<Item>, outcome: Outcome): Sink {
    k.(attempts := k.attempts + 1,
       exported := if outcome == Exported then k.exported + batch else k.exported,
       queued := if outcome == Queued then k.queued + batch else k.queued)
  }

  function Export(c: Config, k: Sink, batch: seq<Item>, answers: nat -> Outcome): Sink
    decreases |batch|
  {
    var outcome := answers(k.attempts);
    var tried := Tried(k, batch, outcome);
    if outcome == Exported || outcome == Queued then tried
    else if outcome == TooLarge && |batch| > 1 then
      var mid := |batch| / 2;
      Export(c, Export(c, tried, batch[..mid], answers), batch[mid..], answers)
    else Fallback(c, tried, batch)
  }

  function ExportAll(c: Config, k: Sink, batches: seq<seq<Item>>, answers: nat -> Outcome): Sink
    decreases |batches|
  {
    if batches == [] then k else ExportAll(c, Export(c, k, batches[0], answers), batches[1..], answers)
  }

  /** maxBytes is the byte limit in force when the flush starts: static or tuned. */
  function Flush(c: Config, s: Store, maxBytes: int, answers: nat -> Outcome): Store
    requires c.maxBatchSize > 0
  {
    s.(buffer := [], sink := ExportAll(c, s.sink, FlushBatches(s.buffer, c.maxBatchSize, maxBytes), answers))
  }

  const MAX_DRAIN := 10

  /** Any error, ErrExportQueued included, puts the request back and ends the drain. */
  function PutBack(c: Config, k: Sink, req: seq<Item>, o: Outcome): Sink {
    var marked := if o == Queued then k.(queued := k.queued + req, duplicated := k.duplicated + req) else k;
    Fallback(c, marked, req)
  }

  /** The head has been taken and sent. */
  function Popped(k: Sink): Sink
    requires k.failover != []
  {
    k.(failover := k.failover[1..], attempts := k.attempts + 1)
  }

  function Drain(c: Config, k: Sink, budget: nat, answers: nat -> Outcome): Sink
    decreases budget
  {
    if budget == 0 || k.failover == [] then k
    else
      if answers(k.attempts) == Exported then Drain(c, Deliver(Popped(k), k.failover[0]), budget - 1, answers)
      else PutBack(c, Popped(k), k.failover[0], answers(k.attempts))
  }

  // ---------- runs ----------

  datatype Event = AddBatch(batch: seq<Item>) | FlushNow(maxBytes: int) | DrainTick

  function Next(c: Config, s: Store, e: Event, answers: nat -> Outcome): Store
    requires c.maxBatchSize > 0
  {
    match e
    case AddBatch(batch) => Add(c, s, batch)
    case FlushNow(maxBytes) => Flush(c, s, maxBytes, answers)
    case DrainTick => s.(sink := Drain(c, s.sink, MAX_DRAIN, answers))
  }

  function Run(c: Config, s: Store, events: seq<Event>, answers: nat -> Outcome): Store
    requires c.maxBatchSize > 0
    decreases |events|
  {
    if events == [] then s else Run(c, Next(c, s, events[0], answers), events[1..], answers)
  }
}
