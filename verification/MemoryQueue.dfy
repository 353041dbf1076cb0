/** The bounded failover queue (internal/buffer/memqueue.go). */
module MemoryQueue {
  import opened Collections
  import opened Splitter

  /** A request is the list of resource metrics it carries. wire gives its encoded size,
      which is any function of the message. */
  datatype Bounds = Bounds(maxSize: nat, maxBytes: nat, wire: seq<Item> -> nat)

  function BytesOf(b: Bounds, entries: seq<seq<Item>>): nat {
    if entries == [] then 0 else b.wire(entries[0]) + BytesOf(b, entries[1..])
  }

  lemma {:induction false} BytesSnoc(b: Bounds, entries: seq<seq<Item>>, req: seq<Item>)
    ensures BytesOf(b, entries + [req]) == BytesOf(b, entries) + b.wire(req)
  {
    if entries == [] {
      assert entries + [req] == [req];
    } else {
      assert (entries + [req])[1..] == entries[1..] + [req];
      BytesSnoc(b, entries[1..], req);
    }
  }

  predicate Within(b: Bounds, entries: seq<seq<Item>>) {
    |entries| <= b.maxSize && BytesOf(b, entries) <= b.maxBytes
  }

  /** There is room for a request of this size behind the entries. */
  predicate HasRoom(b: Bounds, entries: seq<seq<Item>>, size: nat) {
    |entries| < b.maxSize && BytesOf(b, entries) + size <= b.maxBytes
  }

  /** How many of the oldest entries must go. */
  function Evictions(b: Bounds, entries: seq<seq<Item>>, size: nat): (k: nat)
    ensures k <= |entries|
    decreases |entries|
  {
    if entries == [] || HasRoom(b, entries, size) then 0 else 1 + Evictions(b, entries[1..], size)
  }

  /** Evictions removes the shortest oldest prefix that makes room. */
  lemma {:induction false} EvictionsLeast(b: Bounds, entries: seq<seq<Item>>, size: nat)
    requires 0 < b.maxSize && size <= b.maxBytes
    ensures HasRoom(b, entries[Evictions(b, entries, size)..], size)
    ensures forall k :: 0 <= k < Evictions(b, entries, size) ==> !HasRoom(b, entries[k..], size)
    decreases |entries|
  {
    if entries != [] && !HasRoom(b, entries, size) {
      var n := Evictions(b, entries[1..], size);
      EvictionsLeast(b, entries[1..], size);
      assert entries[n + 1..] == entries[1..][n..];
      forall k | 0 <= k < n + 1 ensures !HasRoom(b, entries[k..], size) {
        if k == 0 {
          assert entries[0..] == entries;
        } else {
          assert entries[k..] == entries[1..][k - 1..];
        }
      }
    }
  }

  lemma {:induction false} BytesSuffix(b: Bounds, entries: seq<seq<Item>>, k: nat)
    requires k <= |entries|
    ensures BytesOf(b, entries[k..]) <= BytesOf(b, entries)
  {
    if k > 0 {
      assert entries[k..] == entries[1..][k - 1..];
      BytesSuffix(b, entries[1..], k - 1);
    } else {
      assert entries[0..] == entries;
    }
  }

  /** A pushed request is stored unless it alone exceeds the byte bound. */
  predicate Storable(b: Bounds, req: seq<Item>) {
    b.wire(req) <= b.maxBytes
  }

  function AfterPush(b: Bounds, entries: seq<seq<Item>>, req: seq<Item>): seq<seq<Item>> {
    if !Storable(b, req) then entries else entries[Evictions(b, entries, b.wire(req))..] + [req]
  }

  function Evicted(b: Bounds, entries: seq<seq<Item>>, req: seq<Item>): seq<seq<Item>> {
    if !Storable(b, req) then [] else entries[..Evictions(b, entries, b.wire(req))]
  }

  /** A push keeps both bounds. */
  lemma PushKeepsWithin(b: Bounds, entries: seq<seq<Item>>, req: seq<Item>)
    requires 0 < b.maxSize && Within(b, entries)
    ensures Within(b, AfterPush(b, entries, req))
  {
    if Storable(b, req) {
      var kept := entries[Evictions(b, entries, b.wire(req))..];
      EvictionsLeast(b, entries, b.wire(req));
      BytesSnoc(b, kept, req);
    }
  }

  /** Pushing back what was just popped never evicts and never fails. */
  lemma RepushFits(b: Bounds, entries: seq<seq<Item>>)
    requires Within(b, entries) && entries != []
    ensures Storable(b, entries[0])
    ensures Evictions(b, entries[1..], b.wire(entries[0])) == 0
    ensures AfterPush(b, entries[1..], entries[0]) == entries[1..] + [entries[0]]
  {
    assert HasRoom(b, entries[1..], b.wire(entries[0]));
  }

  class Queue {
    var entries: seq<seq<Item>>
    var bytes: int
    const bounds: Bounds

    /** The byte counter is exact and both bounds hold, so the counter is never negative. */
    ghost predicate Valid() reads this {
      0 < bounds.maxSize && bytes == BytesOf(bounds, entries) && Within(bounds, entries)
    }

    constructor (maxSize: int, maxBytes: int, wire: seq<Item> -> nat)
      ensures Valid() && entries == []
      ensures bounds == Bounds(if maxSize <= 0 then 1000 else maxSize,
                               if maxBytes <= 0 then 268435456 else maxBytes, wire)
    {
      entries, bytes := [], 0;
      bounds := Bounds(if maxSize <= 0 then 1000 else maxSize, if maxBytes <= 0 then 268435456 else maxBytes, wire);
    }

    /** Drop the head, with the source's clamp at zero, which never applies. */
    method EvictOldest()
      requires entries != [] && bytes == BytesOf(bounds, entries)
      modifies this
      ensures entries == old(entries)[1..] && bytes == BytesOf(bounds, entries)
      ensures bytes == old(bytes) - bounds.wire(old(entries)[0])
    {
      var head := entries[0];
      entries := entries[1..];
      bytes := Max(0, bytes - bounds.wire(head));
    }

    method Push(req: seq<Item>) returns (ok: bool)
      requires Valid()
      modifies this
      ensures Valid()
      ensures ok == Storable(bounds, req)
      ensures entries == AfterPush(bounds, old(entries), req)
    {
      var size := bounds.wire(req);
      if size > bounds.maxBytes {
        return false;
      }
      ghost var was := entries;
      ghost var gone := 0;
      PushKeepsWithin(bounds, entries, req);
      assert was[0..] == was;
      while |entries| >= bounds.maxSize
        invariant gone <= |was| && entries == was[gone..] && bytes == BytesOf(bounds, entries)
        invariant Evictions(bounds, was, size) == gone + Evictions(bounds, entries, size)
      {
        EvictOldest();
        gone := gone + 1;
      }
      while bytes + size > bounds.maxBytes && |entries| > 0
        invariant gone <= |was| && entries == was[gone..] && bytes == BytesOf(bounds, entries)
        invariant |entries| < bounds.maxSize
        invariant Evictions(bounds, was, size) == gone + Evictions(bounds, entries, size)
      {
        EvictOldest();
        gone := gone + 1;
      }
      BytesSnoc(bounds, entries, req);
      entries := entries + [req];
      bytes := bytes + size;
      return true;
    }

    method Pop() returns (head: Option<seq<Item>>)
      requires Valid()
      modifies this
      ensures Valid()
      ensures head == if old(entries) == [] then None else Some(old(entries)[0])
      ensures entries == if old(entries) == [] then [] else old(entries)[1..]
    {
      if |entries| == 0 {
        return None;
      }
      var req := entries[0];
      EvictOldest();
      return Some(req);
    }
  }
}
