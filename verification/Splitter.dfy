/** Splitting a batch by count and bytes (internal/buffer/splitter.go, internal/buffer/buffer.go). */
module Splitter {
  import opened Collections

  /** A resource metric: an identity and its encoded size, fixed per message. */
  datatype Item = Item(id: nat, size: nat)

  const MAX_DEPTH := 4

  function Sizes(batch: seq<Item>): seq<nat> {
    seq(|batch|, i requires 0 <= i < |batch| => batch[i].size)
  }

  function SizeOf(batch: seq<Item>): nat {
    Sum(Sizes(batch))
  }

  lemma SizeAppend(a: seq<Item>, b: seq<Item>)
    ensures SizeOf(a + b) == SizeOf(a) + SizeOf(b)
  {
    assert Sizes(a + b) == Sizes(a) + Sizes(b);
    SumAppend(Sizes(a), Sizes(b));
  }

  /** Binary splitting that measures each sub-batch afresh. */
  function Pieces(batch: seq<Item>, maxBytes: int, depth: nat): seq<seq<Item>>
    decreases |batch|
  {
    if |batch| <= 1 || SizeOf(batch) <= maxBytes || depth >= MAX_DEPTH then [batch]
    else
      var mid := |batch| / 2;
      Pieces(batch[..mid], maxBytes, depth + 1) + Pieces(batch[mid..], maxBytes, depth + 1)
  }

  function SplitBytes(batch: seq<Item>, maxBytes: int): seq<seq<Item>> {
    if maxBytes <= 0 then [batch] else Pieces(batch, maxBytes, 0)
  }

  // ---------- the source's splitters ----------

  method TotalOf(sizes: seq<nat>) returns (total: nat)
    ensures total == Sum(sizes)
  {
    total := 0;
    for i := 0 to |sizes|
      invariant total == Sum(sizes[..i])
    {
      assert sizes[..i + 1] == sizes[..i] + [sizes[i]];
      SumSnoc(sizes[..i], sizes[i]);
      total := total + sizes[i];
    }
    assert sizes[..|sizes|] == sizes;
  }

  method Measure(batch: seq<Item>) returns (sizes: seq<nat>, total: nat)
    ensures sizes == Sizes(batch) && total == SizeOf(batch)
  {
    sizes, total := [], 0;
    for i := 0 to |batch|
      invariant sizes == Sizes(batch[..i]) && total == Sum(sizes)
    {
      assert Sizes(batch[..i + 1]) == Sizes(batch[..i]) + [batch[i].size];
      SumSnoc(sizes, batch[i].size);
      sizes := sizes + [batch[i].size];
      total := total + batch[i].size;
    }
    assert batch[..|batch|] == batch;
  }

  /** Slicing sizes computed once gives the same pieces as measuring every sub-batch. */
  method SplitWithCachedSizes(batch: seq<Item>, sizes: seq<nat>, maxBytes: int, depth: nat) returns (r: seq<seq<Item>>)
    requires sizes == Sizes(batch)
    ensures r == Pieces(batch, maxBytes, depth)
    decreases |batch|
  {
    if |batch| <= 1 {
      return [batch];
    }
    var total := TotalOf(sizes);
    if total <= maxBytes {
      return [batch];
    }
    if depth >= MAX_DEPTH {
      return [batch];
    }
    var mid := |batch| / 2;
    assert sizes[..mid] == Sizes(batch[..mid]) && sizes[mid..] == Sizes(batch[mid..]);
    var left := SplitWithCachedSizes(batch[..mid], sizes[..mid], maxBytes, depth + 1);
    var right := SplitWithCachedSizes(batch[mid..], sizes[mid..], maxBytes, depth + 1);
    return left + right;
  }

  method SplitByBytes(batch: seq<Item>, maxBytes: int) returns (r: seq<seq<Item>>)
    ensures r == SplitBytes(batch, maxBytes)
  {
    if maxBytes <= 0 || |batch| <= 1 {
      return [batch];
    }
    var sizes, total := Measure(batch);
    if total <= maxBytes {
      return [batch];
    }
    r := SplitWithCachedSizes(batch, sizes, maxBytes, 0);
  }

  /** The older entry point; at depth 0 it agrees with SplitByBytes. */
  method SplitByBytesWithDepth(batch: seq<Item>, maxBytes: int, depth: nat) returns (r: seq<seq<Item>>)
    ensures r == if maxBytes <= 0 then [batch] else Pieces(batch, maxBytes, depth)
    ensures depth == 0 ==> r == SplitBytes(batch, maxBytes)
  {
    if maxBytes <= 0 || |batch| <= 1 {
      return [batch];
    }
    var sizes, _ := Measure(batch);
    r := SplitWithCachedSizes(batch, sizes, maxBytes, depth);
  }

  // ---------- properties of the pieces ----------

  /** 2^(4 - depth): how many pieces a batch can still fall into. */
  function Fan(depth: nat): nat {
    if depth == 0 then 16 else if depth == 1 then 8 else if depth == 2 then 4 else if depth == 3 then 2 else 1
  }

  lemma {:induction false} PiecesConcat(batch: seq<Item>, maxBytes: int, depth: nat)
    ensures Concat(Pieces(batch, maxBytes, depth)) == batch
    decreases |batch|
  {
    if |batch| <= 1 || SizeOf(batch) <= maxBytes || depth >= MAX_DEPTH {
      assert Concat([batch]) == batch;
    } else {
      var mid := |batch| / 2;
      PiecesConcat(batch[..mid], maxBytes, depth + 1);
      PiecesConcat(batch[mid..], maxBytes, depth + 1);
      ConcatAppend(Pieces(batch[..mid], maxBytes, depth + 1), Pieces(batch[mid..], maxBytes, depth + 1));
      assert batch == batch[..mid] + batch[mid..];
    }
  }

  lemma {:induction false} PiecesCount(batch: seq<Item>, maxBytes: int, depth: nat)
    ensures 1 <= |Pieces(batch, maxBytes, depth)| <= Fan(depth)
    decreases |batch|
  {
    if |batch| > 1 && SizeOf(batch) > maxBytes && depth < MAX_DEPTH {
      var mid := |batch| / 2;
      PiecesCount(batch[..mid], maxBytes, depth + 1);
      PiecesCount(batch[mid..], maxBytes, depth + 1);
    }
  }

  /** At most ceil(n / fan) items, or small enough, and not empty unless n is 0. */
  predicate FairPiece(p: seq<Item>, maxBytes: int, fan: nat, n: nat) {
    && (n > 0 ==> p != [])
    && (SizeOf(p) > maxBytes && p != [] ==> (|p| - 1) * fan < n)
  }

  lemma FairHalf(p: seq<Item>, maxBytes: int, fan: nat, half: nat, n: nat)
    requires FairPiece(p, maxBytes, fan, half) && 0 < half <= (n + 1) / 2
    ensures FairPiece(p, maxBytes, 2 * fan, n)
  {
    assert (|p| - 1) * (2 * fan) == 2 * ((|p| - 1) * fan);
  }

  lemma {:induction false} PiecesFair(batch: seq<Item>, maxBytes: int, depth: nat, i: nat)
    requires i < |Pieces(batch, maxBytes, depth)|
    ensures FairPiece(Pieces(batch, maxBytes, depth)[i], maxBytes, Fan(depth), |batch|)
    decreases |batch|
  {
    if |batch| > 1 && SizeOf(batch) > maxBytes && depth < MAX_DEPTH {
      var mid := |batch| / 2;
      var left, right := Pieces(batch[..mid], maxBytes, depth + 1), Pieces(batch[mid..], maxBytes, depth + 1);
      assert Fan(depth) == 2 * Fan(depth + 1);
      if i < |left| {
        PiecesFair(batch[..mid], maxBytes, depth + 1, i);
        FairHalf(left[i], maxBytes, Fan(depth + 1), mid, |batch|);
      } else {
        PiecesFair(batch[mid..], maxBytes, depth + 1, i - |left|);
        FairHalf(right[i - |left|], maxBytes, Fan(depth + 1), |batch| - mid, |batch|);
      }
    }
  }

  function CeilDiv(n: nat, d: nat): nat
    requires d > 0
  {
    (n + d - 1) / d
  }

  /** A whole batch: at most 16 pieces in order, and any piece over the byte limit has at
      most a sixteenth of the items, rounded up. */
  lemma SplitBytesSound(batch: seq<Item>, maxBytes: int)
    requires maxBytes > 0
    ensures Concat(SplitBytes(batch, maxBytes)) == batch
    ensures |SplitBytes(batch, maxBytes)| <= 16
    ensures forall p :: p in SplitBytes(batch, maxBytes) && SizeOf(p) > maxBytes ==> |p| <= CeilDiv(|batch|, 16)
  {
    PiecesConcat(batch, maxBytes, 0);
    PiecesCount(batch, maxBytes, 0);
    forall p | p in SplitBytes(batch, maxBytes) && SizeOf(p) > maxBytes ensures |p| <= CeilDiv(|batch|, 16) {
      var i :| 0 <= i < |Pieces(batch, maxBytes, 0)| && Pieces(batch, maxBytes, 0)[i] == p;
      PiecesFair(batch, maxBytes, 0, i);
      assert p != [] ==> (|p| - 1) * 16 < |batch|;
    }
  }

  /** A batch within the limit, or without one, is not cut; and of the two halves of a batch that
      is cut, neither is empty. */
  lemma FittingIsWhole(batch: seq<Item>, maxBytes: int)
    ensures maxBytes <= 0 || SizeOf(batch) <= maxBytes || |batch| <= 1 ==> SplitBytes(batch, maxBytes) == [batch]
    ensures |SplitBytes(batch, maxBytes)| > 1 <==> 0 < maxBytes < SizeOf(batch) && |batch| > 1
  {
    if 0 < maxBytes < SizeOf(batch) && |batch| > 1 {
      var mid := |batch| / 2;
      PiecesCount(batch[..mid], maxBytes, 1);
      PiecesCount(batch[mid..], maxBytes, 1);
    }
  }

  // ---------- a flush ----------

  /** Cut by count, then each count batch by bytes. */
  function FlushBatches(taken: seq<Item>, maxBatch: nat, maxBytes: int): seq<seq<Item>>
    requires maxBatch > 0
    decreases |taken|
  {
    if taken == [] then []
    else
      var k := if maxBatch <= |taken| then maxBatch else |taken|;
      SplitBytes(taken[..k], maxBytes) + FlushBatches(taken[k..], maxBatch, maxBytes)
  }

  lemma SplitConcat(batch: seq<Item>, maxBytes: int)
    ensures Concat(SplitBytes(batch, maxBytes)) == batch
  {
    PiecesConcat(batch, maxBytes, 0);
    assert Concat([batch]) == batch;
  }

  /** The batches of a flush concatenate back to the taken buffer in order. */
  lemma {:induction false} FlushKeepsOrder(taken: seq<Item>, maxBatch: nat, maxBytes: int)
    requires maxBatch > 0
    ensures Concat(FlushBatches(taken, maxBatch, maxBytes)) == taken
    decreases |taken|
  {
    if taken != [] {
      var k := if maxBatch <= |taken| then maxBatch else |taken|;
      FlushKeepsOrder(taken[k..], maxBatch, maxBytes);
      SplitConcat(taken[..k], maxBytes);
      ConcatAppend(SplitBytes(taken[..k], maxBytes), FlushBatches(taken[k..], maxBatch, maxBytes));
      assert taken == taken[..k] + taken[k..];
    }
  }

  predicate NonEmpty(batches: seq<seq<Item>>) {
    forall i :: 0 <= i < |batches| ==> batches[i] != []
  }

  /** No batch of a flush is empty. */
  lemma {:induction false} FlushNonEmpty(taken: seq<Item>, maxBatch: nat, maxBytes: int)
    requires maxBatch > 0
    ensures NonEmpty(FlushBatches(taken, maxBatch, maxBytes))
    decreases |taken|
  {
    if taken != [] {
      var k := if maxBatch <= |taken| then maxBatch else |taken|;
      FlushNonEmpty(taken[k..], maxBatch, maxBytes);
      var cut := SplitBytes(taken[..k], maxBytes);
      forall i | 0 <= i < |cut| ensures cut[i] != [] {
        if maxBytes > 0 {
          PiecesFair(taken[..k], maxBytes, 0, i);
        }
      }
    }
  }

  lemma FlushStep(taken: seq<Item>, i: nat, end: nat, maxBatch: nat, maxBytes: int)
    requires maxBatch > 0 && i < |taken| && end == Min(i + maxBatch, |taken|)
    ensures FlushBatches(taken[i..], maxBatch, maxBytes) ==
            SplitBytes(taken[i..end], maxBytes) + FlushBatches(taken[end..], maxBatch, maxBytes)
  {
    assert taken[i..][..end - i] == taken[i..end];
    assert taken[i..][end - i..] == taken[end..];
  }

  lemma FlushOfNothing(maxBatch: nat, maxBytes: int)
    requires maxBatch > 0
    ensures FlushBatches([], maxBatch, maxBytes) == []
  {
  }

  /** The cutting loop of flush. */
  method CutBatches(taken: seq<Item>, maxBatch: nat, maxBytes: int) returns (all: seq<seq<Item>>)
    requires maxBatch > 0
    ensures all == FlushBatches(taken, maxBatch, maxBytes)
  {
    all := [];
    var i := 0;
    assert taken[0..] == taken;
    ghost var rest := FlushBatches(taken, maxBatch, maxBytes);
    while i < |taken|
      invariant 0 <= i <= |taken|
      invariant rest == FlushBatches(taken[i..], maxBatch, maxBytes)
      invariant FlushBatches(taken, maxBatch, maxBytes) == all + rest
    {
      var end := i + maxBatch;
      if end > |taken| {
        end := |taken|;
      }
      var cut := SplitByBytes(taken[i..end], maxBytes);
      FlushStep(taken, i, end, maxBatch, maxBytes);
      ghost var after := FlushBatches(taken[end..], maxBatch, maxBytes);
      assert all + (cut + after) == all + cut + after;
      all, rest, i := all + cut, after, end;
    }
    assert taken[i..] == [];
    FlushOfNothing(maxBatch, maxBytes);
  }
}
