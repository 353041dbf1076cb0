/** Cardinality trackers (internal/cardinality): the exact set and the Bloom filter. */
module Trackers {
  import opened Collections

  /** A Bloom filter is a bit set together with the positions each key hashes to;
      any hash function is allowed, so false positives are arbitrary. */
  datatype Tracker =
    | Exact(items: set<string>)
    | Bloom(bits: set<nat>, count: nat, positions: string -> set<nat>)
  {
    /** TestOnly */
    predicate Has(key: string) {
      match this
      case Exact(items) => key in items
      case Bloom(bits, _, positions) => positions(key) <= bits
    }

    function Count(): nat {
      match this
      case Exact(items) => |items|
      case Bloom(_, count, _) => count
    }

    /** The state after Add; Add itself reports !Has(key). */
    function With(key: string): Tracker {
      if Has(key) then this
      else match this
        case Exact(items) => Exact(items + {key})
        case Bloom(bits, count, positions) => Bloom(bits + positions(key), count + 1, positions)
    }

    function WithAll(keys: seq<string>): Tracker {
      if keys == [] then this else WithAll(keys[..|keys| - 1]).With(keys[|keys| - 1])
    }

    /** How many of the keys test as new against this tracker. */
    function Unseen(keys: seq<string>): nat {
      if keys == [] then 0
      else Unseen(keys[..|keys| - 1]) + (if Has(keys[|keys| - 1]) then 0 else 1)
    }

    predicate Fresh() {
      match this
      case Exact(items) => items == {}
      case Bloom(bits, count, _) => bits == {} && count == 0
    }

    /** Adding never makes a tracker forget a key, and remembers the added one. */
    lemma WithGrows(key: string)
      ensures forall k :: Has(k) ==> With(key).Has(k)
      ensures With(key).Has(key)
      ensures With(key).Count() == Count() + (if Has(key) then 0 else 1)
    {
    }

    lemma {:induction false} WithAllGrows(keys: seq<string>)
      ensures forall k :: Has(k) ==> WithAll(keys).Has(k)
      ensures forall k :: k in keys ==> WithAll(keys).Has(k)
    {
      if keys != [] {
        var n := |keys| - 1;
        WithAllGrows(keys[..n]);
        WithAll(keys[..n]).WithGrows(keys[n]);
        assert keys == keys[..n] + [keys[n]];
      }
    }

    /** Pre-testing over-approximates adding: duplicate keys in one batch and Bloom false
        positives can only make the real growth smaller than the predicted one. */
    lemma {:induction false} GrowthWithinUnseen(keys: seq<string>)
      ensures Count() <= WithAll(keys).Count() <= Count() + Unseen(keys)
    {
      if keys != [] {
        var n := |keys| - 1;
        GrowthWithinUnseen(keys[..n]);
        WithAllGrows(keys[..n]);
        WithAll(keys[..n]).WithGrows(keys[n]);
      }
    }
  }

  lemma {:induction false} ExactCollects(e: Tracker, keys: seq<string>)
    requires e.Exact? && e.Fresh()
    ensures e.WithAll(keys) == Exact(Elements(keys))
  {
    if keys == [] {
      assert Elements(keys) == {};
    } else {
      var n := |keys| - 1;
      ExactCollects(e, keys[..n]);
      assert keys == keys[..n] + [keys[n]];
      assert Elements(keys) == Elements(keys[..n]) + {keys[n]};
    }
  }

  /** The Bloom tracker never reports more than the exact tracker on the same additions. */
  lemma {:induction false} BloomUndercounts(e: Tracker, b: Tracker, keys: seq<string>)
    requires e.Exact? && b.Bloom? && e.Fresh() && b.Fresh()
    ensures b.WithAll(keys).Count() <= e.WithAll(keys).Count()
  {
    if keys != [] {
      var n := |keys| - 1;
      BloomUndercounts(e, b, keys[..n]);
      ExactCollects(e, keys[..n]);
      b.WithAllGrows(keys[..n]);
      b.WithAll(keys[..n]).WithGrows(keys[n]);
      e.WithAll(keys[..n]).WithGrows(keys[n]);
    }
  }

  class ExactTracker {
    var items: set<string>

    function State(): Tracker reads this { Exact(items) }

    constructor ()
      ensures State().Fresh()
    {
      items := {};
    }

    method Add(key: string) returns (isNew: bool)
      modifies this
      ensures State() == old(State()).With(key)
      ensures isNew == !old(State()).Has(key)
    {
      if key in items {
        return false;
      }
      items := items + {key};
      return true;
    }

    method Reset()
      modifies this
      ensures State().Fresh()
    {
      items := {};
    }
  }

  class BloomTracker {
    var bits: set<nat>
    var count: nat
    const positions: string -> set<nat>

    function State(): Tracker reads this { Bloom(bits, count, positions) }

    constructor (positions: string -> set<nat>)
      ensures State().Fresh() && this.positions == positions
    {
      bits, count := {}, 0;
      this.positions := positions;
    }

    method Add(key: string) returns (isNew: bool)
      modifies this
      ensures State() == old(State()).With(key)
      ensures isNew == !old(State()).Has(key)
    {
      if positions(key) <= bits {
        return false;
      }
      bits := bits + positions(key);
      count := count + 1;
      return true;
    }

    method Reset()
      modifies this
      ensures State().Fresh() && State().positions == old(State()).positions
    {
      bits, count := {}, 0;
    }
  }
}
