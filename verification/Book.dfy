/** One venue's book. */
module Book {
  import opened Common
  import opened SideSpec
  import opened BookSide
  import opened EngineSpec

  class Book {
    const bids: BookSide
    const asks: BookSide
    var ready: bool

    ghost var Repr: set<object>

    ghost predicate Valid()
      reads this, Repr
      ensures Valid() ==> this in Repr && bids in Repr && asks in Repr
    {
      && this in Repr && bids in Repr && asks in Repr
      && bids.prices in Repr && asks.prices in Repr
      && bids.Valid() && asks.Valid()
      && bids != asks && bids.prices != asks.prices
      && !bids.isAsk && asks.isAsk
    }

    ghost function Value(): BookVal
      reads this, bids, asks
    {
      BookVal(bids.levels, asks.levels, ready)
    }

    constructor ()
      ensures Valid() && fresh(Repr) && Value() == EMPTY_BOOK
    {
      bids := new BookSide(false);
      asks := new BookSide(true);
      ready := false;
      new;
      Repr := {this} + bids.Repr() + asks.Repr();
    }

    /** Replaces the whole book with the snapshot's levels and marks it ready. */
    method ApplySnapshot(newBids: seq<Level>, newAsks: seq<Level>)
      requires Valid()
      modifies Repr
      ensures Valid() && fresh(Repr - old(Repr))
      ensures Value() == BookVal(SetLevels(map[], newBids), SetLevels(map[], newAsks), true)
    {
      bids.Clear();
      asks.Clear();
      ApplyLevels(newBids, newAsks);
      ready := true;
    }

    method ApplyUpdate(newBids: seq<Level>, newAsks: seq<Level>)
      requires Valid()
      modifies Repr
      ensures Valid() && fresh(Repr - old(Repr))
      ensures Value() == BookVal(SetLevels(old(bids.levels), newBids), SetLevels(old(asks.levels), newAsks), old(ready))
    {
      ApplyLevels(newBids, newAsks);
    }

    method ApplyLevels(newBids: seq<Level>, newAsks: seq<Level>)
      requires Valid()
      modifies Repr
      ensures Valid() && fresh(Repr - old(Repr)) && ready == old(ready)
      ensures bids.levels == SetLevels(old(bids.levels), newBids)
      ensures asks.levels == SetLevels(old(asks.levels), newAsks)
    {
      bids.ApplyAll(newBids);
      Repr := Repr + bids.Repr();
      asks.ApplyAll(newAsks);
      Repr := Repr + asks.Repr();
    }

    method Truncate(depth: int)
      requires Valid()
      modifies Repr
      ensures Valid() && fresh(Repr - old(Repr))
      ensures Value() == Truncated(old(Value()), depth)
    {
      bids.Truncate(depth);
      asks.Truncate(depth);
    }

    /** Clears the book and marks it not ready. */
    method Invalidate()
      requires Valid()
      modifies Repr
      ensures Valid() && fresh(Repr - old(Repr))
      ensures Value() == EMPTY_BOOK
    {
      bids.Clear();
      asks.Clear();
      ready := false;
    }

    /** Comparing the two touches decides whether any bid meets any ask. */
    method IsCrossedOrLocked() returns (crossed: bool)
      requires Valid()
      ensures crossed <==> Crossed(Value())
    {
      var bb := bids.Best();
      var ba := asks.Best();
      crossed := bb.Some? && ba.Some? && bb.value.price >= ba.value.price;
      if !crossed && bb.Some? && ba.Some? {
        forall p, q | p in bids.levels && q in asks.levels ensures p < q {
          assert p == bb.value.price || Better(false, bb.value.price, p);
          assert q == ba.value.price || Better(true, ba.value.price, q);
        }
      }
    }

    method Depth(s: Side) returns (n: nat)
      requires Valid()
      ensures n == if s == Ask then |asks.levels| else |bids.levels|
    {
      IndexIsRankReversed(true, asks.index, asks.levels);
      IndexIsRankReversed(false, bids.index, bids.levels);
      n := if s == Ask then asks.len else bids.len;
    }

    method TopLevels(s: Side, n: nat) returns (out: array<Level>)
      requires Valid()
      ensures fresh(out)
      ensures out[..] == if s == Ask then TopN(true, asks.levels, n) else TopN(false, bids.levels, n)
    {
      if s == Ask { out := asks.TopLevels(n); } else { out := bids.TopLevels(n); }
    }
  }
}
