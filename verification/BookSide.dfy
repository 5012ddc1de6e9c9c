/** One side of the book as the program stores it: a map plus a price slice edited in place. */
module BookSide {
  import opened Common
  import opened SideSpec

  /** ps holds exactly the prices of m, each once, worst first. */
  ghost predicate Indexes(isAsk: bool, ps: seq<Price>, m: Levels) {
    && (forall i, j :: 0 <= i < j < |ps| ==> Better(isAsk, ps[j], ps[i]))
    && (forall p :: p in ps <==> p in m)
    && Keyed(m)
  }

  function Reversed(ps: seq<Price>): (r: seq<Price>)
    ensures |r| == |ps| && forall p :: p in r <==> p in ps
  {
    var r := seq(|ps|, i requires 0 <= i < |ps| => ps[|ps| - 1 - i]);
    assert forall p :: p in ps ==> p in r by {
      forall p | p in ps ensures p in r {
        var i :| 0 <= i < |ps| && ps[i] == p;
        assert r[|ps| - 1 - i] == p;
      }
    }
    r
  }

  /** Read backwards, the slice is the best-first ranking of the map. */
  lemma {:induction false} IndexIsRankReversed(isAsk: bool, ps: seq<Price>, m: Levels)
    requires Indexes(isAsk, ps, m)
    ensures Reversed(ps) == Rank(isAsk, m.Keys) && |ps| == |m|
  {
    RankLength(isAsk, Reversed(ps), m.Keys);
    RankUnique(isAsk, Reversed(ps), Rank(isAsk, m.Keys), m.Keys);
  }

  lemma {:induction false} ReversedTail(ps: seq<Price>, n: nat)
    requires n <= |ps|
    ensures Reversed(ps[|ps| - n..]) == Reversed(ps)[..n]
  {
  }

  /** The last n entries of the slice are the prices of the n best levels. */
  lemma {:induction false} TailPrices(isAsk: bool, ps: seq<Price>, m: Levels, n: nat)
    requires Indexes(isAsk, ps, m) && n <= |ps|
    ensures forall p :: p in ps[|ps| - n..] <==> p in KeepBest(isAsk, m, n)
  {
    IndexIsRankReversed(isAsk, ps, m);
    KeepBestIsPrefix(isAsk, m, n);
    ReversedTail(ps, n);
    var kept := KeepBest(isAsk, m, n).Keys;
    assert Ranks(isAsk, Reversed(ps[|ps| - n..]), kept);
  }

  /** The last n entries of the slice index the n best levels. */
  lemma {:induction false} TailIndexesBest(isAsk: bool, ps: seq<Price>, m: Levels, n: nat)
    requires Indexes(isAsk, ps, m) && n <= |ps|
    ensures Indexes(isAsk, ps[|ps| - n..], KeepBest(isAsk, m, n))
  {
    TailPrices(isAsk, ps, m, n);
  }

  /** The k-th best level is found k places before the end of the slice. */
  lemma {:induction false} TopFromEnd(isAsk: bool, ps: seq<Price>, m: Levels, n: nat, k: nat)
    requires Indexes(isAsk, ps, m) && k < n && k < |ps|
    ensures ps[|ps| - 1 - k] in m
    ensures |TopN(isAsk, m, n)| == Min(n, |ps|)
    ensures TopN(isAsk, m, n)[k] == m[ps[|ps| - 1 - k]]
  {
    IndexIsRankReversed(isAsk, ps, m);
  }

  lemma {:induction false} InsertIndexes(isAsk: bool, ps: seq<Price>, m: Levels, i: nat, lv: Level)
    requires Indexes(isAsk, ps, m) && lv.price !in m && i <= |ps|
    requires forall k :: 0 <= k < i ==> Better(isAsk, lv.price, ps[k])
    requires forall k :: i <= k < |ps| ==> !Better(isAsk, lv.price, ps[k])
    ensures Indexes(isAsk, ps[..i] + [lv.price] + ps[i..], m[lv.price := lv])
  {
  }

  lemma {:induction false} RemoveIndexes(isAsk: bool, ps: seq<Price>, m: Levels, i: nat)
    requires Indexes(isAsk, ps, m) && i < |ps|
    ensures Indexes(isAsk, ps[..i] + ps[i + 1..], m - {ps[i]})
  {
  }

  /** Dropping the worst prices one by one leaves the n best levels. */
  lemma {:induction false} EvictedIsKept(isAsk: bool, ps: seq<Price>, m: Levels, n: nat)
    requires Indexes(isAsk, ps, m) && n <= |ps|
    ensures m - PricesOf(ps[..|ps| - n]) == KeepBest(isAsk, m, n)
  {
    TailPrices(isAsk, ps, m, n);
    var drop := |ps| - n;
    assert ps == ps[..drop] + ps[drop..];
    forall p | p in ps[..drop] ensures p !in ps[drop..] {
      var a :| 0 <= a < drop && ps[a] == p;
      assert forall b :: drop <= b < |ps| ==> Better(isAsk, ps[b], ps[a]);
    }
  }

  lemma {:induction false} TopLength(isAsk: bool, ps: seq<Price>, m: Levels, n: nat)
    requires Indexes(isAsk, ps, m)
    ensures |TopN(isAsk, m, n)| == Min(n, |ps|)
    ensures forall p :: p in ps ==> p in m
  {
    IndexIsRankReversed(isAsk, ps, m);
  }

  class BookSide {
    var levels: Levels
    /** Backing array; the slice is its first `len` entries. */
    var prices: array<Price>
    var len: nat
    const isAsk: bool
    /** The slice's contents: prices, worst first. */
    ghost var index: seq<Price>

    ghost predicate Valid()
      reads this, prices
    {
      && len == |index| <= prices.Length
      && (forall k :: 0 <= k < len ==> prices[k] == index[k])
      && Indexes(isAsk, index, levels)
    }

    ghost function Repr(): set<object>
      reads this
    {
      {this, prices}
    }

    constructor (isAsk: bool)
      ensures Valid() && fresh(Repr())
      ensures levels == map[] && this.isAsk == isAsk
    {
      this.isAsk := isAsk;
      levels := map[];
      prices := new Price[0];
      len := 0;
      index := [];
    }

    /** The library's binary search for the first entry not worse than p. */
    method SearchIdx(p: Price) returns (i: nat)
      requires Valid()
      ensures i <= len
      ensures forall k :: 0 <= k < i ==> Better(isAsk, p, index[k])
      ensures forall k :: i <= k < len ==> !Better(isAsk, p, index[k])
    {
      i := 0;
      var j := len;
      while i < j
        invariant i <= j <= len
        invariant forall k :: 0 <= k < i ==> Better(isAsk, p, index[k])
        invariant forall k :: j <= k < len ==> !Better(isAsk, p, index[k])
      {
        var h := (i + j) / 2;
        assert forall k :: 0 <= k < h ==> Better(isAsk, index[h], index[k]);
        assert forall k :: h < k < len ==> Better(isAsk, index[k], index[h]);
        if Better(isAsk, p, prices[h]) { i := h + 1; } else { j := h; }
      }
    }

    /** append(prices, 0): in place while there is capacity, otherwise into a fresh array. */
    method Grow()
      requires len <= prices.Length
      modifies this`prices, this`len, prices
      ensures len == old(len) + 1 <= prices.Length
      ensures prices == old(prices) || fresh(prices)
      ensures forall k :: 0 <= k < old(len) ==> prices[k] == old(prices[k])
    {
      if len == prices.Length {
        var bigger := new Price[2 * len + 1];
        forall k | 0 <= k < len { bigger[k] := prices[k]; }
        prices := bigger;
      }
      prices[len] := 0;
      len := len + 1;
    }

    /** Copies n prices element by element, in the direction in which an overlap does no harm. */
    method Move(to: nat, from: nat, n: nat)
      requires to + n <= prices.Length && from + n <= prices.Length
      modifies prices
      ensures forall k :: to <= k < to + n ==> prices[k] == old(prices[k - to + from])
      ensures forall k :: 0 <= k < prices.Length && !(to <= k < to + n) ==> prices[k] == old(prices[k])
    {
      if to <= from {
        for i := 0 to n
          invariant forall k :: to <= k < to + i ==> prices[k] == old(prices[k - to + from])
          invariant forall k :: 0 <= k < prices.Length && !(to <= k < to + i) ==> prices[k] == old(prices[k])
        {
          prices[to + i] := prices[from + i];
        }
      } else {
        for i := n downto 0
          invariant forall k :: to + i <= k < to + n ==> prices[k] == old(prices[k - to + from])
          invariant forall k :: 0 <= k < prices.Length && !(to + i <= k < to + n) ==> prices[k] == old(prices[k])
        {
          prices[to + i] := prices[from + i];
        }
      }
    }

    /** Upserts a level: overwrite when present, otherwise insert with an overlapping shift. */
    method Set(lv: Level)
      requires Valid()
      modifies Repr()
      ensures Valid() && fresh(Repr() - old(Repr()))
      ensures levels == old(levels)[lv.price := lv]
    {
      if lv.price in levels {
        levels := levels[lv.price := lv];
        return;
      }
      hide Indexes;
      var i := SearchIdx(lv.price);
      InsertIndexes(isAsk, index, levels, i, lv);
      levels := levels[lv.price := lv];
      InsertAt(i, lv.price);
    }

    /** Makes room at i with an overlapping shift. */
    method InsertAt(i: nat, p: Price)
      requires i <= len == |index| <= prices.Length && forall k :: 0 <= k < len ==> prices[k] == index[k]
      modifies this`prices, this`len, this`index, prices
      ensures index == old(index)[..i] + [p] + old(index)[i..]
      ensures len == |index| <= prices.Length && forall k :: 0 <= k < len ==> prices[k] == index[k]
      ensures prices == old(prices) || fresh(prices)
    {
      Grow();
      Move(i + 1, i, len - 1 - i);
      prices[i] := p;
      index := index[..i] + [p] + index[i..];
    }

    /** Removes a level; removing an absent one is a no-op. */
    method Del(p: Price)
      requires Valid()
      modifies Repr()
      ensures Valid() && Repr() == old(Repr())
      ensures levels == old(levels) - {p}
    {
      if p !in levels {
        return;
      }
      var i := SearchIdx(p);
      assert i < len && index[i] == p by {
        var k :| 0 <= k < |index| && index[k] == p;
        assert i <= k;
      }
      RemoveIndexes(isAsk, index, levels, i);
      levels := levels - {p};
      hide Indexes;
      RemoveAt(i);
    }

    /** Closes the gap at i. */
    method RemoveAt(i: nat)
      requires i < len == |index| <= prices.Length && forall k :: 0 <= k < len ==> prices[k] == index[k]
      modifies this`len, this`index, prices
      ensures index == old(index)[..i] + old(index)[i + 1..]
      ensures len == |index| <= prices.Length && forall k :: 0 <= k < len ==> prices[k] == index[k]
    {
      Move(i, i + 1, len - 1 - i);
      len := len - 1;
      index := index[..i] + index[i + 1..];
    }

    /** Applies one side of an event, level by level: size zero deletes, anything else overwrites. */
    method ApplyAll(lvs: seq<Level>)
      requires Valid()
      modifies Repr()
      ensures Valid() && fresh(Repr() - old(Repr()))
      ensures levels == SetLevels(old(levels), lvs)
    {
      hide Indexes;
      for i := 0 to |lvs|
        invariant Valid() && fresh(Repr() - old(Repr()))
        invariant levels == SetLevels(old(levels), lvs[..i])
      {
        assert lvs[..i + 1][..i] == lvs[..i];
        if lvs[i].qty == 0 { Del(lvs[i].price); } else { Set(lvs[i]); }
      }
      assert lvs[..|lvs|] == lvs;
    }

    /** Drops everything. The backing array is kept for reuse. */
    method Clear()
      requires Valid()
      modifies this`levels, this`len, this`index
      ensures Valid() && levels == map[]
    {
      levels := map[];
      len := 0;
      index := [];
    }

    /** Deletes the map entries of the `drop` worst prices, leaving the slice alone. */
    method Evict(drop: nat)
      requires Valid() && drop <= len
      modifies this`levels
      ensures levels == old(levels) - PricesOf(index[..drop])
    {
      for j := 0 to drop
        invariant levels == old(levels) - PricesOf(index[..j])
      {
        assert index[..j + 1] == index[..j] + [index[j]];
        levels := levels - {prices[j]};
      }
    }

    /** The overlapping copy append(prices[:0], prices[drop:]...). */
    method KeepTail(drop: nat)
      requires drop <= len == |index| <= prices.Length
      requires forall k :: 0 <= k < len ==> prices[k] == index[k]
      modifies this`len, this`index, prices
      ensures len == old(len) - drop && index == old(index)[drop..]
      ensures forall k :: 0 <= k < len ==> prices[k] == index[k]
    {
      Move(0, drop, len - drop);
      len := len - drop;
      index := index[drop..];
    }

    /** Keeps the n best levels: evicts the head of the slice, then copies its tail down. */
    method Truncate(n: int)
      requires Valid()
      modifies Repr()
      ensures Valid() && Repr() == old(Repr())
      ensures levels == KeepBest(isAsk, old(levels), n)
    {
      hide Indexes, KeepBest;
      ghost var m := levels;
      if n < 0 || len <= n {
        IndexIsRankReversed(isAsk, index, m);
        AllKept(isAsk, m, n);
        return;
      }
      TailIndexesBest(isAsk, index, m, n);
      EvictedIsKept(isAsk, index, m, n);
      Evict(len - n);
      KeepTail(len - n);
    }

    /** The best level, read in constant time off the end of the slice. */
    method Best() returns (lv: Option<Level>)
      requires Valid()
      ensures lv.None? <==> levels == map[]
      ensures lv.Some? ==> lv.value.price in levels && lv.value == levels[lv.value.price]
      ensures lv.Some? ==> forall p :: p in levels && p != lv.value.price ==> Better(isAsk, lv.value.price, p)
      ensures lv.Some? ==> TopN(isAsk, levels, 1) == [lv.value]
    {
      IndexIsRankReversed(isAsk, index, levels);
      if len == 0 {
        return None;
      }
      lv := Some(levels[prices[len - 1]]);
      forall p | p in levels && p != lv.value.price ensures Better(isAsk, lv.value.price, p) {
        assert p in index;
      }
    }

    /** The best n levels, best first, in fresh storage. */
    method TopLevels(n: nat) returns (out: array<Level>)
      requires Valid()
      ensures fresh(out) && out[..] == TopN(isAsk, levels, n)
    {
      hide TopN, Indexes;
      ghost var best := TopN(isAsk, levels, n);
      TopLength(isAsk, index, levels, n);
      var count := if n > len then len else n;
      out := new Level[count](_ => Level(0, 0, "", ""));
      var i := len - 1;
      while i >= len - count
        invariant len - count - 1 <= i < len
        invariant forall k :: 0 <= k < len - 1 - i ==> out[k] == best[k]
      {
        TopFromEnd(isAsk, index, levels, n, len - 1 - i);
        out[len - 1 - i] := levels[prices[i]];
        i := i - 1;
      }
      assert |best| == count;
      assert out[..] == best;
    }
  }
}
