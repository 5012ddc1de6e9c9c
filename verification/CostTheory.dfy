/** Why the walk is the cheapest execution, and why its cost is convex in size: the study's impact band. */
module CostTheory {
  import opened Common
  import opened ExecCost

  /** Costs count what is paid; for a sale, minus what is received. */
  function Signed(side: Side, x: int): int {
    if side == Ask then x else -x
  }

  /** The exact cost of walking l for q. */
  ghost function Paid(side: Side, l: Ladder, q: int): int {
    Signed(side, ExactOf(Fills(l, q)))
  }

  /** Sizes may be zero here: a level emptied by an earlier slice keeps its place. */
  ghost predicate Sized(l: Ladder) {
    forall i :: 0 <= i < |l| ==> l[i].qty >= 0
  }

  ghost predicate Ranked(side: Side, l: Ladder) {
    forall i, j :: 0 <= i < j < |l| ==> Signed(side, l[i].price) <= Signed(side, l[j].price)
  }

  ghost predicate NoneBelow(side: Side, l: Ladder, lo: int) {
    forall i :: 0 <= i < |l| ==> Signed(side, l[i].price) >= lo
  }

  lemma BestFirstRanks(side: Side, l: Ladder)
    requires BestFirst(side, l)
    ensures Ranked(side, l)
  {
  }

  lemma {:induction false} PaidCons(side: Side, l: Ladder, q: int)
    requires l != [] && q >= 0 && l[0].qty >= 0
    ensures var t := Min(l[0].qty, q);
      Paid(side, l, q) == Signed(side, l[0].price) * t + Paid(side, l[1..], q - t)
  {
    if q > 0 {
      var t := Min(l[0].qty, q);
      QtyCons(VenueLevel(l[0].venue, l[0].price, t), Fills(l[1..], q - t));
    }
  }

  lemma {:induction false} SizedTotal(l: Ladder)
    requires Sized(l)
    ensures Total(l) >= 0
  {
    if l != [] {
      SizedTotal(l[1..]);
    }
  }

  // ---------- The price of one more unit ----------

  ghost function Marginal(side: Side, l: Ladder, q: int): int
    decreases |l|
  {
    if l == [] then 0
    else if q < l[0].qty then Signed(side, l[0].price)
    else Marginal(side, l[1..], q - l[0].qty)
  }

  lemma {:induction false} OneMore(side: Side, l: Ladder, q: nat)
    requires Sized(l) && q < Total(l)
    ensures Paid(side, l, q + 1) == Paid(side, l, q) + Marginal(side, l, q)
  {
    PaidCons(side, l, q + 1);
    PaidCons(side, l, q);
    hide Paid;
    var k, size := Signed(side, l[0].price), l[0].qty;
    if q < size {
      Distribute(k, q, 1);
      NothingFree(side, l[1..]);
    } else {
      OneMore(side, l[1..], q - size);
    }
  }

  lemma {:induction false} NothingFree(side: Side, l: Ladder)
    ensures Paid(side, l, 0) == 0
  {
  }

  lemma {:induction false} MarginalAtLeast(side: Side, l: Ladder, lo: int, q: nat)
    requires Sized(l) && NoneBelow(side, l, lo) && q < Total(l)
    ensures Marginal(side, l, q) >= lo
  {
    if q >= l[0].qty {
      MarginalAtLeast(side, l[1..], lo, q - l[0].qty);
    }
  }

  /** Each further unit costs at least as much as the one before. */
  lemma {:induction false} MarginalRises(side: Side, l: Ladder, q: nat, r: nat)
    requires Sized(l) && Ranked(side, l) && q <= r < Total(l)
    ensures Marginal(side, l, q) <= Marginal(side, l, r)
  {
    var size := l[0].qty;
    if q >= size {
      MarginalRises(side, l[1..], q - size, r - size);
    } else if r >= size {
      MarginalAtLeast(side, l[1..], Signed(side, l[0].price), r - size);
    }
  }

  /** The exact cost is convex: the same further size costs at least as much later as sooner. */
  lemma {:induction false} Convex(side: Side, l: Ladder, a: nat, b: nat, d: nat)
    requires Sized(l) && Ranked(side, l) && a <= b && b + d <= Total(l)
    ensures Paid(side, l, a + d) - Paid(side, l, a) <= Paid(side, l, b + d) - Paid(side, l, b)
    decreases d
  {
    hide Paid, Total, Ranked, Sized;
    if d > 0 {
      Convex(side, l, a, b, d - 1);
      OneMore(side, l, a + d - 1);
      OneMore(side, l, b + d - 1);
      MarginalRises(side, l, a + d - 1, b + d - 1);
    }
  }

  lemma {:induction false} CostsAtLeast(side: Side, l: Ladder, lo: int, q: nat, r: nat)
    requires Sized(l) && NoneBelow(side, l, lo) && q <= r <= Total(l)
    ensures Paid(side, l, r) - Paid(side, l, q) >= lo * (r - q)
    decreases r
  {
    hide Paid, Total, NoneBelow, Sized;
    if q < r {
      CostsAtLeast(side, l, lo, q, r - 1);
      OneMore(side, l, r - 1);
      MarginalAtLeast(side, l, lo, r - 1);
      Distribute(lo, r - 1 - q, 1);
    }
  }

  // ---------- Greedy is optimal ----------

  /** A way to fill an order: how much to take of each level. */
  ghost predicate Allocates(l: Ladder, a: seq<int>) {
    |a| == |l| && forall i :: 0 <= i < |l| ==> 0 <= a[i] <= l[i].qty
  }

  function Sum(a: seq<int>): int {
    if a == [] then 0 else a[0] + Sum(a[1..])
  }

  ghost function AllocCost(side: Side, l: Ladder, a: seq<int>): int
    requires |a| == |l|
  {
    if l == [] then 0 else Signed(side, l[0].price) * a[0] + AllocCost(side, l[1..], a[1..])
  }

  lemma {:induction false} AllocatedSize(l: Ladder, a: seq<int>)
    requires Allocates(l, a)
    ensures 0 <= Sum(a) <= Total(l)
  {
    if l != [] {
      AllocatedSize(l[1..], a[1..]);
    }
  }

  /** No allocation of an order within the level sizes costs less than walking the ladder. */
  lemma {:induction false} GreedyOptimal(side: Side, l: Ladder, a: seq<int>)
    requires Sized(l) && Ranked(side, l) && Allocates(l, a)
    ensures Paid(side, l, Sum(a)) <= AllocCost(side, l, a)
  {
    if l == [] {
      assert Fills(l, Sum(a)) == [];
    } else {
      AllocatedSize(l, a);
      AllocatedSize(l[1..], a[1..]);
      GreedyOptimal(side, l[1..], a[1..]);
      GreedyStep(side, l, Sum(a), a[0]);
    }
  }

  /** Taking less than the walk does of the best level only moves size to worse prices. */
  lemma {:induction false} GreedyStep(side: Side, l: Ladder, q: nat, first: nat)
    requires Sized(l) && Ranked(side, l) && l != [] && q <= Total(l)
    requires first <= l[0].qty && first <= q && q - first <= Total(l[1..])
    ensures Paid(side, l, q) <= Signed(side, l[0].price) * first + Paid(side, l[1..], q - first)
  {
    hide Paid;
    var t, k: int := Min(l[0].qty, q), Signed(side, l[0].price);
    PaidCons(side, l, q);
    CostsAtLeast(side, l[1..], k, q - t, q - first);
    Distribute(k, first, t - first);
  }

  /** The walk itself, as an allocation. */
  ghost function Take(l: Ladder, q: int): seq<int> {
    if l == [] then [] else [Min(l[0].qty, q)] + Take(l[1..], q - Min(l[0].qty, q))
  }

  lemma {:induction false} TakeAllocates(side: Side, l: Ladder, q: nat)
    requires Sized(l) && q <= Total(l)
    ensures Allocates(l, Take(l, q)) && Sum(Take(l, q)) == q && AllocCost(side, l, Take(l, q)) == Paid(side, l, q)
  {
    if l == [] {
      assert Fills(l, q) == [];
    } else {
      var t := Min(l[0].qty, q);
      SizedTotal(l[1..]);
      TakeAllocates(side, l[1..], q - t);
      PaidCons(side, l, q);
      assert Take(l, q)[1..] == Take(l[1..], q - t);
    }
  }

  /** s shows the prices of r, with no less size anywhere. */
  ghost predicate Deeper(s: Ladder, r: Ladder) {
    |s| == |r| && forall i :: 0 <= i < |r| ==> s[i].price == r[i].price && r[i].qty <= s[i].qty
  }

  lemma {:induction false} SamePrices(side: Side, s: Ladder, r: Ladder, a: seq<int>)
    requires Deeper(s, r) && |a| == |r|
    ensures AllocCost(side, s, a) == AllocCost(side, r, a)
  {
    if r != [] {
      SamePrices(side, s[1..], r[1..], a[1..]);
    }
  }

  /** More depth at the same prices never costs more. */
  lemma {:induction false} DepthHelps(side: Side, s: Ladder, r: Ladder, q: nat)
    requires Sized(r) && Ranked(side, s) && Deeper(s, r) && q <= Total(r)
    ensures Paid(side, s, q) <= Paid(side, r, q)
  {
    TakeAllocates(side, r, q);
    SamePrices(side, s, r, Take(r, q));
    GreedyOptimal(side, s, Take(r, q));
  }

  // ---------- Arm A against arm B: one venue or all of them ----------

  /** The levels of one venue, in order. */
  function OnVenue(l: Ladder, v: Venue): Ladder {
    if l == [] then []
    else OnVenue(l[..|l| - 1], v) + if l[|l| - 1].venue == v then [l[|l| - 1]] else []
  }

  /** The same ladder with the other venues' sizes taken away. */
  ghost function Masked(l: Ladder, v: Venue): Ladder {
    if l == [] then []
    else [if l[0].venue == v then l[0] else l[0].(qty := 0)] + Masked(l[1..], v)
  }

  lemma {:induction false} MaskedShape(side: Side, l: Ladder, v: Venue)
    requires Positive(l)
    ensures Sized(Masked(l, v)) && Deeper(l, Masked(l, v))
  {
    if l != [] {
      MaskedShape(side, l[1..], v);
    }
  }

  lemma {:induction false} OnVenueCons(l: Ladder, v: Venue)
    requires l != []
    ensures OnVenue(l, v) == (if l[0].venue == v then [l[0]] else []) + OnVenue(l[1..], v)
  {
    if |l| > 1 {
      var front := l[..|l| - 1];
      OnVenueCons(front, v);
      assert front[1..] == l[1..][..|l| - 2];
    } else {
      assert l[..0] == [] && l[1..] == [];
    }
  }

  lemma {:induction false} MaskedPays(side: Side, l: Ladder, v: Venue, q: nat)
    requires Positive(l)
    ensures Paid(side, OnVenue(l, v), q) == Paid(side, Masked(l, v), q)
    ensures Total(OnVenue(l, v)) == Total(Masked(l, v))
  {
    hide Paid, OnVenue;
    if l == [] {
      OnVenueNone(v);
    } else {
      var rest, k: int := l[1..], Signed(side, l[0].price);
      assert Masked(l, v)[1..] == Masked(rest, v);
      PaidCons(side, Masked(l, v), q);
      OnVenueCons(l, v);
      if l[0].venue == v {
        MaskedPays(side, rest, v, q - Min(l[0].qty, q));
        assert OnVenue(l, v)[0] == l[0] && OnVenue(l, v)[1..] == OnVenue(rest, v);
        PaidCons(side, OnVenue(l, v), q);
      } else {
        MaskedPays(side, rest, v, q);
        assert OnVenue(l, v) == OnVenue(rest, v);
        Distribute(k, 0, 0);
      }
    }
  }

  lemma OnVenueNone(v: Venue)
    ensures OnVenue([], v) == []
  {
  }

  /** Whatever one venue can fill, all venues together fill at no higher exact cost. */
  lemma {:induction false} RoutingNeverCostsMore(side: Side, l: Ladder, v: Venue, q: nat)
    requires Positive(l) && BestFirst(side, l) && q <= Total(OnVenue(l, v))
    ensures Paid(side, l, q) <= Paid(side, OnVenue(l, v), q)
  {
    hide Paid, Total;
    BestFirstRanks(side, l);
    MaskedShape(side, l, v);
    MaskedPays(side, l, v, q);
    DepthHelps(side, l, Masked(l, v), q);
  }

  /** Flooring every fill blurs a comparison of exact costs by less than one unit per fill. */
  lemma {:induction false} RoundedAtMost(a: seq<Fill>, b: seq<Fill>)
    requires Positive(a) && Positive(b) && b != [] && ExactOf(a) <= ExactOf(b)
    ensures NotionalOf(a) <= NotionalOf(b) + |b| - 1
  {
    FloorBounds(a);
    FloorBounds(b);
  }

  lemma OnVenueEnd(l: Ladder, v: Venue)
    requires l != []
    ensures OnVenue(l, v) == OnVenue(l[..|l| - 1], v) + if l[|l| - 1].venue == v then [l[|l| - 1]] else []
  {
  }

  lemma {:induction false} SublistIsWalkable(side: Side, l: Ladder, v: Venue)
    requires Positive(l) && BestFirst(side, l)
    ensures Positive(OnVenue(l, v)) && BestFirst(side, OnVenue(l, v))
    ensures forall i :: 0 <= i < |OnVenue(l, v)| ==> OnVenue(l, v)[i] in l
  {
    if l != [] {
      var n := |l| - 1;
      var front := OnVenue(l[..n], v);
      OnVenueEnd(l, v);
      hide OnVenue;
      SublistIsWalkable(side, l[..n], v);
      forall i | 0 <= i < |front|
        ensures front[i] in l && if side == Ask then front[i].price <= l[n].price else front[i].price >= l[n].price
      {
        var j :| 0 <= j < n && l[..n][j] == front[i];
        assert l[j] == front[i];
      }
    }
  }

  /** When both arms fill: a routed buy's notional exceeds the naive one by less than the naive fill count,
      and a routed sale's falls short of it by less than the routed fill count. */
  lemma {:induction false} RoutedAgainstNaive(side: Side, l: Ladder, v: Venue, q: Qty, routed: Cost, naive: Cost)
    requires Positive(l) && BestFirst(side, l) && OnVenue(l, v) != [] && q > 0 && l != []
    requires IsWalk(l, side, q, routed, Okay) && IsWalk(OnVenue(l, v), side, q, naive, Okay)
    ensures side == Ask ==> routed.notional <= naive.notional + naive.levels - 1
    ensures side == Bid ==> routed.notional >= naive.notional - (routed.levels - 1)
  {
    var one := OnVenue(l, v);
    SublistIsWalkable(side, l, v);
    RoutingNeverCostsMore(side, l, v, q);
    FillsPositive(l, q);
    FillsPositive(one, q);
    WalkFilled(l, q);
    WalkFilled(one, q);
    if side == Ask {
      RoundedAtMost(Fills(l, q), Fills(one, q));
    } else {
      RoundedAtMost(Fills(one, q), Fills(l, q));
    }
  }

  // ---------- Arm C against arm B: slices or all at once ----------

  /** What a walk for q leaves when nothing comes back. */
  ghost function Left(l: Ladder, q: nat): (r: Ladder)
    requires Sized(l)
  {
    if l == [] then []
    else
      var t := Min(l[0].qty, q);
      [l[0].(qty := l[0].qty - t)] + Left(l[1..], q - t)
  }

  lemma {:induction false} LeftShape(l: Ladder, q: nat)
    requires Sized(l) && q <= Total(l)
    ensures Sized(Left(l, q)) && Deeper(l, Left(l, q)) && Total(Left(l, q)) == Total(l) - q
  {
    if l != [] {
      SizedTotal(l[1..]);
      LeftShape(l[1..], q - Min(l[0].qty, q));
      assert Left(l, q)[1..] == Left(l[1..], q - Min(l[0].qty, q));
    }
  }

  lemma {:induction false} LeftPays(side: Side, l: Ladder, a: nat, b: nat)
    requires Sized(l) && a + b <= Total(l)
    ensures Paid(side, l, a + b) == Paid(side, l, a) + Paid(side, Left(l, a), b)
  {
    hide Paid, Left;
    LeftCons(l, a);
    if l == [] {
      NothingFree(side, l);
    } else {
      var size, k: int := l[0].qty, Signed(side, l[0].price);
      var t: int := Min(size, a);
      var u: int := Min(size - t, b);
      SizedTotal(l[1..]);
      LeftPays(side, l[1..], a - t, b - u);
      hide Total, Sized;
      PaidCons(side, l, a + b);
      PaidCons(side, l, a);
      PaidCons(side, Left(l, a), b);
      Distribute(k, t, u);
    }
  }

  lemma LeftCons(l: Ladder, q: nat)
    requires Sized(l)
    ensures |Left(l, q)| == |l|
    ensures l != [] ==> Left(l, q)[0].price == l[0].price && Left(l, q)[0].qty == l[0].qty - Min(l[0].qty, q)
    ensures l != [] ==> Left(l, q)[1..] == Left(l[1..], q - Min(l[0].qty, q))
  {
    if l != [] { LeftCons(l[1..], q - Min(l[0].qty, q)); }
  }

  lemma {:induction false} SumSnoc(qs: seq<int>)
    requires qs != []
    ensures Sum(qs) == Sum(qs[..|qs| - 1]) + qs[|qs| - 1]
  {
    if |qs| > 1 {
      SumSnoc(qs[1..]);
      assert qs[1..][..|qs| - 2] == qs[..|qs| - 1][1..];
    }
  }

  /** The exact cost of slices qs, each walked on the ladder it meets. */
  ghost function SlicesPaid(side: Side, met: seq<Ladder>, qs: seq<int>): int
    requires |met| == |qs|
  {
    if qs == [] then 0
    else
      var n := |qs| - 1;
      SlicesPaid(side, met[..n], qs[..n]) + Paid(side, met[n], qs[n])
  }

  /** Each slice meets the prices of l, with at most the sizes of l and at least what the slices before it left:
      the market gave back anything between nothing and everything. */
  ghost predicate Replenished(l: Ladder, met: seq<Ladder>, qs: seq<int>)
    requires Sized(l)
  {
    |met| == |qs| && (qs != [] ==>
      var n := |qs| - 1;
      && Replenished(l, met[..n], qs[..n])
      && qs[n] >= 0 && Sum(qs[..n]) >= 0
      && Deeper(l, met[n]) && Deeper(met[n], Left(l, Sum(qs[..n]))))
  }

  ghost function Repeat(l: Ladder, n: nat): (r: seq<Ladder>)
    ensures |r| == n
  {
    if n == 0 then [] else Repeat(l, n - 1) + [l]
  }

  lemma {:induction false} DeeperTotal(s: Ladder, r: Ladder)
    requires Deeper(s, r)
    ensures Total(r) <= Total(s)
  {
    if r != [] {
      DeeperTotal(s[1..], r[1..]);
    }
  }

  /** The impact band: however much depth comes back between slices, they cost at least what they would on the
      untouched ladder, and at most one walk of the whole order. */
  lemma {:induction false} ImpactBand(side: Side, l: Ladder, met: seq<Ladder>, qs: seq<int>)
    requires Sized(l) && Ranked(side, l) && Replenished(l, met, qs) && Sum(qs) <= Total(l)
    ensures Sum(qs) >= 0
    ensures SlicesPaid(side, Repeat(l, |qs|), qs) <= SlicesPaid(side, met, qs) <= Paid(side, l, Sum(qs))
  {
    hide Paid, Total, Ranked, Sized, Deeper, Left;
    if qs == [] {
      NothingFree(side, l);
    } else {
      var n := |qs| - 1;
      SumSnoc(qs);
      ImpactBand(side, l, met[..n], qs[..n]);
      SliceInBand(side, l, met[n], Sum(qs[..n]), qs[n]);
      assert Repeat(l, |qs|)[..n] == Repeat(l, n);
      LeftPays(side, l, Sum(qs[..n]), qs[n]);
    }
  }

  lemma {:induction false} SliceInBand(side: Side, l: Ladder, met: Ladder, before: nat, q: nat)
    requires Sized(l) && Ranked(side, l) && before + q <= Total(l)
    requires Deeper(l, met) && Deeper(met, Left(l, before))
    ensures Paid(side, l, q) <= Paid(side, met, q) <= Paid(side, Left(l, before), q)
  {
    LeftShape(l, before);
    DeeperTotal(met, Left(l, before));
    DepthHelps(side, l, met, q);
    DepthHelps(side, met, Left(l, before), q);
  }

  /** Slices that each consume depth cost exactly one walk of the whole. */
  lemma {:induction false} ConsumingSlices(side: Side, l: Ladder, met: seq<Ladder>, qs: seq<int>)
    requires Sized(l) && |met| == |qs| && Sum(qs) <= Total(l)
    requires forall i :: 0 <= i < |qs| ==> qs[i] >= 0 && Sum(qs[..i]) >= 0 && met[i] == Left(l, Sum(qs[..i]))
    ensures Sum(qs) >= 0 && SlicesPaid(side, met, qs) == Paid(side, l, Sum(qs))
  {
    if qs == [] {
      NothingFree(side, l);
    } else {
      var n := |qs| - 1;
      SumSnoc(qs);
      assert forall i :: 0 <= i < n ==> qs[..n][..i] == qs[..i];
      ConsumingSlices(side, l, met[..n], qs[..n]);
      LeftPays(side, l, Sum(qs[..n]), qs[n]);
    }
  }

  /** What slices qs are priced at in all, slice i walked on met[i]. */
  function SlicesNotional(met: seq<Ladder>, qs: seq<int>): int
    requires |met| == |qs|
  {
    if qs == [] then 0
    else
      var n := |qs| - 1;
      SlicesNotional(met[..n], qs[..n]) + NotionalOf(Fills(met[n], qs[n]))
  }

  function SlicesFills(met: seq<Ladder>, qs: seq<int>): nat
    requires |met| == |qs|
  {
    if qs == [] then 0
    else
      var n := |qs| - 1;
      SlicesFills(met[..n], qs[..n]) + |Fills(met[n], qs[n])|
  }

  lemma {:induction false} SlicesRounded(side: Side, met: seq<Ladder>, qs: seq<int>)
    requires |met| == |qs| && forall i :: 0 <= i < |met| ==> Positive(met[i])
    ensures var exact := Signed(side, SlicesPaid(side, met, qs));
      exact - SlicesFills(met, qs) * (SCALE - 1) <= SlicesNotional(met, qs) * SCALE <= exact
  {
    if qs != [] {
      var n := |qs| - 1;
      SlicesRounded(side, met[..n], qs[..n]);
      FillsPositive(met[n], qs[n]);
      FloorBounds(Fills(met[n], qs[n]));
    }
  }

  lemma {:induction false} FixedLadder(l: Ladder, qs: seq<int>)
    requires Sized(l) && Sum(qs) <= Total(l) && forall i :: 0 <= i < |qs| ==> qs[i] >= 0
    ensures Sum(qs) >= 0 && Replenished(l, Repeat(l, |qs|), qs)
  {
    if qs != [] {
      var n := |qs| - 1;
      SumSnoc(qs);
      FixedLadder(l, qs[..n]);
      LeftShape(l, Sum(qs[..n]));
      assert Repeat(l, |qs|)[..n] == Repeat(l, n);
    }
  }

  lemma {:induction false} RepeatAll(l: Ladder, n: nat, i: nat)
    requires i < n
    ensures Repeat(l, n)[i] == l
  {
    if i < n - 1 { RepeatAll(l, n - 1, i); }
  }

  /** Per-fill flooring blurs the band by less than one unit per fill: slices bought on the untouched ladder are
      priced at most at the one walk's notional plus its fills less one; mirrored for sales. */
  lemma {:induction false} SlicedAgainstWhole(side: Side, l: Ladder, qs: seq<int>, q: Qty, whole: Cost)
    requires l != [] && Positive(l) && BestFirst(side, l) && q == Sum(qs) && q > 0
    requires forall i :: 0 <= i < |qs| ==> qs[i] >= 0
    requires IsWalk(l, side, q, whole, Okay)
    ensures var met := Repeat(l, |qs|);
      && (side == Ask ==> SlicesNotional(met, qs) <= whole.notional + whole.levels - 1)
      && (side == Bid ==> SlicesNotional(met, qs) > whole.notional - SlicesFills(met, qs))
  {
    BestFirstRanks(side, l);
    FixedLadder(l, qs);
    forall i | 0 <= i < |qs| ensures Positive(Repeat(l, |qs|)[i]) {
      RepeatAll(l, |qs|, i);
    }
    ImpactBand(side, l, Repeat(l, |qs|), qs);
    SlicesRounded(side, Repeat(l, |qs|), qs);
    FillsPositive(l, q);
    FloorBounds(Fills(l, q));
    WalkFilled(l, q);
    SomeSliceFills(l, qs);
  }

  lemma {:induction false} SomeSliceFills(l: Ladder, qs: seq<int>)
    requires l != [] && Sum(qs) > 0 && forall i :: 0 <= i < |qs| ==> qs[i] >= 0
    ensures SlicesFills(Repeat(l, |qs|), qs) > 0
  {
    var n := |qs| - 1;
    SumSnoc(qs);
    assert Repeat(l, |qs|)[..n] == Repeat(l, n);
    if qs[n] == 0 {
      SomeSliceFills(l, qs[..n]);
    }
  }
}
