/** Pricing a market order against displayed depth, in exact fixed point. */
module ExecCost {
  import opened Common

  /** One resting level, tagged with its venue; a Fill is what was taken of one. */
  datatype VenueLevel = VenueLevel(venue: Venue, price: Price, qty: Qty)
  type Ladder = seq<VenueLevel>
  type Fill = VenueLevel

  datatype WalkError = Okay | NonPositiveQty | EmptyLadder | Unsorted | Overflow | InsufficientDepth

  datatype Cost = Cost(
    side: Side, requested: Qty, filled: Qty, notional: Int64, avgPrice: Price, touchPrice: Price,
    slippageBps: Option<real>, levels: nat, fills: seq<Fill>, perVenue: map<Venue, Qty>)

  const NO_COST := Cost(Bid, 0, 0, 0, 0, 0, Some(0.0), 0, [], map[])

  // ---------- 128-bit multiply and divide ----------

  /** High and low words of a 64-by-64-bit product. */
  function Mul64(a: Uint64, b: Uint64): (r: (Uint64, Uint64))
    ensures r.0 * TWO64 + r.1 == a * b
  {
    ProductFits(a, b);
    (a * b / TWO64, a * b % TWO64)
  }

  lemma ProductFits(a: Uint64, b: Uint64)
    ensures 0 <= a * b < TWO64 * TWO64
  {
    MulMono(0, a, b);
    MulMono(a, TWO64, b);
    assert a * b <= TWO64 * b;
    if a == 0 || b == 0 {
      assert a * b == 0;
    }
  }

  lemma MulMono(x: int, y: int, k: int)
    requires x <= y && k >= 0
    ensures x * k <= y * k
  {
  }

  /** The hardware division: it traps unless hi < denom. */
  function Div64(hi: Uint64, lo: Uint64, denom: Uint64): (q: Uint64)
    requires hi < denom
  {
    WideQuotientFits(hi, lo, denom);
    (hi * TWO64 + lo) / denom
  }

  lemma WideQuotientFits(hi: Uint64, lo: Uint64, denom: Uint64)
    requires hi < denom
    ensures 0 <= (hi * TWO64 + lo) / denom < TWO64
  {
    var n, q := hi * TWO64 + lo, (hi * TWO64 + lo) / denom;
    assert n < (hi + 1) * TWO64 <= denom * TWO64 by { MulMono(hi + 1, denom, TWO64); }
    assert q * denom <= n;
    if q >= TWO64 {
      MulMono(TWO64, q, denom);
    }
  }

  /** The exact floor of a*b/denom, exactly when that fits int64; otherwise an overflow. */
  function MulDiv(a: Uint64, b: Uint64, denom: Uint64): (r: Option<Int64>)
    ensures r.Some? <==> denom > 0 && a * b / denom <= MAX_INT64
    ensures r.Some? ==> r.value == a * b / denom
  {
    if denom == 0 then None
    else
      var (hi, lo) := Mul64(a, b);
      if hi >= denom then
        TooWide(hi, lo, denom);
        None
      else
        var q := Div64(hi, lo, denom);
        if q > MAX_INT64 then None else Some(q)
  }

  lemma TooWide(hi: Uint64, lo: Uint64, denom: Uint64)
    requires hi >= denom > 0
    ensures (hi * TWO64 + lo) / denom >= TWO64
  {
  }

  lemma DivAtLeast(n: nat, d: nat, k: nat)
    requires d > 0 && n >= k * d
    ensures n / d >= k
  {
    if n / d < k {
      MulMono(n / d + 1, k, d);
    }
  }

  // ---------- Ladders ----------

  ghost predicate Positive(l: Ladder) {
    forall i :: 0 <= i < |l| ==> l[i].price > 0 && l[i].qty > 0
  }

  /** Best first: asks ascending, bids descending. */
  ghost predicate BestFirst(side: Side, l: Ladder) {
    forall i, j :: 0 <= i < j < |l| ==> if side == Ask then l[i].price <= l[j].price else l[i].price >= l[j].price
  }

  function Total(l: Ladder): int {
    if l == [] then 0 else l[0].qty + Total(l[1..])
  }

  lemma {:induction false} TotalAppend(l: Ladder, i: nat)
    requires i < |l|
    ensures Total(l[..i + 1]) == Total(l[..i]) + l[i].qty
  {
    if i > 0 {
      assert l[..i + 1][1..] == l[1..][..i] && l[..i][1..] == l[1..][..i - 1];
      TotalAppend(l[1..], i - 1);
    }
  }

  method TotalDepth(l: Ladder) returns (total: Qty)
    ensures total == Wrap64(Total(l))
  {
    total := 0;
    for i := 0 to |l|
      invariant total == Wrap64(Total(l[..i]))
    {
      TotalAppend(l, i);
      WrapAdd(Total(l[..i]), l[i].qty);
      total := Wrap64(total + l[i].qty);
    }
    assert l[..|l|] == l;
  }

  // ---------- What a walk takes ----------

  /** Greedy consumption: each level gives what it has or what is still wanted. */
  function Fills(l: Ladder, q: int): seq<Fill> {
    if l == [] || q <= 0 then []
    else
      var t := if l[0].qty > q then q else l[0].qty;
      [VenueLevel(l[0].venue, l[0].price, t)] + Fills(l[1..], q - t)
  }

  /** The floor each fill is priced at. */
  function Floor(f: Fill): int {
    f.price * f.qty / SCALE
  }

  function NotionalOf(fills: seq<Fill>): int {
    if fills == [] then 0 else NotionalOf(fills[..|fills| - 1]) + Floor(fills[|fills| - 1])
  }

  /** The same without rounding, in units of 1/SCALE squared. */
  function ExactOf(fills: seq<Fill>): int {
    if fills == [] then 0 else ExactOf(fills[..|fills| - 1]) + fills[|fills| - 1].price * fills[|fills| - 1].qty
  }

  function QtyOf(fills: seq<Fill>): int {
    if fills == [] then 0 else QtyOf(fills[..|fills| - 1]) + fills[|fills| - 1].qty
  }

  function QtyOn(fills: seq<Fill>, v: Venue): int {
    if fills == [] then 0
    else QtyOn(fills[..|fills| - 1], v) + if fills[|fills| - 1].venue == v then fills[|fills| - 1].qty else 0
  }

  lemma {:induction false} FillsPositive(l: Ladder, q: int)
    requires Positive(l)
    ensures Positive(Fills(l, q)) && |Fills(l, q)| <= |l|
  {
    if l != [] && q > 0 {
      var t := if l[0].qty > q then q else l[0].qty;
      FillsPositive(l[1..], q - t);
    }
  }

  /** Every fill is part of the level at its own index. */
  lemma {:induction false} FillsWithin(l: Ladder, q: int, i: nat)
    requires i < |Fills(l, q)| && |Fills(l, q)| <= |l|
    ensures Fills(l, q)[i].price == l[i].price && Fills(l, q)[i].venue == l[i].venue && Fills(l, q)[i].qty <= l[i].qty
  {
    if i > 0 {
      var t := if l[0].qty > q then q else l[0].qty;
      FillsWithin(l[1..], q - t, i - 1);
    }
  }

  lemma {:induction false} QtyCons(f: Fill, rest: seq<Fill>)
    ensures QtyOf([f] + rest) == f.qty + QtyOf(rest)
    ensures ExactOf([f] + rest) == f.price * f.qty + ExactOf(rest)
  {
    var all := [f] + rest;
    if rest == [] {
      assert all == [f] && all[..0] == [];
    } else {
      assert all[..|all| - 1] == [f] + rest[..|rest| - 1];
      QtyCons(f, rest[..|rest| - 1]);
    }
  }

  /** A walk fills the order, or all there is. */
  lemma {:induction false} FillsTake(l: Ladder, q: int)
    requires Positive(l) && q >= 0
    ensures QtyOf(Fills(l, q)) == Min(q, Total(l))
    ensures Total(l) >= 0
  {
    if l != [] {
      var t := if l[0].qty > q then q else l[0].qty;
      FillsTake(l[1..], q - t);
      QtyCons(VenueLevel(l[0].venue, l[0].price, t), Fills(l[1..], q - t));
    }
  }

  lemma {:induction false} PrefixSums(fills: seq<Fill>, i: nat)
    requires Positive(fills) && i <= |fills|
    ensures 0 <= NotionalOf(fills[..i]) <= NotionalOf(fills)
    ensures 0 <= QtyOf(fills[..i]) <= QtyOf(fills)
    decreases |fills|
  {
    if i == |fills| {
      assert fills[..i] == fills;
      if i > 0 {
        PrefixSums(fills[..i - 1], i - 1);
      }
    } else {
      var front := fills[..|fills| - 1];
      assert front[..i] == fills[..i];
      PrefixSums(front, i);
    }
  }

  lemma {:induction false} VenueShare(fills: seq<Fill>, v: Venue)
    requires Positive(fills)
    ensures 0 <= QtyOn(fills, v) <= QtyOf(fills)
  {
    if fills != [] {
      VenueShare(fills[..|fills| - 1], v);
    }
  }

  // ---------- Rounding ----------

  /** k fills lose less than k units to rounding: the notional is within k of the exact cost, and never above it. */
  lemma {:induction false} FloorBounds(fills: seq<Fill>)
    requires Positive(fills)
    ensures ExactOf(fills) - |fills| * (SCALE - 1) <= NotionalOf(fills) * SCALE <= ExactOf(fills)
  {
    if fills != [] {
      FloorBounds(fills[..|fills| - 1]);
      var n := fills[|fills| - 1].price * fills[|fills| - 1].qty;
      assert n - (SCALE - 1) <= n / SCALE * SCALE <= n;
    }
  }

  lemma {:induction false} PriceBounds(fills: seq<Fill>, lo: int, hi: int)
    requires Positive(fills) && forall i :: 0 <= i < |fills| ==> lo <= fills[i].price <= hi
    ensures lo * QtyOf(fills) <= ExactOf(fills) <= hi * QtyOf(fills)
  {
    if fills != [] {
      var front, f := fills[..|fills| - 1], fills[|fills| - 1];
      PriceBounds(front, lo, hi);
      MulMono(lo, f.price, f.qty);
      MulMono(f.price, hi, f.qty);
      Distribute(lo, QtyOf(front), f.qty);
      Distribute(hi, QtyOf(front), f.qty);
    }
  }

  lemma Distribute(p: int, x: int, y: int)
    ensures p * (x + y) == p * x + p * y
  {
  }

  lemma DivAtMost(n: nat, d: nat, k: nat)
    requires d > 0 && n <= k * d
    ensures 0 <= n / d <= k
  {
  }

  function AvgOf(fills: seq<Fill>): int
    requires QtyOf(fills) > 0
  {
    NotionalOf(fills) * SCALE / QtyOf(fills)
  }

  lemma {:induction false} SomeFilled(fills: seq<Fill>)
    requires Positive(fills) && fills != []
    ensures QtyOf(fills) > 0 && NotionalOf(fills) >= 0
  {
    PrefixSums(fills, |fills| - 1);
    PrefixSums(fills, 0);
  }

  lemma QuotientAbove(n: nat, d: nat)
    requires d > 0
    ensures n < (n / d + 1) * d
  {
  }

  /** The average price of what filled never exceeds the highest price filled; so its division never overflows. */
  lemma {:induction false} AvgAtMost(fills: seq<Fill>, hi: Price)
    requires Positive(fills) && fills != [] && forall i :: 0 <= i < |fills| ==> fills[i].price <= hi
    ensures QtyOf(fills) > 0 && NotionalOf(fills) >= 0
    ensures 0 <= AvgOf(fills) <= hi
  {
    SomeFilled(fills);
    hide NotionalOf, QtyOf, ExactOf;
    FloorBounds(fills);
    PriceBounds(fills, 0, hi);
    assert hi >= fills[0].price;
    ghost var n, d, k: nat := NotionalOf(fills) * SCALE, QtyOf(fills), hi;
    DivAtMost(n, d, k);
  }

  /** And rounding takes it below the lowest price filled by less than one unit per fill, spread over the quantity,
      plus one. */
  lemma {:induction false} AvgAtLeast(fills: seq<Fill>, lo: int)
    requires Positive(fills) && fills != [] && QtyOf(fills) > 0
    requires forall i :: 0 <= i < |fills| ==> lo <= fills[i].price
    ensures lo * QtyOf(fills) < (AvgOf(fills) + 1) * QtyOf(fills) + |fills| * (SCALE - 1)
  {
    SomeFilled(fills);
    hide NotionalOf, QtyOf, ExactOf;
    FloorBounds(fills);
    PriceBounds(fills, lo, MAX_INT64);
    QuotientAbove(NotionalOf(fills) * SCALE, QtyOf(fills));
  }

  // ---------- Slippage ----------

  /** Positive means worse than the touch, on both sides; None stands for NaN. Floats are modelled as reals. */
  function SlippageBps(side: Side, touch: Price, avg: Price): Option<real> {
    if touch == 0 then None
    else
      var diff := if side == Bid then Wrap64(touch - avg) else Wrap64(avg - touch);
      Some(diff as real * 10000.0 / touch as real)
  }

  // ---------- The walk ----------

  /** What a walk of a sorted ladder of positive levels returns. */
  ghost predicate IsWalk(l: Ladder, side: Side, q: Qty, cost: Cost, err: WalkError)
    requires l != []
  {
    var fills := Fills(l, q);
    && cost.side == side && cost.requested == q && cost.touchPrice == l[0].price
    && (err == Overflow <==> NotionalOf(fills) > MAX_INT64)
    && (err == Overflow ==>
          && cost.fills <= fills && cost.filled == QtyOf(cost.fills)
          && cost.notional == 0 && cost.avgPrice == 0 && cost.levels == 0 && cost.perVenue == map[])
    && (err != Overflow ==>
          && err == (if Total(l) < q then InsufficientDepth else Okay)
          && cost.fills == fills && cost.levels == |fills|
          && cost.filled == QtyOf(fills) > 0 && cost.notional == NotionalOf(fills)
          && cost.avgPrice == AvgOf(fills)
          && cost.slippageBps == SlippageBps(side, l[0].price, cost.avgPrice)
          && CountsVenues(fills, cost.perVenue))
  }

  /** The variables of the walk's loop. */
  datatype WalkState = WalkState(fills: seq<Fill>, filled: Qty, remaining: Qty, notional: Int64, perVenue: map<Venue, Qty>)

  ghost predicate CountsVenues(fills: seq<Fill>, perVenue: map<Venue, Qty>) {
    && (forall v :: v in perVenue <==> exists k :: 0 <= k < |fills| && fills[k].venue == v)
    && (forall v :: v in perVenue ==> perVenue[v] == QtyOn(fills, v))
  }

  /** After i levels: the fills so far, continued with what is still wanted, are the walk's fills. */
  ghost predicate Walked(l: Ladder, q: Qty, i: nat, s: WalkState) {
    && i <= |l| && s.fills + Fills(l[i..], s.remaining) == Fills(l, q)
    && s.filled == QtyOf(s.fills) && s.filled + s.remaining == q && s.remaining >= 0
    && s.notional == NotionalOf(s.fills)
    && CountsVenues(s.fills, s.perVenue)
  }

  function TakeOf(lv: VenueLevel, remaining: Qty): Fill {
    VenueLevel(lv.venue, lv.price, if lv.qty > remaining then remaining else lv.qty)
  }

  /** One turn of the loop, on values. */
  function AfterTake(s: WalkState, f: Fill, n: Int64): WalkState
    requires s.notional <= MAX_INT64 - n && s.notional + n >= MIN_INT64
  {
    WalkState(s.fills + [f], Wrap64(s.filled + f.qty), Wrap64(s.remaining - f.qty), s.notional + n,
              s.perVenue[f.venue := Wrap64((if f.venue in s.perVenue then s.perVenue[f.venue] else 0) + f.qty)])
  }

  lemma {:induction false} NextFill(l: Ladder, q: Qty, i: nat, s: WalkState)
    requires Positive(l) && i < |l| && s.remaining > 0
    requires s.fills + Fills(l[i..], s.remaining) == Fills(l, q)
    ensures var f := TakeOf(l[i], s.remaining);
      && (s.fills + [f]) + Fills(l[i + 1..], s.remaining - f.qty) == Fills(l, q)
      && s.fills + [f] <= Fills(l, q)
  {
  }

  lemma {:induction false} CountOne(fills: seq<Fill>, f: Fill, perVenue: map<Venue, Qty>)
    requires Positive(fills) && f.qty > 0 && CountsVenues(fills, perVenue) && QtyOf(fills) + f.qty <= MAX_INT64
    ensures CountsVenues(fills + [f], perVenue[f.venue := Wrap64((if f.venue in perVenue then perVenue[f.venue] else 0) + f.qty)])
  {
    var all := fills + [f];
    assert all[..|fills|] == fills;
    VenueShare(fills, f.venue);
    if f.venue !in perVenue { NoShare(fills, f.venue); }
    forall v ensures (exists k :: 0 <= k < |all| && all[k].venue == v) <==> v == f.venue || v in perVenue {
      if v in perVenue {
        var k :| 0 <= k < |fills| && fills[k].venue == v;
        assert all[k].venue == v;
      }
      assert all[|fills|].venue == f.venue;
    }
  }

  lemma {:induction false} NoShare(fills: seq<Fill>, v: Venue)
    requires forall k :: 0 <= k < |fills| ==> fills[k].venue != v
    ensures QtyOn(fills, v) == 0
  {
    if fills != [] {
      NoShare(fills[..|fills| - 1], v);
    }
  }

  lemma {:induction false} FillsSoFar(l: Ladder, q: Qty, i: nat, s: WalkState)
    requires Positive(l) && Walked(l, q, i, s)
    ensures Positive(s.fills) && s.fills <= Fills(l, q)
  {
    FillsPositive(l, q);
    assert forall k :: 0 <= k < |s.fills| ==> s.fills[k] == Fills(l, q)[k];
  }

  lemma Snoc(fills: seq<Fill>, f: Fill)
    ensures QtyOf(fills + [f]) == QtyOf(fills) + f.qty
    ensures NotionalOf(fills + [f]) == NotionalOf(fills) + Floor(f)
  {
  }

  lemma {:induction false} WalkStep(l: Ladder, q: Qty, i: nat, s: WalkState, n: Int64)
    requires Positive(l) && i < |l| && Walked(l, q, i, s) && s.remaining > 0
    requires n == Floor(TakeOf(l[i], s.remaining)) && 0 <= n <= MAX_INT64 - s.notional && s.notional >= 0
    ensures Walked(l, q, i + 1, AfterTake(s, TakeOf(l[i], s.remaining), n))
    ensures AfterTake(s, TakeOf(l[i], s.remaining), n).remaining == s.remaining - TakeOf(l[i], s.remaining).qty
  {
    hide Fills, QtyOf, NotionalOf, CountsVenues, Floor;
    var f := TakeOf(l[i], s.remaining);
    FillsSoFar(l, q, i, s);
    NextFill(l, q, i, s);
    Snoc(s.fills, f);
    CountOne(s.fills, f, s.perVenue);
  }

  lemma WalkStart(l: Ladder, q: Qty)
    requires q > 0
    ensures Walked(l, q, 0, WalkState([], 0, q, 0, map[]))
  {
  }

  /** When a fill cannot be priced or added, the whole walk's notional is beyond int64. */
  lemma {:induction false} WalkOverflows(l: Ladder, q: Qty, i: nat, s: WalkState)
    requires Positive(l) && i < |l| && Walked(l, q, i, s) && s.remaining > 0
    requires Floor(TakeOf(l[i], s.remaining)) > MAX_INT64 - s.notional
    ensures NotionalOf(Fills(l, q)) > MAX_INT64 && s.fills <= Fills(l, q) && s.filled == QtyOf(s.fills)
  {
    var f := TakeOf(l[i], s.remaining);
    var all := s.fills + [f];
    assert all[..|s.fills|] == s.fills;
    NextFill(l, q, i, s);
    FillsPositive(l, q);
    PrefixSums(Fills(l, q), |all|);
    assert Fills(l, q)[..|all|] == all;
  }

  lemma {:induction false} WalkDone(l: Ladder, q: Qty, i: nat, s: WalkState)
    requires Positive(l) && l != [] && q > 0 && Walked(l, q, i, s) && (i == |l| || s.remaining <= 0)
    ensures s.fills == Fills(l, q) && s.fills != []
    ensures s.filled == Min(q, Total(l)) > 0 && s.notional >= 0
    ensures s.filled == QtyOf(s.fills) && s.notional == NotionalOf(s.fills) <= MAX_INT64
    ensures s.notional * SCALE / s.filled <= MAX_INT64 && CountsVenues(s.fills, s.perVenue)
  {
    assert Fills(l[i..], s.remaining) == [];
    assert s.fills == Fills(l, q);
    FillsTake(l, q);
    FillsPositive(l, q);
    SomeFilled(s.fills);
    AvgAtMost(s.fills, MAX_INT64);
  }

  lemma {:induction false} AdjacentOrder(side: Side, l: Ladder, i: nat)
    requires 1 <= i < |l| && BestFirst(side, l[..i])
    requires if side == Ask then l[i - 1].price <= l[i].price else l[i - 1].price >= l[i].price
    ensures BestFirst(side, l[..i + 1])
  {
  }

  /** The guard at the top of the walk. */
  method IsBestFirst(l: Ladder, side: Side) returns (ok: bool)
    requires l != []
    ensures ok <==> BestFirst(side, l)
  {
    for i := 1 to |l|
      invariant BestFirst(side, l[..i])
    {
      if side == Ask && l[i].price < l[i - 1].price {
        return false;
      }
      if side == Bid && l[i].price > l[i - 1].price {
        return false;
      }
      AdjacentOrder(side, l, i);
    }
    assert l[..|l|] == l;
    return true;
  }

  /** The loop: takes level after level until q is filled, the ladder ends, or the money no longer fits int64. */
  method Consume(l: Ladder, q: Qty) returns (fills: seq<Fill>, filled: Qty, notional: Int64, perVenue: map<Venue, Qty>, overflow: bool)
    requires q > 0 && l != []
    ensures notional >= 0
    ensures Positive(l) ==> (overflow <==> NotionalOf(Fills(l, q)) > MAX_INT64)
    ensures Positive(l) ==> filled == QtyOf(fills) && fills <= Fills(l, q)
    ensures Positive(l) && !overflow ==>
      && fills == Fills(l, q) && fills != [] && filled == Min(q, Total(l)) > 0
      && notional == NotionalOf(fills) && notional * SCALE / filled <= MAX_INT64
      && CountsVenues(fills, perVenue)
  {
    hide Fills, QtyOf, NotionalOf, CountsVenues, Positive, Wrap64;
    fills, filled, notional, perVenue, overflow := [], 0, 0, map[], false;
    var remaining: Qty := q;
    var i := 0;
    WalkStart(l, q);
    while i < |l|
      invariant i <= |l| && notional >= 0
      invariant Positive(l) ==> Walked(l, q, i, WalkState(fills, filled, remaining, notional, perVenue))
    {
      if remaining <= 0 {
        break;
      }
      var lv := l[i];
      ghost var s := WalkState(fills, filled, remaining, notional, perVenue);
      var take := if lv.qty > remaining then remaining else lv.qty;
      var n := MulDiv(ToUint64(lv.price), ToUint64(take), SCALE);
      if n.None? || notional > MAX_INT64 - n.value {
        if Positive(l) {
          PositiveAt(l, i);
          WalkOverflows(l, q, i, s);
        }
        overflow := true;
        return;
      }
      if Positive(l) {
        PositiveAt(l, i);
        WalkStep(l, q, i, s, n.value);
      }
      notional := notional + n.value;
      filled := Wrap64(filled + take);
      fills := fills + [VenueLevel(lv.venue, lv.price, take)];
      perVenue := perVenue[lv.venue := Wrap64((if lv.venue in perVenue then perVenue[lv.venue] else 0) + take)];
      remaining := Wrap64(remaining - take);
      i := i + 1;
    }
    if Positive(l) {
      WalkDone(l, q, i, WalkState(fills, filled, remaining, notional, perVenue));
    }
  }

  lemma PositiveAt(l: Ladder, i: nat)
    requires Positive(l) && i < |l|
    ensures l[i].price > 0 && l[i].qty > 0
  {
  }

  /** Walks the ladder best first, and refuses rather than extrapolating past the depth. */
  method Walk(l: Ladder, side: Side, q: Qty) returns (cost: Cost, err: WalkError)
    ensures q <= 0 ==> err == NonPositiveQty && cost == NO_COST
    ensures q > 0 && l == [] ==> err == EmptyLadder && cost == NO_COST
    ensures q > 0 && l != [] ==> (err == Unsorted <==> !BestFirst(side, l))
    ensures err == Unsorted ==> cost == NO_COST
    ensures q > 0 && l != [] && BestFirst(side, l) && Positive(l) ==> IsWalk(l, side, q, cost, err)
  {
    hide Fills, QtyOf, NotionalOf, BestFirst, Positive;
    if q <= 0 {
      return NO_COST, NonPositiveQty;
    }
    if l == [] {
      return NO_COST, EmptyLadder;
    }
    var sorted := IsBestFirst(l, side);
    if !sorted {
      return NO_COST, Unsorted;
    }
    cost := NO_COST.(side := side, requested := q, touchPrice := l[0].price);
    var fills, filled, notional, perVenue, overflow := Consume(l, q);
    cost := cost.(fills := fills, filled := filled);
    if overflow {
      return cost, Overflow;
    }
    cost := cost.(notional := notional, levels := |cost.fills|);
    if |cost.fills| > 0 {
      cost := cost.(perVenue := perVenue);
    }
    if cost.filled > 0 {
      var avg := MulDiv(ToUint64(notional), SCALE, ToUint64(cost.filled));
      if avg.None? {
        return cost, Overflow;
      }
      cost := cost.(avgPrice := avg.value, slippageBps := SlippageBps(side, cost.touchPrice, avg.value));
    }
    if cost.filled < cost.requested {
      return cost, InsufficientDepth;
    }
    return cost, Okay;
  }

  /** A sell's slippage is never negative: no fill is above the touch and rounding only takes away. */
  lemma {:induction false} SellNeverGains(l: Ladder, q: Qty, cost: Cost, err: WalkError)
    requires l != [] && q > 0 && BestFirst(Bid, l) && Positive(l) && IsWalk(l, Bid, q, cost, err) && err != Overflow
    ensures 0 <= cost.avgPrice <= cost.touchPrice
    ensures cost.slippageBps.Some? && cost.slippageBps.value >= 0.0
  {
    hide Fills, QtyOf, NotionalOf;
    FillsPositive(l, q);
    forall i | 0 <= i < |Fills(l, q)| ensures Fills(l, q)[i].price <= l[0].price {
      FillsWithin(l, q, i);
    }
    WalkFilled(l, q);
    AvgAtMost(Fills(l, q), l[0].price);
  }

  lemma WalkFilled(l: Ladder, q: Qty)
    requires l != [] && q > 0
    ensures Fills(l, q) != []
  {
  }

  /** A buy's average stays within rounding of the touch: below it by less than one unit per fill spread over the
      quantity, plus one. */
  lemma {:induction false} BuyRoundingBound(l: Ladder, q: Qty, cost: Cost, err: WalkError)
    requires l != [] && q > 0 && BestFirst(Ask, l) && Positive(l) && IsWalk(l, Ask, q, cost, err) && err != Overflow
    ensures cost.touchPrice * cost.filled < (cost.avgPrice + 1) * cost.filled + cost.levels * (SCALE - 1)
  {
    hide Fills, QtyOf, NotionalOf;
    FillsPositive(l, q);
    forall i | 0 <= i < |Fills(l, q)| ensures l[0].price <= Fills(l, q)[i].price {
      FillsWithin(l, q, i);
    }
    WalkFilled(l, q);
    AvgAtLeast(Fills(l, q), l[0].price);
  }

  /** What flooring every fill takes away, in units of 1/SCALE. */
  function RemOf(fills: seq<Fill>): int {
    if fills == [] then 0
    else RemOf(fills[..|fills| - 1]) + fills[|fills| - 1].price * fills[|fills| - 1].qty % SCALE
  }

  lemma {:induction false} FloorsAndRemainders(fills: seq<Fill>)
    ensures NotionalOf(fills) * SCALE == ExactOf(fills) - RemOf(fills)
  {
    if fills != [] {
      FloorsAndRemainders(fills[..|fills| - 1]);
    }
  }

  lemma QuotientAtLeast(n: nat, d: nat, k: nat)
    requires d > 0
    ensures n / d >= k <==> n >= k * d
  {
    if n >= k * d { DivAtLeast(n, d, k); }
    if n / d >= k { MulMono(k, n / d, d); }
  }

  /** A buy is reported at or above the touch exactly when what the deeper levels cost beyond the touch makes up for
      what flooring its fills takes away. Both are sums over the fills of the order asked for. */
  lemma {:induction false} BuyGainsIff(l: Ladder, q: Qty, cost: Cost, err: WalkError)
    requires l != [] && q > 0 && BestFirst(Ask, l) && Positive(l) && IsWalk(l, Ask, q, cost, err) && err != Overflow
    ensures var fills := Fills(l, q);
      cost.avgPrice >= cost.touchPrice <==> ExactOf(fills) - l[0].price * QtyOf(fills) >= RemOf(fills)
    ensures cost.slippageBps.Some? && (cost.slippageBps.value >= 0.0 <==> cost.avgPrice >= cost.touchPrice)
  {
    hide Fills, QtyOf, NotionalOf, ExactOf, RemOf;
    var fills := Fills(l, q);
    FillsPositive(l, q);
    WalkFilled(l, q);
    SomeFilled(fills);
    FloorsAndRemainders(fills);
    QuotientAtLeast(NotionalOf(fills) * SCALE, QtyOf(fills), l[0].price);
    AvgAtMost(fills, MAX_INT64);
    SignOf(cost.avgPrice, l[0].price);
  }

  /** A buy the first level fills is reported at or above the touch exactly when its notional needs no rounding. */
  lemma {:induction false} BuyAtTouchIff(l: Ladder, q: Qty, cost: Cost, err: WalkError)
    requires l != [] && 0 < q <= l[0].qty && BestFirst(Ask, l) && Positive(l)
    requires IsWalk(l, Ask, q, cost, err) && err != Overflow
    ensures cost.avgPrice >= cost.touchPrice <==> l[0].price * q % SCALE == 0
  {
    BuyGainsIff(l, q, cost, err);
    OneFill(l, q);
  }

  lemma OneFill(l: Ladder, q: Qty)
    requires l != [] && 0 < q <= l[0].qty
    ensures var fills := Fills(l, q);
      ExactOf(fills) == l[0].price * q && QtyOf(fills) == q && RemOf(fills) == l[0].price * q % SCALE
  {
    var f := VenueLevel(l[0].venue, l[0].price, q);
    assert Fills(l, q) == [f] && [f][..0] == [];
  }

  lemma SignOf(avg: Price, touch: Price)
    requires avg >= 0 && touch > 0
    ensures var s := SlippageBps(Ask, touch, avg); s.Some? && (s.value >= 0.0 <==> avg >= touch)
  {
    var diff := Wrap64(avg - touch);
    assert diff == avg - touch;
    assert diff >= 0 ==> diff as real * 10000.0 / touch as real >= 0.0;
    assert diff < 0 ==> diff as real * 10000.0 / touch as real < 0.0;
  }

  /** So a buy can be reported as better than the touch: one unit at the smallest price averages to nothing, and is
      reported ten thousand basis points below it. */
  lemma {:induction false} BuyCanSeemToGain() returns (cost: Cost)
    ensures var l := [VenueLevel(KRAKEN, 1, 1)];
      && BestFirst(Ask, l) && Positive(l) && IsWalk(l, Ask, 1, cost, Okay)
      && cost.touchPrice == 1 && cost.avgPrice == 0 && cost.slippageBps == Some(-10000.0)
  {
    var f := VenueLevel(KRAKEN, 1, 1);
    var l := [f];
    cost := Cost(Ask, 1, 1, 0, 0, 1, Some(-10000.0), 1, [f], map[KRAKEN := 1]);
    assert Fills(l, 1) == [f];
    assert l[..|l| - 1] == [];
    assert QtyOf(l) == 1;
    assert Floor(f) == 0 && NotionalOf(l) == 0;
    assert QtyOn([], KRAKEN) == 0 && QtyOn(l, KRAKEN) == 1;
    assert Total(l) == 1;
    assert l[0].venue == KRAKEN;
    assert SlippageBps(Ask, 1, 0) == Some(-10000.0);
  }
}
