/** The cross-venue best bid and offer. */
module Consolidate {
  import opened Common

  /** One venue's top of book as published. The ladders are heap slices; null is Go's nil. */
  datatype VenueTop = VenueTop(
    venue: Venue, ready: bool, hasBid: bool, hasAsk: bool,
    bestBid: Level, bestAsk: Level, bids: array?<Level>, asks: array?<Level>)

  datatype BBO = BBO(
    bidPrice: Price, askPrice: Price, bidSize: Qty, askSize: Qty,
    bidVenue: Venue, askVenue: Venue, spread: Price, mid: Price,
    crossed: bool, valid: bool)

  const ZERO_BBO := BBO(0, 0, 0, 0, 0, 0, 0, 0, false, false)

  const VENUE_ORDER: seq<Venue> := [COINBASE, KRAKEN]

  type Tops = map<Venue, VenueTop>

  /** A ready venue with both sides: the only kind that quotes. */
  predicate Quotes(tops: Tops, v: Venue) {
    v in tops && tops[v].ready && tops[v].hasBid && tops[v].hasAsk
  }

  function BidOf(tops: Tops, v: Venue): Level requires v in tops { tops[v].bestBid }
  function AskOf(tops: Tops, v: Venue): Level requires v in tops { tops[v].bestAsk }

  /** Total size the quoting venues among `order` show at price p on one side. */
  function SizeAt(tops: Tops, order: seq<Venue>, s: Side, p: Price): int {
    if order == [] then 0
    else
      var v := order[|order| - 1];
      SizeAt(tops, order[..|order| - 1], s, p)
      + if !Quotes(tops, v) then 0
        else if s == Bid then (if BidOf(tops, v).price == p then BidOf(tops, v).qty else 0)
        else (if AskOf(tops, v).price == p then AskOf(tops, v).qty else 0)
  }

  predicate QuotesBid(tops: Tops, v: Venue, lv: Level) {
    Quotes(tops, v) && BidOf(tops, v).price == lv.price && BidOf(tops, v).qty == lv.qty
  }

  predicate QuotesAsk(tops: Tops, v: Venue, lv: Level) {
    Quotes(tops, v) && AskOf(tops, v).price == lv.price && AskOf(tops, v).qty == lv.qty
  }

  /** No venue that comes before v in `order` bids the same price and size. */
  ghost predicate FirstToBid(tops: Tops, order: seq<Venue>, v: Venue)
    requires v in tops
  {
    exists i ::
      0 <= i < |order| && order[i] == v && forall j :: 0 <= j < i ==> !QuotesBid(tops, order[j], BidOf(tops, v))
  }

  ghost predicate FirstToAsk(tops: Tops, order: seq<Venue>, v: Venue)
    requires v in tops
  {
    exists i ::
      0 <= i < |order| && order[i] == v && forall j :: 0 <= j < i ==> !QuotesAsk(tops, order[j], AskOf(tops, v))
  }

  /** bbo's bid half is the best bid among the quoting venues of `order`: at an equal price the sizes add up and the
      larger one is attributed, at an equal size too the earlier venue. */
  ghost predicate BestBidOver(tops: Tops, order: seq<Venue>, bbo: BBO) {
    && bbo.bidVenue in order && Quotes(tops, bbo.bidVenue) && BidOf(tops, bbo.bidVenue).price == bbo.bidPrice
    && (forall v :: v in order && Quotes(tops, v) ==> BidOf(tops, v).price <= bbo.bidPrice)
    && bbo.bidSize == Wrap64(SizeAt(tops, order, Bid, bbo.bidPrice))
    && (forall v :: v in order && Quotes(tops, v) && BidOf(tops, v).price == bbo.bidPrice ==>
          BidOf(tops, v).qty <= BidOf(tops, bbo.bidVenue).qty)
    && FirstToBid(tops, order, bbo.bidVenue)
  }

  ghost predicate BestAskOver(tops: Tops, order: seq<Venue>, bbo: BBO) {
    && bbo.askVenue in order && Quotes(tops, bbo.askVenue) && AskOf(tops, bbo.askVenue).price == bbo.askPrice
    && (forall v :: v in order && Quotes(tops, v) ==> bbo.askPrice <= AskOf(tops, v).price)
    && bbo.askSize == Wrap64(SizeAt(tops, order, Ask, bbo.askPrice))
    && (forall v :: v in order && Quotes(tops, v) && AskOf(tops, v).price == bbo.askPrice ==>
          AskOf(tops, v).qty <= AskOf(tops, bbo.askVenue).qty)
    && FirstToAsk(tops, order, bbo.askVenue)
  }

  /** bbo is the consolidation of tops. */
  ghost predicate Consolidates(tops: Tops, bbo: BBO) {
    && (bbo.valid <==> exists v :: v in VENUE_ORDER && Quotes(tops, v))
    && (!bbo.valid ==> bbo == ZERO_BBO)
    && (bbo.valid ==>
          && BestBidOver(tops, VENUE_ORDER, bbo)
          && BestAskOver(tops, VENUE_ORDER, bbo)
          && bbo.spread == Wrap64(bbo.askPrice - bbo.bidPrice)
          && bbo.mid == TruncDiv(Wrap64(bbo.bidPrice + bbo.askPrice), 2)
          && (bbo.crossed <==> bbo.bidPrice >= bbo.askPrice))
  }

  lemma {:induction false} SizeAtUnquoted(tops: Tops, order: seq<Venue>, s: Side, p: Price)
    requires forall v :: v in order && Quotes(tops, v) ==> (if s == Bid then BidOf(tops, v).price else AskOf(tops, v).price) != p
    ensures SizeAt(tops, order, s, p) == 0
  {
    if order != [] {
      SizeAtUnquoted(tops, order[..|order| - 1], s, p);
    }
  }

  /** Max of the bids; sizes add up at a shared price; the larger size is attributed. */
  function MeetBid(bbo: BBO, vt: VenueTop, v: Venue): BBO {
    if vt.bestBid.price > bbo.bidPrice then
      bbo.(bidPrice := vt.bestBid.price, bidSize := vt.bestBid.qty, bidVenue := v)
    else if vt.bestBid.price == bbo.bidPrice then
      bbo.(bidVenue := if vt.bestBid.qty > bbo.bidSize then v else bbo.bidVenue,
           bidSize := Wrap64(bbo.bidSize + vt.bestBid.qty))
    else bbo
  }

  function MeetAsk(bbo: BBO, vt: VenueTop, v: Venue): BBO {
    if vt.bestAsk.price < bbo.askPrice then
      bbo.(askPrice := vt.bestAsk.price, askSize := vt.bestAsk.qty, askVenue := v)
    else if vt.bestAsk.price == bbo.askPrice then
      bbo.(askVenue := if vt.bestAsk.qty > bbo.askSize then v else bbo.askVenue,
           askSize := Wrap64(bbo.askSize + vt.bestAsk.qty))
    else bbo
  }

  lemma SizeSnoc(tops: Tops, order: seq<Venue>, v: Venue, s: Side, p: Price)
    requires Quotes(tops, v)
    ensures var lv := if s == Bid then BidOf(tops, v) else AskOf(tops, v);
      SizeAt(tops, order + [v], s, p) == SizeAt(tops, order, s, p) + if lv.price == p then lv.qty else 0
  {
    assert (order + [v])[..|order|] == order;
  }

  /** One more venue leaves the attribution as it was, or takes it over from venues that quote something else. */
  lemma FirstStays(tops: Tops, order: seq<Venue>, v: Venue, w: Venue)
    requires v in tops
    ensures FirstToBid(tops, order, v) ==> FirstToBid(tops, order + [w], v)
    ensures FirstToAsk(tops, order, v) ==> FirstToAsk(tops, order + [w], v)
  {
    hide QuotesBid, QuotesAsk;
    var all := order + [w];
    assert forall i :: 0 <= i < |order| ==> all[i] == order[i];
  }

  lemma FirstTakes(tops: Tops, order: seq<Venue>, v: Venue)
    requires v in tops
    ensures (forall w :: w in order ==> !QuotesBid(tops, w, BidOf(tops, v))) ==> FirstToBid(tops, order + [v], v)
    ensures (forall w :: w in order ==> !QuotesAsk(tops, w, AskOf(tops, v))) ==> FirstToAsk(tops, order + [v], v)
  {
    hide QuotesBid, QuotesAsk;
    var all := order + [v];
    assert all[|order|] == v && forall i :: 0 <= i < |order| ==> all[i] == order[i] && all[i] in order;
  }

  lemma {:induction false} MeetBidBest(tops: Tops, seen: seq<Venue>, v: Venue, bbo: BBO)
    requires BestBidOver(tops, seen, bbo) && Quotes(tops, v)
    requires bbo.bidSize == SizeAt(tops, seen, Bid, bbo.bidPrice) == BidOf(tops, bbo.bidVenue).qty
    ensures BestBidOver(tops, seen + [v], MeetBid(bbo, tops[v], v))
  {
    hide FirstToBid, FirstToAsk, SizeAt;
    assert forall w :: w in seen + [v] <==> w in seen || w == v;
    SizeSnoc(tops, seen, v, Bid, MeetBid(bbo, tops[v], v).bidPrice);
    FirstStays(tops, seen, bbo.bidVenue, v);
    FirstTakes(tops, seen, v);
    if tops[v].bestBid.price > bbo.bidPrice {
      SizeAtUnquoted(tops, seen, Bid, tops[v].bestBid.price);
    }
  }

  lemma {:induction false} MeetAskBest(tops: Tops, seen: seq<Venue>, v: Venue, bbo: BBO)
    requires BestAskOver(tops, seen, bbo) && Quotes(tops, v)
    requires bbo.askSize == SizeAt(tops, seen, Ask, bbo.askPrice) == AskOf(tops, bbo.askVenue).qty
    ensures BestAskOver(tops, seen + [v], MeetAsk(bbo, tops[v], v))
  {
    hide FirstToBid, FirstToAsk, SizeAt;
    assert forall w :: w in seen + [v] <==> w in seen || w == v;
    SizeSnoc(tops, seen, v, Ask, MeetAsk(bbo, tops[v], v).askPrice);
    FirstStays(tops, seen, bbo.askVenue, v);
    FirstTakes(tops, seen, v);
    if tops[v].bestAsk.price < bbo.askPrice {
      SizeAtUnquoted(tops, seen, Ask, tops[v].bestAsk.price);
    }
  }

  /** bbo is the consolidation of the venues of `order`, before spread, mid and the crossed flag. */
  ghost predicate BestOver(tops: Tops, order: seq<Venue>, bbo: BBO) {
    if exists v :: v in order && Quotes(tops, v) then
      bbo.valid && BestBidOver(tops, order, bbo) && BestAskOver(tops, order, bbo)
    else bbo == ZERO_BBO
  }

  /** The sizes carried so far are those of the attributed venues, unaggregated. */
  ghost predicate Unshared(tops: Tops, order: seq<Venue>, bbo: BBO) {
    bbo.valid ==>
      && Quotes(tops, bbo.bidVenue) && Quotes(tops, bbo.askVenue)
      && bbo.bidSize == SizeAt(tops, order, Bid, bbo.bidPrice) == BidOf(tops, bbo.bidVenue).qty
      && bbo.askSize == SizeAt(tops, order, Ask, bbo.askPrice) == AskOf(tops, bbo.askVenue).qty
  }

  /** One venue's turn. */
  function Meet(tops: Tops, bbo: BBO, v: Venue): BBO {
    if !Quotes(tops, v) then bbo
    else if !bbo.valid then
      BBO(BidOf(tops, v).price, AskOf(tops, v).price, BidOf(tops, v).qty, AskOf(tops, v).qty, v, v, 0, 0, false, true)
    else MeetAsk(MeetBid(bbo, tops[v], v), tops[v], v)
  }

  lemma {:induction false} JoinBest(tops: Tops, seen: seq<Venue>, bbo: BBO, v: Venue)
    requires BestBidOver(tops, seen, bbo) && BestAskOver(tops, seen, bbo) && Quotes(tops, v) && bbo.valid
    requires Unshared(tops, seen, bbo)
    ensures var next := Meet(tops, bbo, v);
      next.valid && BestBidOver(tops, seen + [v], next) && BestAskOver(tops, seen + [v], next)
  {
    hide SizeAt, Wrap64;
    MeetBidBest(tops, seen, v, bbo);
    MeetAskBest(tops, seen, v, MeetBid(bbo, tops[v], v));
  }

  lemma {:induction false} FirstBest(tops: Tops, seen: seq<Venue>, v: Venue)
    requires Quotes(tops, v) && forall w :: w in seen ==> !Quotes(tops, w)
    ensures var next := Meet(tops, ZERO_BBO, v);
      next.valid && BestBidOver(tops, seen + [v], next) && BestAskOver(tops, seen + [v], next)
    ensures seen == [] ==> Unshared(tops, [v], Meet(tops, ZERO_BBO, v))
  {
    hide FirstToBid, FirstToAsk;
    FirstTakes(tops, seen, v);
    assert (seen + [v])[..|seen|] == seen;
    assert v in seen + [v];
    SizeAtUnquoted(tops, seen, Bid, BidOf(tops, v).price);
    SizeAtUnquoted(tops, seen, Ask, AskOf(tops, v).price);
  }

  lemma {:induction false} MeetBest(tops: Tops, seen: seq<Venue>, bbo: BBO, v: Venue)
    requires BestOver(tops, seen, bbo) && Unshared(tops, seen, bbo)
    ensures BestOver(tops, seen + [v], Meet(tops, bbo, v))
    ensures seen == [] ==> Unshared(tops, [v], Meet(tops, bbo, v))
  {
    hide BestBidOver, BestAskOver, Quotes, SizeAt, Unshared, Meet;
    assert forall w :: w in seen + [v] <==> w in seen || w == v;
    if !Quotes(tops, v) {
      NotMet(tops, seen, bbo, v);
    } else if bbo.valid {
      JoinBest(tops, seen, bbo, v);
    } else {
      FirstBest(tops, seen, v);
    }
  }

  lemma {:induction false} NotMet(tops: Tops, seen: seq<Venue>, bbo: BBO, v: Venue)
    requires BestOver(tops, seen, bbo) && !Quotes(tops, v)
    ensures BestOver(tops, seen + [v], Meet(tops, bbo, v))
    ensures seen == [] ==> Unshared(tops, [v], Meet(tops, bbo, v))
  {
    hide FirstToBid, FirstToAsk, Wrap64;
    if bbo.valid {
      FirstStays(tops, seen, bbo.bidVenue, v);
      FirstStays(tops, seen, bbo.askVenue, v);
    }
    assert (seen + [v])[..|seen|] == seen;
  }

  lemma NothingMet(tops: Tops)
    ensures VENUE_ORDER[..0] == [] && BestOver(tops, [], ZERO_BBO) && Unshared(tops, [], ZERO_BBO)
  {
  }

  lemma Finished(tops: Tops, bbo: BBO)
    requires BestOver(tops, VENUE_ORDER, bbo)
    ensures Consolidates(tops, if !bbo.valid then bbo else bbo.(
      spread := Wrap64(bbo.askPrice - bbo.bidPrice), mid := TruncDiv(Wrap64(bbo.bidPrice + bbo.askPrice), 2),
      crossed := bbo.bidPrice >= bbo.askPrice))
  {
    hide SizeAt, Wrap64;
  }

  method Consolidate(tops: Tops) returns (bbo: BBO)
    ensures Consolidates(tops, bbo)
  {
    hide BestOver, BestBidOver, BestAskOver, Unshared, SizeAt, Consolidates;
    bbo := ZERO_BBO;
    NothingMet(tops);
    for i := 0 to |VENUE_ORDER|
      invariant BestOver(tops, VENUE_ORDER[..i], bbo)
      // Only the second of the two venues can meet a price already quoted.
      invariant i <= 1 ==> Unshared(tops, VENUE_ORDER[..i], bbo)
    {
      var v := VENUE_ORDER[i];
      MeetBest(tops, VENUE_ORDER[..i], bbo, v);
      assert VENUE_ORDER[..i + 1] == VENUE_ORDER[..i] + [v] && (i == 0 ==> VENUE_ORDER[..1] == [v]);
      if !Quotes(tops, v) {
        continue;
      }
      if !bbo.valid {
        bbo := Meet(tops, bbo, v);
        continue;
      }
      bbo := MeetBid(bbo, tops[v], v);
      bbo := MeetAsk(bbo, tops[v], v);
    }
    assert VENUE_ORDER[..|VENUE_ORDER|] == VENUE_ORDER;
    Finished(tops, bbo);
    if !bbo.valid {
      return;
    }
    bbo := bbo.(spread := Wrap64(bbo.askPrice - bbo.bidPrice),
                mid := TruncDiv(Wrap64(bbo.bidPrice + bbo.askPrice), 2),
                crossed := bbo.bidPrice >= bbo.askPrice);
  }

  /** A crossed consolidation of single-venue books that are not crossed takes its two halves from different venues. */
  lemma {:induction false} CrossNeedsTwoVenues(tops: Tops, bbo: BBO)
    requires Consolidates(tops, bbo)
    requires forall v :: Quotes(tops, v) ==> BidOf(tops, v).price < AskOf(tops, v).price
    ensures bbo.crossed ==>
      && bbo.bidVenue != bbo.askVenue && Quotes(tops, bbo.bidVenue) && Quotes(tops, bbo.askVenue)
      && BidOf(tops, bbo.bidVenue).price >= AskOf(tops, bbo.askVenue).price
    ensures bbo.valid && bbo.bidVenue == bbo.askVenue ==> !bbo.crossed
  {
  }
}
