/** What every published snapshot says about the books of the run it was taken of. */
module Published {
  import opened Common
  import opened SideSpec
  import opened EngineSpec
  import opened EngineRuns
  import opened Consolidate
  import opened Engine

  /** A venue that quotes: tracked, ready, with levels on both sides. */
  predicate TwoSided(books: Books, v: Venue) {
    v in VENUE_ORDER && v in books && books[v].ready && books[v].bids != map[] && books[v].asks != map[]
  }

  /** What the two-sided venues among `order` hold at price p of one side. */
  function SizeOn(books: Books, order: seq<Venue>, s: Side, p: Price): int {
    if order == [] then 0
    else
      var v := order[|order| - 1];
      SizeOn(books, order[..|order| - 1], s, p)
      + if !TwoSided(books, v) then 0
        else if s == Bid then (if p in books[v].bids then books[v].bids[p].qty else 0)
        else (if p in books[v].asks then books[v].asks[p].qty else 0)
  }

  /** The best bid and offer over the two-sided venues, and all that is offered there. */
  ghost predicate IsBestOf(bbo: BBO, books: Books) {
    && (bbo.valid <==> exists v :: TwoSided(books, v))
    && (bbo.valid ==>
          && TwoSided(books, bbo.bidVenue) && bbo.bidPrice in books[bbo.bidVenue].bids
          && TwoSided(books, bbo.askVenue) && bbo.askPrice in books[bbo.askVenue].asks
          && (forall v, p :: TwoSided(books, v) && p in books[v].bids ==> p <= bbo.bidPrice)
          && (forall v, p :: TwoSided(books, v) && p in books[v].asks ==> bbo.askPrice <= p)
          && bbo.bidSize == Wrap64(SizeOn(books, VENUE_ORDER, Bid, bbo.bidPrice))
          && bbo.askSize == Wrap64(SizeOn(books, VENUE_ORDER, Ask, bbo.askPrice)))
  }

  /** What the tops say about a venue's book. */
  ghost predicate Mirrors(tops: Tops, books: Books, v: Venue) {
    && (Quotes(tops, v) <==> TwoSided(books, v))
    && (TwoSided(books, v) ==>
          && BidOf(tops, v).price in books[v].bids && books[v].bids[BidOf(tops, v).price] == BidOf(tops, v)
          && AskOf(tops, v).price in books[v].asks && books[v].asks[AskOf(tops, v).price] == AskOf(tops, v)
          && (forall p :: p in books[v].bids ==> p <= BidOf(tops, v).price)
          && (forall p :: p in books[v].asks ==> AskOf(tops, v).price <= p))
  }

  /** The single best level of a side is at its best price. */
  lemma {:induction false} TopIsBest(isAsk: bool, m: Levels, lv: Level)
    requires Keyed(m) && TopN(isAsk, m, 1) == [lv]
    ensures lv.price in m && m[lv.price] == lv
    ensures forall p :: p in m ==> p == lv.price || Better(isAsk, lv.price, p)
  {
    var ps := Rank(isAsk, m.Keys);
    assert |TopN(isAsk, m, 1)| == 1 && TopN(isAsk, m, 1)[0] == m[ps[0]];
    forall p | p in m ensures p == lv.price || Better(isAsk, lv.price, p) {
      assert p in ps;
    }
  }

  lemma {:induction false} ShownTop(s: Snapshot, books: Books, v: Venue)
    requires s.Shows(books) && v in VENUE_ORDER && (v in books ==> Safe(books[v]))
    ensures Mirrors(s.venues, books, v)
  {
    if v in books {
      assert IsTopOf(s.venues[v], v, books[v]);
      if TwoSided(books, v) {
        TopIsBest(false, books[v].bids, s.venues[v].bestBid);
        TopIsBest(true, books[v].asks, s.venues[v].bestAsk);
      }
    }
  }

  /** In every snapshot published in any run the consolidated bid and ask are the best over the ready two-sided venues,
      and a cross takes its halves from two different ready venues. */
  lemma {:induction false} EveryPublished(cfg: Config, venues: set<Venue>, evs: seq<Event>, s: Snapshot, books: Books)
    requires Reached(cfg, map v | v in venues :: EMPTY_BOOK, evs, books) && s.Shows(books)
    ensures IsBestOf(s.consolidated, books)
    ensures s.crossVenueCrossed <==> s.consolidated.valid && s.consolidated.bidPrice >= s.consolidated.askPrice
    ensures s.crossVenueCrossed ==> s.consolidated.bidVenue != s.consolidated.askVenue
  {
    var start: Books := map v | v in venues :: EMPTY_BOOK;
    var k :| 0 <= k <= |evs| && books == RunBooks(cfg, start, evs[..k]);
    RunBooksKeys(cfg, start, evs[..k]);
    forall v | v in books ensures Safe(books[v]) {
      EngineSafe(cfg, venues, evs[..k], v);
    }
    forall v | v in VENUE_ORDER ensures Mirrors(s.venues, books, v) {
      ShownTop(s, books, v);
    }
    hide RunBooks, Safe, IsBestOf;
    BestOfTops(s.venues, s.consolidated, books);
    if s.consolidated.valid && s.consolidated.bidVenue == s.consolidated.askVenue {
      OneVenueUncrossed(s.consolidated, books);
    }
  }

  /** At a price no venue beats, the sizes shown are the sizes held. */
  lemma {:induction false} SizesAgree(tops: Tops, books: Books, order: seq<Venue>, p: Price)
    requires forall v :: v in order ==> v in VENUE_ORDER && Mirrors(tops, books, v)
    ensures (forall v :: v in order && Quotes(tops, v) ==> BidOf(tops, v).price <= p) ==>
      SizeAt(tops, order, Bid, p) == SizeOn(books, order, Bid, p)
    ensures (forall v :: v in order && Quotes(tops, v) ==> p <= AskOf(tops, v).price) ==>
      SizeAt(tops, order, Ask, p) == SizeOn(books, order, Ask, p)
  {
    if order != [] {
      SizesAgree(tops, books, order[..|order| - 1], p);
      assert Mirrors(tops, books, order[|order| - 1]);
    }
  }

  lemma {:induction false} BestOfTops(tops: Tops, bbo: BBO, books: Books)
    requires Consolidates(tops, bbo) && forall v :: v in VENUE_ORDER ==> Mirrors(tops, books, v)
    ensures IsBestOf(bbo, books)
  {
    if bbo.valid {
      SizesAgree(tops, books, VENUE_ORDER, bbo.bidPrice);
      SizesAgree(tops, books, VENUE_ORDER, bbo.askPrice);
    }
    hide SizeAt, SizeOn, Wrap64;
    if bbo.valid {
      assert Mirrors(tops, books, bbo.bidVenue) && Mirrors(tops, books, bbo.askVenue);
    }
  }

  lemma {:induction false} OneVenueUncrossed(bbo: BBO, books: Books)
    requires IsBestOf(bbo, books) && bbo.valid && bbo.bidVenue == bbo.askVenue
    requires forall v :: v in books ==> Safe(books[v])
    ensures bbo.bidPrice < bbo.askPrice
  {
  }
}
