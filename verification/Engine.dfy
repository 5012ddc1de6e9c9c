/** The single writer: owns every venue's book and publishes immutable snapshots. */
module Engine {
  import opened Common
  import opened SideSpec
  import opened Checksum
  import opened EngineSpec
  import opened Consolidate
  import opened Book

  ghost function LadderOf(a: array?<Level>): seq<Level>
    reads a
  {
    if a == null then [] else a[..]
  }

  /** vt is the top of book b of venue v. */
  ghost predicate IsTopOf(vt: VenueTop, v: Venue, b: BookVal)
    reads vt.bids, vt.asks
  {
    && vt.venue == v && vt.ready == b.ready
    && (vt.hasBid <==> b.bids != map[]) && (vt.hasAsk <==> b.asks != map[])
    && (vt.hasBid ==> TopN(false, b.bids, 1) == [vt.bestBid])
    && (vt.hasAsk ==> TopN(true, b.asks, 1) == [vt.bestAsk])
    && LadderOf(vt.bids) == (if b.ready then TopN(false, b.bids, CHECKSUM_DEPTH) else [])
    && LadderOf(vt.asks) == (if b.ready then TopN(true, b.asks, CHECKSUM_DEPTH) else [])
  }

  /** A published view. Readers may hold one for ever. */
  class Snapshot {
    var venues: Tops
    var consolidated: BBO
    var crossVenueCrossed: bool
    var spreadTicks: Price
    /** The ladder arrays it owns. */
    ghost const ladders: set<array<Level>>

    /** It shows these books and their consolidation, from storage of its own. */
    ghost predicate Shows(books: Books)
      reads this, ladders
    {
      && venues.Keys == books.Keys
      && (forall v :: v in venues ==>
            && (venues[v].bids != null ==> venues[v].bids in ladders)
            && (venues[v].asks != null ==> venues[v].asks in ladders)
            && IsTopOf(venues[v], v, books[v]))
      && Consolidates(venues, consolidated)
      && crossVenueCrossed == consolidated.crossed
      && spreadTicks == if consolidated.valid then consolidated.spread else 0
    }

    constructor (venues: Tops, consolidated: BBO, ghost ladders: set<array<Level>>)
      ensures this.venues == venues && this.consolidated == consolidated && this.ladders == ladders
      ensures crossVenueCrossed == consolidated.crossed
      ensures spreadTicks == if consolidated.valid then consolidated.spread else 0
    {
      this.venues, this.consolidated, this.ladders := venues, consolidated, ladders;
      crossVenueCrossed := consolidated.crossed;
      spreadTicks := if consolidated.valid then consolidated.spread else 0;
    }
  }

  /** The atomic pointer readers load, with the ghost record of all it ever held. */
  class Publisher {
    var current: Snapshot?
    ghost var history: seq<Snapshot>
    /** The books each snapshot was taken of. */
    ghost var views: seq<Books>

    /** Every snapshot ever stored still shows the books it was taken of. */
    ghost predicate Valid()
      reads this, history, set s, a | s in history && a in s.ladders :: a
    {
      && |views| == |history|
      && current == (if history == [] then null else history[|history| - 1])
      && forall i :: 0 <= i < |history| ==> history[i].Shows(views[i])
    }

    constructor ()
      ensures Valid() && history == []
    {
      current, history, views := null, [], [];
    }

    method Store(s: Snapshot, ghost books: Books)
      requires Valid() && s.Shows(books)
      modifies this
      ensures Valid() && current == s
      ensures history == old(history) + [s] && views == old(views) + [books]
    {
      current := s;
      history := history + [s];
      views := views + [books];
    }
  }

  class Engine {
    const cfg: Config
    const pub: Publisher
    const books: map<Venue, Book>
    /** The venues whose feed gave the engine a resync callback. */
    const wired: set<Venue>
    const recording: bool
    /** The resync callbacks made, in order. */
    var requests: seq<Venue>
    /** What the sink was handed, in order. */
    var recorded: seq<Event>
    /** The books' values. */
    ghost var view: Books
    /** The storage of the books, each in its own part of it. */
    ghost var Repr: set<object>

    ghost predicate OwnsBooks()
      reads this`Repr, Repr
    {
      && (forall v :: v in books ==> books[v] in Repr && books[v].Repr <= Repr && books[v].Valid())
      && (forall v, w :: v in books && w in books && v != w ==> books[v].Repr !! books[w].Repr)
    }

    ghost predicate Viewed()
      reads this`view, books.Values, set v | v in books :: books[v].bids, set v | v in books :: books[v].asks
    {
      view.Keys == books.Keys && forall v :: v in books ==> books[v].Value() == view[v]
    }

    /** What is published lies outside what the engine may write. */
    ghost predicate Detached()
      reads this`Repr, pub
    {
      && this !in Repr && pub !in Repr
      && (forall s: Snapshot :: s in pub.history ==> s !in Repr)
      && (forall s: Snapshot, a :: s in pub.history && a in s.ladders ==> a !in Repr)
    }

    ghost predicate Valid()
      reads this`Repr, this`view, Repr, pub, pub.history, set s, a | s in pub.history && a in s.ladders :: a
    {
      OwnsBooks() && Viewed() && Detached() && pub.Valid()
    }

    constructor (pub: Publisher, venues: set<Venue>, wired: set<Venue>, cfg: Config, recording: bool)
      requires pub.Valid() && pub.history == []
      ensures Valid() && fresh(Repr)
      ensures this.pub == pub && this.cfg == cfg && this.wired == wired
      ensures view == map v | v in venues :: EMPTY_BOOK
      ensures requests == [] && recorded == [] && this.recording == recording
    {
      hide Snapshot.Shows, Book.Valid, Book.Value;
      this.pub, this.cfg, this.wired, this.recording := pub, cfg, wired, recording;
      requests, recorded := [], [];
      var bs, owned := NewBooks(venues);
      books := bs;
      Repr := owned;
      view := map v | v in venues :: EMPTY_BOOK;
    }

    static method NewBooks(venues: set<Venue>) returns (bs: map<Venue, Book>, ghost owned: set<object>)
      ensures bs.Keys == venues && fresh(owned)
      ensures forall v :: v in bs ==>
        && bs[v] in owned && bs[v].Valid() && bs[v].Repr <= owned && bs[v].Value() == EMPTY_BOOK
      ensures forall v, w :: v in bs && w in bs && v != w ==> bs[v].Repr !! bs[w].Repr
    {
      bs, owned := map[], {};
      var left := venues;
      while left != {}
        invariant left <= venues && bs.Keys == venues - left && fresh(owned)
        invariant forall v :: v in bs ==>
          && bs[v] in owned && bs[v].Valid() && bs[v].Repr <= owned && bs[v].Value() == EMPTY_BOOK
        invariant forall v, w :: v in bs && w in bs && v != w ==> bs[v].Repr !! bs[w].Repr
      {
        var v :| v in left;
        var b := new Book();
        assert b.Repr !! owned;
        bs := bs[v := b];
        owned := owned + b.Repr;
        left := left - {v};
      }
    }

    /** Marks the venue's book not ready and asks its feed to reconnect. */
    method TriggerResync(v: Venue, bk: Book)
      requires bk.Valid() && this !in bk.Repr
      modifies this`requests, bk.Repr
      ensures bk.Valid() && fresh(bk.Repr - old(bk.Repr)) && bk.Value() == EMPTY_BOOK
      ensures requests == old(requests) + if v in wired then [v] else []
    {
      bk.Invalidate();
      if v in wired {
        requests := requests + [v];
      }
    }

    /** Compares the top-10 checksum, unless a side is thin; a mismatch resyncs. */
    method VerifyChecksum(bk: Book, ev: Event)
      requires bk.Valid() && this !in bk.Repr
      modifies this`requests, bk.Repr
      ensures bk.Valid() && fresh(bk.Repr - old(bk.Repr))
      ensures var b := old(bk.Value());
        var ok := Thin(b) || TopChecksum(cfg.crc, b) == ev.checksum;
        && bk.Value() == (if ok then b else EMPTY_BOOK)
        && requests == old(requests) + if !ok && ev.venue in wired then [ev.venue] else []
    {
      hide TopN;
      var nb := bk.Depth(Bid);
      var na := bk.Depth(Ask);
      if nb < CHECKSUM_DEPTH || na < CHECKSUM_DEPTH {
        return;
      }
      var asks := bk.TopLevels(Ask, CHECKSUM_DEPTH);
      var bids := bk.TopLevels(Bid, CHECKSUM_DEPTH);
      var sum := BookChecksum(Pairs(asks[..]), Pairs(bids[..]), cfg.crc);
      if sum != ev.checksum {
        TriggerResync(ev.venue, bk);
      }
    }

    /** The checks after a book changed. */
    method CheckBook(bk: Book, ev: Event)
      requires bk.Valid() && this !in bk.Repr
      modifies this`requests, bk.Repr
      ensures bk.Valid() && fresh(bk.Repr - old(bk.Repr))
      ensures bk.Value() == Checked(cfg, ev.venue, old(bk.Value()), ev)
      ensures requests == old(requests)
        + if !Sound(cfg, ev.venue, old(bk.Value()), ev) && ev.venue in wired then [ev.venue] else []
    {
      var crossed := bk.IsCrossedOrLocked();
      if crossed {
        TriggerResync(ev.venue, bk);
      } else if ev.venue == KRAKEN {
        VerifyChecksum(bk, ev);
      }
    }

    /** The tail shared by snapshots and updates: truncate a Kraken book, then check. */
    method TruncateAndCheck(bk: Book, ev: Event)
      requires bk.Valid() && this !in bk.Repr
      modifies this`requests, bk.Repr
      ensures bk.Valid() && fresh(bk.Repr - old(bk.Repr))
      ensures var b := if ev.venue == KRAKEN then Truncated(old(bk.Value()), cfg.depth) else old(bk.Value());
        && bk.Value() == Checked(cfg, ev.venue, b, ev)
        && requests == old(requests) + if !Sound(cfg, ev.venue, b, ev) && ev.venue in wired then [ev.venue] else []
    {
      if ev.venue == KRAKEN { bk.Truncate(cfg.depth); }
      CheckBook(bk, ev);
    }

    method ApplyToBook(bk: Book, ev: Event)
      requires bk.Valid() && this !in bk.Repr
      modifies this`requests, bk.Repr
      ensures bk.Valid() && fresh(bk.Repr - old(bk.Repr))
      ensures bk.Value() == StepBook(cfg, ev.venue, old(bk.Value()), ev)
      ensures requests == old(requests)
        + if Resyncs(cfg, ev.venue, old(bk.Value()), ev) && ev.venue in wired then [ev.venue] else []
    {
      match ev.kind
      case KindSnapshot =>
        bk.ApplySnapshot(ev.bids, ev.asks);
        TruncateAndCheck(bk, ev);
      case KindUpdate =>
        if !bk.ready {
          return;
        }
        bk.ApplyUpdate(ev.bids, ev.asks);
        TruncateAndCheck(bk, ev);
      case _ =>
    }

    /** Reads one venue's top of book into fresh storage. */
    method TopOf(v: Venue, bk: Book) returns (vt: VenueTop)
      requires bk.Valid()
      ensures IsTopOf(vt, v, bk.Value())
      ensures (vt.bids != null ==> fresh(vt.bids)) && (vt.asks != null ==> fresh(vt.asks))
    {
      var none := Level(0, 0, "", "");
      var bb := bk.bids.Best();
      var ba := bk.asks.Best();
      vt := VenueTop(v, bk.ready, bb.Some?, ba.Some?,
                     if bb.Some? then bb.value else none, if ba.Some? then ba.value else none, null, null);
      if bk.ready {
        var bids := bk.TopLevels(Bid, CHECKSUM_DEPTH);
        var asks := bk.TopLevels(Ask, CHECKSUM_DEPTH);
        vt := vt.(bids := bids, asks := asks);
      }
    }

    method ReadTop(v: Venue) returns (vt: VenueTop)
      requires OwnsBooks() && Viewed() && v in books
      ensures IsTopOf(vt, v, view[v])
      ensures (vt.bids != null ==> fresh(vt.bids)) && (vt.asks != null ==> fresh(vt.asks))
    {
      vt := TopOf(v, books[v]);
    }

    /** Reads every venue's top of book, in whatever order the map gives them. */
    method ReadTops() returns (tops: Tops, ghost made: set<array<Level>>)
      requires OwnsBooks() && Viewed() && view.Keys == books.Keys
      ensures tops.Keys == books.Keys && fresh(made)
      ensures forall v :: v in tops ==>
        && (tops[v].bids != null ==> tops[v].bids in made)
        && (tops[v].asks != null ==> tops[v].asks in made)
        && v in view && IsTopOf(tops[v], v, view[v])
    {
      hide IsTopOf, OwnsBooks, Viewed;
      var left := books.Keys;
      tops, made := map[], {};
      while left != {}
        invariant left <= books.Keys && tops.Keys == books.Keys - left && fresh(made)
        invariant forall v :: v in tops ==>
          && (tops[v].bids != null ==> tops[v].bids in made)
          && (tops[v].asks != null ==> tops[v].asks in made)
          && v in view && IsTopOf(tops[v], v, view[v])
      {
        var v :| v in left;
        var vt := ReadTop(v);
        tops := tops[v := vt];
        left := left - {v};
        if vt.bids != null { made := made + {vt.bids}; }
        if vt.asks != null { made := made + {vt.asks}; }
      }
    }

    /** Builds a fresh snapshot of all books. */
    method Build() returns (s: Snapshot)
      requires OwnsBooks() && Viewed()
      ensures fresh(s) && fresh(s.ladders) && s.Shows(view)
    {
      hide OwnsBooks, IsTopOf, Consolidates;
      var tops, made := ReadTops();
      var bbo := Consolidate.Consolidate(tops);
      s := new Snapshot(tops, bbo, made);
    }

    /** Builds a fresh snapshot and stores it. */
    method Publish()
      requires Valid()
      modifies pub
      ensures Valid() && pub.current != null && fresh(pub.current) && fresh(pub.current.ladders)
      ensures pub.history == old(pub.history) + [pub.current]
      ensures pub.views == old(pub.views) + [view]
    {
      hide OwnsBooks, Viewed, Snapshot.Shows;
      var s := Build();
      pub.Store(s, view);
    }

    /** Applies a book event to its venue's book; every other book stays as it was. */
    method ChangeOne(ev: Event)
      requires OwnsBooks() && Viewed() && this !in Repr && ev.venue in books
      modifies this`requests, Repr
      ensures view.Keys == books.Keys && old(books[ev.venue].Repr) <= Repr
      ensures books[ev.venue].Valid() && fresh(books[ev.venue].Repr - old(books[ev.venue].Repr))
      ensures books[ev.venue].Value() == StepBook(cfg, ev.venue, view[ev.venue], ev)
      ensures forall v :: v in books && v != ev.venue ==>
        && books[v].Valid() && books[v].Repr == old(books[v].Repr) && books[v].Value() == view[v]
        && books[v] in Repr && books[v].Repr <= Repr
      ensures forall v, w :: v in books && w in books && v != w ==> books[v].Repr !! books[w].Repr
      ensures forall v :: v in books ==> this !in books[v].Repr
      ensures requests == old(requests)
        + if Resyncs(cfg, ev.venue, view[ev.venue], ev) && ev.venue in wired then [ev.venue] else []
    {
      hide StepBook, Resyncs, Book.Valid, Book.Value;
      ApplyToBook(books[ev.venue], ev);
      forall v | v in books && v != ev.venue
        ensures books[v].Valid() && books[v].Repr == old(books[v].Repr) && books[v].Value() == view[v]
      {
        assert books[v].Repr !! old(books[ev.venue].Repr);
      }
    }

    /** Takes the storage of a changed book back into the engine's own. */
    ghost method Absorb(v: Venue)
      requires v in books && Viewed()
      requires forall w :: w in books ==> books[w].Valid() && this !in books[w].Repr
      requires forall w :: w in books && w != v ==> books[w] in Repr && books[w].Repr <= Repr
      requires forall w, x :: w in books && x in books && w != x ==> books[w].Repr !! books[x].Repr
      modifies this`Repr
      ensures OwnsBooks() && Viewed() && Repr == old(Repr) + books[v].Repr
    {
      hide Book.Valid, Book.Value;
      Repr := Repr + books[v].Repr;
    }

    ghost method Note(v: Venue)
      requires v in books && view.Keys == books.Keys
      requires forall w :: w in books ==> this !in books[w].Repr && books[w].Valid()
      requires forall w :: w in books && w != v ==> books[w].Value() == view[w]
      modifies this`view
      ensures Viewed() && view == old(view)[v := books[v].Value()]
      ensures forall w :: w in books ==> books[w].Valid()
    {
      hide Book.Valid, Book.Value;
      view := view[v := books[v].Value()];
    }

    method ChangeBook(ev: Event)
      requires OwnsBooks() && Viewed() && this !in Repr && ev.venue in books
      modifies this`requests, this`view, this`Repr, Repr
      ensures OwnsBooks() && Viewed() && old(Repr) <= Repr && fresh(Repr - old(Repr))
      ensures view == StepBooks(cfg, old(view), ev)
      ensures requests == old(requests)
        + if Resyncs(cfg, ev.venue, old(view)[ev.venue], ev) && ev.venue in wired then [ev.venue] else []
    {
      hide OwnsBooks, Viewed, Book.Valid, Book.Value, StepBook, Resyncs;
      ChangeOne(ev);
      Note(ev.venue);
      Absorb(ev.venue);
    }

    /** The same, with everything published left alone. */
    method UpdateBook(ev: Event)
      requires Valid() && ev.venue in books
      modifies this`requests, this`view, this`Repr, Repr
      ensures Valid() && old(Repr) <= Repr && fresh(Repr - old(Repr))
      ensures view == StepBooks(cfg, old(view), ev)
      ensures requests == old(requests) + AskedBy(cfg, old(view), wired, ev)
      ensures forall s: Snapshot :: s in pub.history ==> unchanged(s)
      ensures forall s: Snapshot, a :: s in pub.history && a in s.ladders ==> unchanged(a)
    {
      hide OwnsBooks, Book.Value, StepBook, Resyncs, Snapshot.Shows;
      ChangeBook(ev);
    }

    /** Applies one event and publishes. Trades and untracked venues change nothing at all. */
    method Apply(ev: Event)
      requires Valid()
      modifies this`requests, this`view, this`Repr, pub, Repr
      ensures Valid() && fresh(Repr - old(Repr))
      ensures view == StepBooks(cfg, old(view), ev)
      ensures requests == old(requests) + AskedBy(cfg, old(view), wired, ev)
      ensures if ev.kind == KindTrade || ev.venue !in books
        then pub.history == old(pub.history) && pub.views == old(pub.views)
        else pub.current != null && fresh(pub.current) && fresh(pub.current.ladders)
             && pub.history == old(pub.history) + [pub.current] && pub.views == old(pub.views) + [view]
    {
      if ev.kind == KindTrade {
        return;
      }
      if ev.venue !in books {
        return;
      }
      hide OwnsBooks, Viewed, StepBook, StepBooks, Resyncs, AskedBy, Snapshot.Shows;
      UpdateBook(ev);
      Publish();
    }

    /** Consumes events in order: each is handed to the sink first, then applied. */
    method Run(evs: seq<Event>)
      requires Valid()
      modifies this`requests, this`recorded, this`view, this`Repr, pub, Repr
      ensures Valid()
      ensures view == RunBooks(cfg, old(view), evs)
      ensures recorded == old(recorded) + if recording then evs else []
      ensures requests == old(requests) + Asked(cfg, old(view), wired, evs)
      // Whatever had been published is still there, every field and ladder as it was.
      ensures old(pub.history) <= pub.history
      ensures forall s: Snapshot :: s in old(pub.history) ==> unchanged(s)
      ensures forall s: Snapshot, a :: s in old(pub.history) && a in s.ladders ==> unchanged(a)
      // One snapshot was published per book event of a tracked venue, of the books after it; so the current one shows
      // the books of now, and each one shows the books of some moment of the run.
      ensures pub.views == old(pub.views) + Shown(cfg, old(view), evs)
      ensures Shown(cfg, old(view), evs) != [] ==> pub.current != null && pub.current.Shows(view)
      ensures forall i :: |old(pub.views)| <= i < |pub.views| ==> Reached(cfg, old(view), evs, pub.views[i])
    {
      hide Valid, RunBooks, StepBooks, Shown, Asked, AskedBy, Reached, Snapshot.Shows;
      NothingRun(cfg, view, wired);
      for i := 0 to |evs|
        invariant Valid() && fresh(Repr - old(Repr)) && view.Keys == old(view).Keys
        invariant view == RunBooks(cfg, old(view), evs[..i])
        invariant recorded == old(recorded) + if recording then evs[..i] else []
        invariant requests == old(requests) + Asked(cfg, old(view), wired, evs[..i])
        invariant old(pub.history) <= pub.history
        invariant pub.views == old(pub.views) + Shown(cfg, old(view), evs[..i])
        invariant forall s: Snapshot :: s in old(pub.history) ==> s in pub.history && unchanged(s)
        invariant forall s: Snapshot, a :: s in old(pub.history) && a in s.ladders ==> unchanged(a)
      {
        RunSnoc(cfg, old(view), wired, evs, i);
        Consume(evs[i]);
        assert forall s: Snapshot :: s in old(pub.history) ==> s in pub.history;
      }
      assert evs[..|evs|] == evs;
      ShownReached(cfg, old(view), evs);
      LastShown(cfg, old(view), evs);
      CurrentIsLast();
    }

    lemma CurrentIsLast()
      requires Valid()
      ensures pub.views != [] ==> pub.current != null && pub.current.Shows(pub.views[|pub.views| - 1])
    {
      hide Snapshot.Shows, OwnsBooks, Viewed, Detached;
    }

    /** One turn of the loop. */
    method Consume(ev: Event)
      requires Valid()
      modifies this`requests, this`recorded, this`view, this`Repr, pub, Repr
      ensures Valid() && fresh(Repr - old(Repr)) && view.Keys == old(view).Keys
      ensures view == StepBooks(cfg, old(view), ev)
      ensures recorded == old(recorded) + if recording then [ev] else []
      ensures requests == old(requests) + AskedBy(cfg, old(view), wired, ev)
      ensures old(pub.history) <= pub.history
      ensures pub.views == old(pub.views) + if Publishes(old(view), ev) then [view] else []
      ensures forall s: Snapshot :: s in old(pub.history) ==> unchanged(s)
      ensures forall s: Snapshot, a :: s in old(pub.history) && a in s.ladders ==> unchanged(a)
    {
      hide OwnsBooks, StepBook, Resyncs, Snapshot.Shows;
      if recording {
        recorded := recorded + [ev];
      }
      Apply(ev);
    }

    /** The best n levels of one venue's side; nil for a venue the engine does not track. */
    method Levels(v: Venue, s: Side, n: nat) returns (out: array?<Level>)
      requires OwnsBooks() && Viewed()
      ensures out == null <==> v !in books
      ensures out != null ==> fresh(out)
      ensures out != null && s == Ask ==> out[..] == TopN(true, view[v].asks, n)
      ensures out != null && s == Bid ==> out[..] == TopN(false, view[v].bids, n)
    {
      if v !in books {
        return null;
      }
      out := books[v].TopLevels(s, n);
    }
  }

  lemma NothingRun(cfg: Config, books: Books, wired: set<Venue>)
    ensures RunBooks(cfg, books, []) == books && Shown(cfg, books, []) == [] && Asked(cfg, books, wired, []) == []
  {
  }

  lemma RunSnoc(cfg: Config, books: Books, wired: set<Venue>, evs: seq<Event>, i: nat)
    requires i < |evs|
    ensures var before, next := RunBooks(cfg, books, evs[..i]), RunBooks(cfg, books, evs[..i + 1]);
      && next == StepBooks(cfg, before, evs[i])
      && Shown(cfg, books, evs[..i + 1])
         == Shown(cfg, books, evs[..i]) + (if Publishes(books, evs[i]) then [next] else [])
      && Asked(cfg, books, wired, evs[..i + 1])
         == Asked(cfg, books, wired, evs[..i]) + AskedBy(cfg, before, wired, evs[i])
  {
    hide StepBooks, AskedBy, Publishes;
    assert evs[..i + 1][..i] == evs[..i];
  }

  lemma {:induction false} ShownReached(cfg: Config, books: Books, evs: seq<Event>)
    ensures forall i :: 0 <= i < |Shown(cfg, books, evs)| ==> Reached(cfg, books, evs, Shown(cfg, books, evs)[i])
  {
    hide StepBooks, Publishes;
    if evs != [] {
      var n := |evs| - 1;
      ShownReached(cfg, books, evs[..n]);
      forall i | 0 <= i < |Shown(cfg, books, evs)| ensures Reached(cfg, books, evs, Shown(cfg, books, evs)[i]) {
        if i < |Shown(cfg, books, evs[..n])| {
          var k :| 0 <= k <= n && Shown(cfg, books, evs)[i] == RunBooks(cfg, books, evs[..n][..k]);
          assert evs[..n][..k] == evs[..k];
        } else {
          assert evs[..|evs|] == evs;
        }
      }
    }
  }

  /** What does not publish does not change a book, so the last snapshot shows the books of now. */
  lemma {:induction false} LastShown(cfg: Config, books: Books, evs: seq<Event>)
    ensures RunBooks(cfg, books, evs).Keys == books.Keys
    ensures var shown := Shown(cfg, books, evs);
      shown != [] ==> shown[|shown| - 1] == RunBooks(cfg, books, evs)
  {
    if evs != [] {
      LastShown(cfg, books, evs[..|evs| - 1]);
      hide StepBook;
    }
  }
}
