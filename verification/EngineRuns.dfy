/** What holds of the books over every run of the engine. */
module EngineRuns {
  import opened Common
  import opened SideSpec
  import opened EngineSpec

  /** A book is either empty and not ready, or ready, well keyed and strictly uncrossed. */
  ghost predicate Safe(b: BookVal) {
    && Keyed(b.bids) && Keyed(b.asks)
    && (!b.ready ==> b == EMPTY_BOOK)
    && (b.ready ==> forall p, q :: p in b.bids && q in b.asks ==> p < q)
  }

  /** A ready Kraken book fits the depth and, unless thin, has the given top-10 checksum. */
  ghost predicate FitsKraken(cfg: Config, b: BookVal, sum: Uint32) {
    b.ready ==>
      && (cfg.depth >= 0 ==> |b.bids| <= cfg.depth && |b.asks| <= cfg.depth)
      && (!Thin(b) ==> TopChecksum(cfg.crc, b) == sum)
  }

  predicate IsBookEvent(ev: Event) {
    ev.kind == KindSnapshot || ev.kind == KindUpdate
  }

  /** The checksum carried by the last book event, or d when there is none. */
  function LastSum(evs: seq<Event>, d: Uint32): Uint32 {
    if evs == [] then d
    else if IsBookEvent(evs[|evs| - 1]) then evs[|evs| - 1].checksum
    else LastSum(evs[..|evs| - 1], d)
  }

  lemma {:induction false} KeptIsKeyed(isAsk: bool, m: Levels, n: int)
    requires Keyed(m)
    ensures Keyed(KeepBest(isAsk, m, n))
    ensures n >= 0 ==> |KeepBest(isAsk, m, n)| <= n
  {
    if n >= 0 {
      KeepBestIsPrefix(isAsk, m, n);
    }
  }

  lemma {:induction false} StepSafe(cfg: Config, v: Venue, b: BookVal, ev: Event)
    requires Safe(b)
    ensures Safe(StepBook(cfg, v, b, ev))
    ensures v == KRAKEN && Touches(b, ev) ==> FitsKraken(cfg, StepBook(cfg, v, b, ev), ev.checksum)
  {
    if Touches(b, ev) {
      var from := if ev.kind == KindSnapshot then EMPTY_BOOK else b;
      SetLevelsKeyed(from.bids, ev.bids);
      SetLevelsKeyed(from.asks, ev.asks);
      KeptIsKeyed(false, SetLevels(from.bids, ev.bids), cfg.depth);
      KeptIsKeyed(true, SetLevels(from.asks, ev.asks), cfg.depth);
      var next := Applied(cfg, v, from, ev);
      assert Keyed(next.bids) && Keyed(next.asks) && next.ready;
    }
  }

  /** Over every run of one venue's events the book is safe, and a ready Kraken book matches
      the checksum of the last book event. */
  lemma {:induction false} RunSafe(cfg: Config, v: Venue, evs: seq<Event>)
    ensures Safe(RunBook(cfg, v, EMPTY_BOOK, evs))
    ensures v == KRAKEN ==> FitsKraken(cfg, RunBook(cfg, v, EMPTY_BOOK, evs), LastSum(evs, 0))
  {
    if evs != [] {
      var before := evs[..|evs| - 1];
      RunSafe(cfg, v, before);
      StepSafe(cfg, v, RunBook(cfg, v, EMPTY_BOOK, before), evs[|evs| - 1]);
    }
  }

  /** Each venue's book is driven by that venue's events alone. */
  lemma {:induction false} VenuesIndependent(cfg: Config, books: Books, evs: seq<Event>, v: Venue)
    requires v in books
    ensures v in RunBooks(cfg, books, evs)
    ensures RunBooks(cfg, books, evs)[v] == RunBook(cfg, v, books[v], Project(v, evs))
  {
    if evs != [] {
      var before, ev, mine := evs[..|evs| - 1], evs[|evs| - 1], Project(v, evs);
      VenuesIndependent(cfg, books, before, v);
      if ev.venue == v {
        assert mine[..|mine| - 1] == Project(v, before);
      } else {
        assert mine == Project(v, before);
      }
    }
  }

  lemma {:induction false} RunBooksKeys(cfg: Config, books: Books, evs: seq<Event>)
    ensures RunBooks(cfg, books, evs).Keys == books.Keys
  {
    if evs != [] {
      RunBooksKeys(cfg, books, evs[..|evs| - 1]);
    }
  }

  /** Every sequence of events leaves every book safe and every ready Kraken book verified. */
  lemma {:induction false} EngineSafe(cfg: Config, venues: set<Venue>, evs: seq<Event>, v: Venue)
    requires v in venues
    ensures var books := RunBooks(cfg, map w | w in venues :: EMPTY_BOOK, evs);
      && v in books && Safe(books[v])
      && (v == KRAKEN ==> FitsKraken(cfg, books[v], LastSum(Project(KRAKEN, evs), 0)))
  {
    VenuesIndependent(cfg, map w | w in venues :: EMPTY_BOOK, evs, v);
    RunSafe(cfg, v, Project(v, evs));
  }

  /** Two event streams with the same events per venue leave the same books, however they were merged. */
  lemma {:induction false} MergeIndependent(cfg: Config, books: Books, xs: seq<Event>, ys: seq<Event>)
    requires forall v :: v in books ==> Project(v, xs) == Project(v, ys)
    ensures RunBooks(cfg, books, xs) == RunBooks(cfg, books, ys)
  {
    RunBooksKeys(cfg, books, xs);
    RunBooksKeys(cfg, books, ys);
    forall v | v in books ensures RunBooks(cfg, books, xs)[v] == RunBooks(cfg, books, ys)[v] {
      VenuesIndependent(cfg, books, xs, v);
      VenuesIndependent(cfg, books, ys, v);
    }
  }

  /** zs interleaves xs and ys, keeping the order of each. */
  ghost predicate Interleaves(xs: seq<Event>, ys: seq<Event>, zs: seq<Event>) {
    if zs == [] then xs == [] && ys == []
    else
      var z, before := zs[|zs| - 1], zs[..|zs| - 1];
      || (xs != [] && xs[|xs| - 1] == z && Interleaves(xs[..|xs| - 1], ys, before))
      || (ys != [] && ys[|ys| - 1] == z && Interleaves(xs, ys[..|ys| - 1], before))
  }

  ghost predicate AllFrom(v: Venue, evs: seq<Event>) {
    forall i :: 0 <= i < |evs| ==> evs[i].venue == v
  }

  lemma {:induction false} ProjectMerge(v: Venue, w: Venue, xs: seq<Event>, ys: seq<Event>, zs: seq<Event>)
    requires v != w && AllFrom(v, xs) && AllFrom(w, ys) && Interleaves(xs, ys, zs)
    ensures Project(v, zs) == xs && Project(w, zs) == ys
    decreases |zs|
  {
    hide Project;
    ProjectEnd(v, zs);
    ProjectEnd(w, zs);
    if zs != [] {
      var z, before := zs[|zs| - 1], zs[..|zs| - 1];
      if xs != [] && xs[|xs| - 1] == z && Interleaves(xs[..|xs| - 1], ys, before) {
        ProjectMerge(v, w, xs[..|xs| - 1], ys, before);
        assert xs == xs[..|xs| - 1] + [z];
      } else {
        ProjectMerge(v, w, xs, ys[..|ys| - 1], before);
        assert ys == ys[..|ys| - 1] + [z];
      }
    }
  }

  lemma ProjectEnd(v: Venue, zs: seq<Event>)
    ensures Project(v, zs) == if zs == [] then [] else
      Project(v, zs[..|zs| - 1]) + if zs[|zs| - 1].venue == v then [zs[|zs| - 1]] else []
  {
  }

  /** Any merge of the two feeds gives each venue the book of its own feed. */
  lemma {:induction false} AnyMerge(cfg: Config, v: Venue, w: Venue, xs: seq<Event>, ys: seq<Event>, zs: seq<Event>)
    requires v != w && AllFrom(v, xs) && AllFrom(w, ys) && Interleaves(xs, ys, zs)
    ensures RunBooks(cfg, map[v := EMPTY_BOOK, w := EMPTY_BOOK], zs)
      == map[v := RunBook(cfg, v, EMPTY_BOOK, xs), w := RunBook(cfg, w, EMPTY_BOOK, ys)]
  {
    var start: Books := map[v := EMPTY_BOOK, w := EMPTY_BOOK];
    ProjectMerge(v, w, xs, ys, zs);
    RunBooksKeys(cfg, start, zs);
    VenuesIndependent(cfg, start, zs, v);
    VenuesIndependent(cfg, start, zs, w);
  }

  lemma {:induction false} RunBookAppend(cfg: Config, v: Venue, b: BookVal, xs: seq<Event>, ys: seq<Event>)
    ensures RunBook(cfg, v, b, xs + ys) == RunBook(cfg, v, RunBook(cfg, v, b, xs), ys)
  {
    if ys == [] {
      assert xs + ys == xs;
    } else {
      var all := xs + ys;
      assert all[..|all| - 1] == xs + ys[..|ys| - 1];
      RunBookAppend(cfg, v, b, xs, ys[..|ys| - 1]);
    }
  }

  /** A snapshot wipes the slate: whatever the book was, only what follows counts. */
  lemma {:induction false} SnapshotForgets(cfg: Config, v: Venue, b: BookVal, c: BookVal, evs: seq<Event>)
    requires exists i :: 0 <= i < |evs| && evs[i].kind == KindSnapshot
    ensures RunBook(cfg, v, b, evs) == RunBook(cfg, v, c, evs)
  {
    if evs[|evs| - 1].kind != KindSnapshot {
      SnapshotForgets(cfg, v, b, c, evs[..|evs| - 1]);
    }
  }

  /** The final book depends only on the venue's events from its last snapshot on. */
  lemma {:induction false} OnlySinceSnapshot(cfg: Config, v: Venue, b: BookVal, before: seq<Event>, since: seq<Event>)
    requires since != [] && since[0].kind == KindSnapshot
    ensures RunBook(cfg, v, b, before + since) == RunBook(cfg, v, EMPTY_BOOK, since)
  {
    RunBookAppend(cfg, v, b, before, since);
    SnapshotForgets(cfg, v, RunBook(cfg, v, b, before), EMPTY_BOOK, since);
  }

  /** A resync is requested exactly when a book event leaves its book not ready. */
  lemma {:induction false} ResyncEmpties(cfg: Config, v: Venue, b: BookVal, ev: Event)
    ensures Resyncs(cfg, v, b, ev) <==> Touches(b, ev) && StepBook(cfg, v, b, ev) == EMPTY_BOOK
    ensures b.ready && StepBook(cfg, v, b, ev) == EMPTY_BOOK ==> Resyncs(cfg, v, b, ev)
    ensures !b.ready && StepBook(cfg, v, b, ev).ready ==> ev.kind == KindSnapshot
  {
  }
}
