/** The engine's effect on the books, as functions on plain values. */
module EngineSpec {
  import opened Common
  import opened SideSpec
  import opened Checksum

  datatype BookVal = BookVal(bids: Levels, asks: Levels, ready: bool)

  const EMPTY_BOOK := BookVal(map[], map[], false)

  /** The subscribed Kraken depth and the checksum function. */
  datatype Config = Config(depth: int, crc: string -> Uint32)

  /** Levels per side the checksum and a published ladder cover. */
  const CHECKSUM_DEPTH: nat := 10

  /** Some bid is at or above some ask. */
  ghost predicate Crossed(b: BookVal) {
    exists p, q :: p in b.bids && q in b.asks && p >= q
  }

  ghost function Truncated(b: BookVal, depth: int): BookVal {
    b.(bids := KeepBest(false, b.bids, depth), asks := KeepBest(true, b.asks, depth))
  }

  ghost function TopChecksum(crc: string -> Uint32, b: BookVal): Uint32 {
    crc(Tokens(Pairs(TopN(true, b.asks, CHECKSUM_DEPTH))) + Tokens(Pairs(TopN(false, b.bids, CHECKSUM_DEPTH))))
  }

  predicate Thin(b: BookVal) {
    |b.bids| < CHECKSUM_DEPTH || |b.asks| < CHECKSUM_DEPTH
  }

  /** The book after both sides of an event were applied to b, before any check. */
  ghost function Applied(cfg: Config, v: Venue, b: BookVal, ev: Event): BookVal {
    var raw := BookVal(SetLevels(b.bids, ev.bids), SetLevels(b.asks, ev.asks), true);
    if v == KRAKEN then Truncated(raw, cfg.depth) else raw
  }

  /** The checks an applied book must pass to stay. */
  ghost predicate Sound(cfg: Config, v: Venue, b: BookVal, ev: Event) {
    !Crossed(b) && (v == KRAKEN && !Thin(b) ==> TopChecksum(cfg.crc, b) == ev.checksum)
  }

  ghost function Checked(cfg: Config, v: Venue, b: BookVal, ev: Event): BookVal {
    if Sound(cfg, v, b, ev) then b else EMPTY_BOOK
  }

  /** Does ev rewrite the book of its venue? An update before the first snapshot does not. */
  predicate Touches(b: BookVal, ev: Event) {
    ev.kind == KindSnapshot || (ev.kind == KindUpdate && b.ready)
  }

  ghost function StepBook(cfg: Config, v: Venue, b: BookVal, ev: Event): BookVal {
    if !Touches(b, ev) then b
    else Checked(cfg, v, Applied(cfg, v, if ev.kind == KindSnapshot then EMPTY_BOOK else b, ev), ev)
  }

  /** Does applying ev to b make the engine ask its feed for a resync? */
  ghost predicate Resyncs(cfg: Config, v: Venue, b: BookVal, ev: Event) {
    Touches(b, ev) && !StepBook(cfg, v, b, ev).ready
  }

  type Books = map<Venue, BookVal>

  ghost function StepBooks(cfg: Config, books: Books, ev: Event): Books {
    if ev.venue in books then books[ev.venue := StepBook(cfg, ev.venue, books[ev.venue], ev)] else books
  }

  ghost function RunBooks(cfg: Config, books: Books, evs: seq<Event>): Books {
    if evs == [] then books
    else StepBooks(cfg, RunBooks(cfg, books, evs[..|evs| - 1]), evs[|evs| - 1])
  }

  /** One venue's book driven by that venue's events alone. */
  ghost function RunBook(cfg: Config, v: Venue, b: BookVal, evs: seq<Event>): BookVal {
    if evs == [] then b
    else StepBook(cfg, v, RunBook(cfg, v, b, evs[..|evs| - 1]), evs[|evs| - 1])
  }

  /** The events of one venue, in order. */
  function Project(v: Venue, evs: seq<Event>): seq<Event> {
    if evs == [] then []
    else Project(v, evs[..|evs| - 1]) + if evs[|evs| - 1].venue == v then [evs[|evs| - 1]] else []
  }

  /** Trades and untracked venues publish nothing. */
  predicate Publishes(books: Books, ev: Event) {
    ev.kind != KindTrade && ev.venue in books
  }

  /** The books of the snapshots a run publishes, in order: one after every event that publishes. */
  ghost function Shown(cfg: Config, books: Books, evs: seq<Event>): seq<Books> {
    if evs == [] then []
    else
      Shown(cfg, books, evs[..|evs| - 1])
      + if Publishes(books, evs[|evs| - 1]) then [RunBooks(cfg, books, evs)] else []
  }

  /** The resync callbacks one event makes. */
  ghost function AskedBy(cfg: Config, books: Books, wired: set<Venue>, ev: Event): seq<Venue> {
    if ev.venue in books && Resyncs(cfg, ev.venue, books[ev.venue], ev) && ev.venue in wired then [ev.venue] else []
  }

  /** The resync callbacks a run makes, in order. */
  ghost function Asked(cfg: Config, books: Books, wired: set<Venue>, evs: seq<Event>): seq<Venue> {
    if evs == [] then []
    else
      var n := |evs| - 1;
      Asked(cfg, books, wired, evs[..n]) + AskedBy(cfg, RunBooks(cfg, books, evs[..n]), wired, evs[n])
  }

  /** The books at some moment of a run. */
  ghost predicate Reached(cfg: Config, books: Books, evs: seq<Event>, at: Books) {
    exists k :: 0 <= k <= |evs| && at == RunBooks(cfg, books, evs[..k])
  }
}
