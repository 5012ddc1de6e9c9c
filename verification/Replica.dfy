/** A truncated local book follows the venue's own book. */
module Replica {
  import opened Common
  import opened SideSpec
  import opened EngineSpec

  /** The last word of a message on price p. */
  function LastOn(lvs: seq<Level>, p: Price): Option<Level> {
    if lvs == [] then None
    else if lvs[|lvs| - 1].price == p then Some(lvs[|lvs| - 1])
    else LastOn(lvs[..|lvs| - 1], p)
  }

  /** What a message leaves at price p: its last word there, else what was there before. */
  lemma {:induction false} SetLevelsAt(m: Levels, lvs: seq<Level>, p: Price)
    ensures var last := LastOn(lvs, p);
      && (p in SetLevels(m, lvs) <==> if last.Some? then last.value.qty != 0 else p in m)
      && (p in SetLevels(m, lvs) ==> SetLevels(m, lvs)[p] == if last.Some? then last.value else m[p])
  {
    if lvs != [] && lvs[|lvs| - 1].price != p {
      SetLevelsAt(m, lvs[..|lvs| - 1], p);
    }
  }

  /** The message lvs reports the venue's change from was to now, as seen through its best `depth` levels:
      what it sets is true, what it deletes is not among them now, and it says everything about levels that changed,
      entered or were removed. Levels merely pushed below the depth may go unmentioned, or be deleted. */
  ghost predicate Reports(isAsk: bool, depth: int, was: Levels, now: Levels, lvs: seq<Level>) {
    && (forall p :: LastOn(lvs, p).Some? ==>
          var lv := LastOn(lvs, p).value;
          if lv.qty == 0 then p !in KeepBest(isAsk, now, depth) else p in now && now[p] == lv)
    && (forall p :: p in KeepBest(isAsk, now, depth) && (p !in KeepBest(isAsk, was, depth) || was[p] != now[p]) ==>
          LastOn(lvs, p).Some?)
    && (forall p :: p in KeepBest(isAsk, was, depth) && p !in now ==> LastOn(lvs, p).Some?)
  }

  lemma {:induction false} SubsetSize(a: set<Price>, b: set<Price>)
    requires a <= b
    ensures |a| <= |b|
  {
    assert b == a + (b - a);
  }

  lemma {:induction false} KeptBeatsRest(isAsk: bool, m: Levels, n: nat, t: Price, p: Price)
    requires t in KeepBest(isAsk, m, n) && p in m && p !in KeepBest(isAsk, m, n)
    ensures Better(isAsk, t, p)
  {
    if !Better(isAsk, t, p) {
      SubsetSize(Ahead(isAsk, m.Keys, p), Ahead(isAsk, m.Keys, t));
    }
  }

  /** A price below the best n of m has n prices ahead of it in any map that holds those n. */
  lemma {:induction false} StaysOut(isAsk: bool, a: Levels, m: Levels, n: nat, p: Price)
    requires KeepBest(isAsk, m, n).Keys <= a.Keys
    requires p in m && p !in KeepBest(isAsk, m, n)
    ensures |Ahead(isAsk, a.Keys, p)| >= n
  {
    var kept := KeepBest(isAsk, m, n).Keys;
    KeepBestIsPrefix(isAsk, m, n);
    SubsetSize(Ahead(isAsk, m.Keys, p), m.Keys);
    assert |kept| == n;
    forall t | t in kept ensures t in Ahead(isAsk, a.Keys, p) {
      KeptBeatsRest(isAsk, m, n, t, p);
    }
    SubsetSize(kept, Ahead(isAsk, a.Keys, p));
  }

  /** A map between the best n of m and m itself has the same best n. */
  lemma {:induction false} Sandwich(isAsk: bool, a: Levels, m: Levels, n: int)
    requires a.Keys <= m.Keys
    requires forall p :: p in KeepBest(isAsk, m, n) ==> p in a && a[p] == m[p]
    ensures KeepBest(isAsk, a, n) == KeepBest(isAsk, m, n)
  {
    if n >= 0 {
      forall p | p in a ensures p in KeepBest(isAsk, a, n) <==> p in KeepBest(isAsk, m, n) {
        if p in KeepBest(isAsk, m, n) {
          SubsetSize(Ahead(isAsk, a.Keys, p), Ahead(isAsk, m.Keys, p));
        } else {
          StaysOut(isAsk, a, m, n, p);
        }
      }
    }
  }

  /** Applying a report to the local top of the book and truncating gives the venue's new top. */
  lemma {:induction false} SideFollows(isAsk: bool, depth: int, was: Levels, now: Levels, lvs: seq<Level>)
    requires Reports(isAsk, depth, was, now, lvs)
    ensures KeepBest(isAsk, SetLevels(KeepBest(isAsk, was, depth), lvs), depth) == KeepBest(isAsk, now, depth)
  {
    var local := KeepBest(isAsk, was, depth);
    var a := SetLevels(local, lvs);
    forall p ensures p in a ==> p in now {
      SetLevelsAt(local, lvs, p);
    }
    forall p | p in KeepBest(isAsk, now, depth) ensures p in a && a[p] == now[p] {
      SetLevelsAt(local, lvs, p);
    }
    Sandwich(isAsk, a, now, depth);
  }

  /** The venue's own, complete book. */
  datatype Market = Market(bids: Levels, asks: Levels)

  /** Kraken is subscribed at a depth; any other venue sends its whole book. */
  function DepthOf(cfg: Config, v: Venue): int {
    if v == KRAKEN then cfg.depth else -1
  }

  /** What the engine should hold of a market. */
  ghost function ViewOf(cfg: Config, v: Venue, m: Market): BookVal {
    BookVal(KeepBest(false, m.bids, DepthOf(cfg, v)), KeepBest(true, m.asks, DepthOf(cfg, v)), true)
  }

  /** An uncrossed market, reported by an event that carries its checksum. */
  ghost predicate Tells(cfg: Config, v: Venue, was: Market, now: Market, ev: Event) {
    && Reports(false, DepthOf(cfg, v), was.bids, now.bids, ev.bids)
    && Reports(true, DepthOf(cfg, v), was.asks, now.asks, ev.asks)
    && !Crossed(ViewOf(cfg, v, now))
    && (v == KRAKEN ==> ev.checksum == TopChecksum(cfg.crc, ViewOf(cfg, v, now)))
  }

  const NO_MARKET := Market(map[], map[])

  predicate HasSnapshot(evs: seq<Event>) {
    exists i :: 0 <= i < |evs| && evs[i].kind == KindSnapshot
  }

  /** A feed session of an honest venue: markets[i] is its market when it sent evs[i]. Snapshots tell the whole
      market, updates tell what changed and come only after a snapshot, other events tell nothing. */
  ghost predicate HonestSession(cfg: Config, v: Venue, markets: seq<Market>, evs: seq<Event>) {
    |markets| == |evs| && (evs != [] ==>
      var n := |evs| - 1;
      && HonestSession(cfg, v, markets[..n], evs[..n])
      && match evs[n].kind {
           case KindSnapshot => Tells(cfg, v, NO_MARKET, markets[n], evs[n])
           case KindUpdate => HasSnapshot(evs[..n]) && Tells(cfg, v, markets[n - 1], markets[n], evs[n])
           case _ => n > 0 ==> markets[n] == markets[n - 1]
         })
  }

  lemma {:induction false} KeepNone(isAsk: bool, n: int)
    ensures KeepBest(isAsk, map[], n) == map[]
  {
  }

  /** One told event moves the engine's book from view to view, with no resync. */
  lemma {:induction false} StepFollows(cfg: Config, v: Venue, b: BookVal, was: Market, now: Market, ev: Event)
    requires (ev.kind == KindSnapshot && was == NO_MARKET) || (ev.kind == KindUpdate && b == ViewOf(cfg, v, was))
    requires Tells(cfg, v, was, now, ev)
    ensures StepBook(cfg, v, b, ev) == ViewOf(cfg, v, now) && !Resyncs(cfg, v, b, ev)
  {
    KeepNone(false, DepthOf(cfg, v));
    KeepNone(true, DepthOf(cfg, v));
    SideFollows(false, DepthOf(cfg, v), was.bids, now.bids, ev.bids);
    SideFollows(true, DepthOf(cfg, v), was.asks, now.asks, ev.asks);
    assert Applied(cfg, v, if ev.kind == KindSnapshot then EMPTY_BOOK else b, ev) == ViewOf(cfg, v, now);
  }

  /** Over any honest session, from any earlier state, the engine's book is the venue's own top of book after
      every event, and no event makes the engine ask for a resync. */
  lemma {:induction false} SessionFollows(cfg: Config, v: Venue, b: BookVal, markets: seq<Market>, evs: seq<Event>)
    requires HonestSession(cfg, v, markets, evs)
    ensures HasSnapshot(evs) ==> RunBook(cfg, v, b, evs) == ViewOf(cfg, v, markets[|evs| - 1])
    ensures evs != [] ==> !Resyncs(cfg, v, RunBook(cfg, v, b, evs[..|evs| - 1]), evs[|evs| - 1])
  {
    if evs != [] {
      var n := |evs| - 1;
      SessionFollows(cfg, v, b, markets[..n], evs[..n]);
      var was := RunBook(cfg, v, b, evs[..n]);
      match evs[n].kind
      case KindSnapshot => StepFollows(cfg, v, was, NO_MARKET, markets[n], evs[n]);
      case KindUpdate => StepFollows(cfg, v, was, markets[n - 1], markets[n], evs[n]);
      case _ =>
        if HasSnapshot(evs) {
          var i :| 0 <= i < |evs| && evs[i].kind == KindSnapshot;
          assert evs[..n][i].kind == KindSnapshot;
        }
    }
  }

  /** The ten levels the checksum covers are then the venue's own ten best. */
  lemma {:induction false} ViewTops(cfg: Config, v: Venue, m: Market)
    requires DepthOf(cfg, v) < 0 || DepthOf(cfg, v) >= CHECKSUM_DEPTH
    ensures TopN(false, ViewOf(cfg, v, m).bids, CHECKSUM_DEPTH) == TopN(false, m.bids, CHECKSUM_DEPTH)
    ensures TopN(true, ViewOf(cfg, v, m).asks, CHECKSUM_DEPTH) == TopN(true, m.asks, CHECKSUM_DEPTH)
  {
    if DepthOf(cfg, v) >= 0 {
      TopOfKept(false, m.bids, DepthOf(cfg, v), CHECKSUM_DEPTH);
      TopOfKept(true, m.asks, DepthOf(cfg, v), CHECKSUM_DEPTH);
    }
  }
}
