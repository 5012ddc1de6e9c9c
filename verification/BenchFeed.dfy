/** The benchmark's generated feed, and why it never makes the engine resync. */
module BenchFeed {
  import opened Common
  import opened SideSpec
  import opened Checksum
  import opened EngineSpec
  import opened FixedPoint
  import opened Replica

  const QTY_POOL: seq<string> := [
    "0.10000000", "1.54582015", "0.07990000", "2.00000000",
    "0.33100103", "5.12345678", "0.00100000", "3.14159265",
    "0.90000000", "1.00000001", "0.25000000", "7.77777777"]

  /** A slot is a price and a size, as strings. */
  predicate Parses(s: string) {
    IsDecimal(s) && NumVal(IntPart(s)) <= MAX_WHOLE
  }

  function LevelOf(slot: Pair): Level
    requires Parses(slot.0) && Parses(slot.1)
  {
    Level(Wrap64(Scaled(slot.0)), Wrap64(Scaled(slot.1)), slot.0, slot.1)
  }

  method MkLevel(slot: Pair) returns (lv: Level)
    requires Parses(slot.0) && Parses(slot.1)
    ensures lv == LevelOf(slot)
  {
    var p := ParseFixed(slot.0);
    var q := ParseFixed(slot.1);
    lv := Level(p.value, q.value, slot.0, slot.1);
  }

  predicate InPool(q: string) { q in QTY_POOL }

  function PoolAt(i: nat): (q: string)
    ensures InPool(q)
  {
    QTY_POOL[i % 12]
  }

  /** Ten price-ordered slots a side: bids 59999.9 down to 59999.0, asks 60000.0 up to 60000.9. */
  datatype Slots = Slots(bids: seq<Pair>, asks: seq<Pair>)

  function BidPrice(k: nat): string requires k < 10 { "59999" + "." + Dec(9 - k) }
  function AskPrice(k: nat): string requires k < 10 { "60000" + "." + Dec(k) }

  ghost predicate Regular(s: Slots) {
    && |s.bids| == 10 && |s.asks| == 10
    && (forall k :: 0 <= k < 10 ==> s.bids[k].0 == BidPrice(k) && InPool(s.bids[k].1))
    && (forall k :: 0 <= k < 10 ==> s.asks[k].0 == AskPrice(k) && InPool(s.asks[k].1))
  }

  function FirstSlots(): Slots {
    Slots(seq(10, k requires 0 <= k < 10 => (BidPrice(k), PoolAt(k))),
          seq(10, k requires 0 <= k < 10 => (AskPrice(k), PoolAt(k + 5))))
  }

  /** Event i overwrites the size of one slot: bids on even i, asks on odd. */
  function Overwrite(s: Slots, i: nat): Slots
    requires |s.bids| == 10 && |s.asks| == 10
  {
    var k, q := (i / 2) % 10, PoolAt(i * 7);
    if i % 2 == 0 then s.(bids := s.bids[k := (s.bids[k].0, q)])
    else s.(asks := s.asks[k := (s.asks[k].0, q)])
  }

  /** The slots after event i. */
  function SlotsAt(i: nat): (s: Slots)
    ensures |s.bids| == 10 && |s.asks| == 10
  {
    if i == 0 then FirstSlots() else Overwrite(SlotsAt(i - 1), i)
  }

  lemma {:induction false} SlotsRegular(i: nat)
    ensures Regular(SlotsAt(i))
  {
    hide Regular, Overwrite, FirstSlots;
    if i == 0 {
      FirstRegular();
    } else {
      SlotsRegular(i - 1);
      OverwriteRegular(SlotsAt(i - 1), i);
    }
  }

  lemma FirstRegular()
    ensures Regular(FirstSlots())
  {
    hide BidPrice, AskPrice, PoolAt, InPool;
  }

  lemma OverwriteRegular(s: Slots, i: nat)
    requires Regular(s)
    ensures Regular(Overwrite(s, i))
  {
    hide BidPrice, AskPrice, PoolAt, InPool;
  }

  lemma {:induction false} FiveDigits(s: string)
    requires |s| == 5 && AllDigits(s)
    ensures NumVal(s) == 10000 * Digit(s[0]) + 1000 * Digit(s[1]) + 100 * Digit(s[2]) + 10 * Digit(s[3]) + Digit(s[4])
  {
    var a, b, c, d := s[..1], s[..2], s[..3], s[..4];
    assert a[..0] == "" && b[..1] == a && c[..2] == b && d[..3] == c;
    assert NumVal(a) == Digit(s[0]);
    assert NumVal(b) == 10 * NumVal(a) + Digit(s[1]);
    assert NumVal(c) == 10 * NumVal(b) + Digit(s[2]);
    assert NumVal(d) == 10 * NumVal(c) + Digit(s[3]);
    assert NumVal(s) == 10 * NumVal(d) + Digit(s[4]);
  }

  /** A five-digit whole part with one decimal. */
  lemma {:induction false} PriceValue(whole: string, x: nat)
    requires |whole| == 5 && AllDigits(whole) && x < 10
    ensures Parses(whole + "." + Dec(x))
    ensures Scaled(whole + "." + Dec(x)) == NumVal(whole) * SCALE + x * 10_000_000
  {
    var s := whole + "." + Dec(x);
    assert |Dec(x)| == 1;
    DotIs(s, 5);
    assert IntPart(s) == whole && FracPart(s) == Dec(x);
    FiveDigits(whole);
    FracIsShifted(Dec(x));
    EightZeros();
    assert Pow10(8) == 10 * Pow10(7);
  }

  lemma {:induction false} BidPriceValue(k: nat)
    requires k < 10
    ensures Parses(BidPrice(k)) && Wrap64(Scaled(BidPrice(k))) == 59999 * SCALE + (9 - k) * 10_000_000
  {
    hide NumVal, Scaled, IsDecimal, Dec;
    PriceValue("59999", 9 - k);
    FiveDigits("59999");
  }

  lemma {:induction false} AskPriceValue(k: nat)
    requires k < 10
    ensures Parses(AskPrice(k)) && Wrap64(Scaled(AskPrice(k))) == 60000 * SCALE + k * 10_000_000
  {
    hide NumVal, Scaled, IsDecimal, Dec;
    PriceValue("60000", k);
    FiveDigits("60000");
  }

  /** One digit, a point, eight digits, not all zero. */
  lemma {:induction false} SmallQty(s: string, j: nat)
    requires |s| == 10 && s[1] == '.' && j < 10 && j != 1 && s[j] != '0'
    requires forall i :: 0 <= i < 10 && i != 1 ==> IsDigit(s[i])
    ensures Parses(s) && Wrap64(Scaled(s)) != 0
  {
    DotIs(s, 1);
    var a, f := s[..1], s[2..];
    assert IntPart(s) == a && FracPart(s) == f;
    assert NumVal(a) == Digit(s[0]) by { assert a[..0] == ""; }
    FracIsShifted(f);
    FracBound(f);
    if j > 0 {
      assert f[j - 2] != '0';
      HasDigit(f, j - 2);
    }
  }

  lemma {:induction false} HasDigit(s: string, j: nat)
    requires AllDigits(s) && j < |s| && s[j] != '0'
    ensures NumVal(s) > 0
  {
    if j < |s| - 1 {
      HasDigit(s[..|s| - 1], j);
    }
  }

  lemma {:induction false} PoolValue(q: string)
    requires InPool(q)
    ensures Parses(q) && Wrap64(Scaled(q)) != 0
  {
    var i :| 0 <= i < 12 && QTY_POOL[i] == q;
    var j := if q[0] != '0' then 0 else if q[2] != '0' then 2 else if q[3] != '0' then 3 else 4;
    SmallQty(q, j);
  }

  lemma {:induction false} SlotParses(s: Slots, k: nat)
    requires Regular(s) && k < 10
    ensures Parses(s.bids[k].0) && Parses(s.bids[k].1) && Parses(s.asks[k].0) && Parses(s.asks[k].1)
    ensures LevelOf(s.bids[k]).price == 59999 * SCALE + (9 - k) * 10_000_000 && LevelOf(s.bids[k]).qty != 0
    ensures LevelOf(s.asks[k]).price == 60000 * SCALE + k * 10_000_000 && LevelOf(s.asks[k]).qty != 0
  {
    BidPriceValue(k);
    AskPriceValue(k);
    PoolValue(s.bids[k].1);
    PoolValue(s.asks[k].1);
  }

  /** Every slot parses. */
  ghost predicate AllParse(slots: seq<Pair>) {
    forall k :: 0 <= k < |slots| ==> Parses(slots[k].0) && Parses(slots[k].1)
  }

  function LevelsOf(slots: seq<Pair>): (lvs: seq<Level>)
    requires AllParse(slots)
    ensures |lvs| == |slots| && forall k :: 0 <= k < |lvs| ==> lvs[k] == LevelOf(slots[k])
  {
    seq(|slots|, k requires 0 <= k < |slots| => LevelOf(slots[k]))
  }

  /** A list of levels with distinct prices, best first, and sizes that do not delete. */
  ghost predicate Ladder(isAsk: bool, lvs: seq<Level>) {
    && (forall i, j :: 0 <= i < j < |lvs| ==> Better(isAsk, lvs[i].price, lvs[j].price))
    && (forall i :: 0 <= i < |lvs| ==> lvs[i].qty != 0)
  }

  lemma {:induction false} SlotsLadder(s: Slots)
    requires Regular(s)
    ensures AllParse(s.bids) && Ladder(false, LevelsOf(s.bids))
    ensures AllParse(s.asks) && Ladder(true, LevelsOf(s.asks))
    ensures forall i, j :: 0 <= i < 10 && 0 <= j < 10 ==> LevelsOf(s.bids)[i].price < LevelsOf(s.asks)[j].price
  {
    hide Parses, LevelOf;
    forall k | 0 <= k < 10
      ensures Parses(s.bids[k].0) && Parses(s.bids[k].1) && Parses(s.asks[k].0) && Parses(s.asks[k].1)
      ensures LevelOf(s.bids[k]).price == 59999 * SCALE + (9 - k) * 10_000_000 && LevelOf(s.bids[k]).qty != 0
      ensures LevelOf(s.asks[k]).price == 60000 * SCALE + k * 10_000_000 && LevelOf(s.asks[k]).qty != 0
    {
      SlotParses(s, k);
    }
  }

  /** The last word of a ladder on the price of its k-th level is that level. */
  lemma {:induction false} LastOnLadder(isAsk: bool, lvs: seq<Level>, p: Price)
    requires Ladder(isAsk, lvs)
    ensures forall k :: 0 <= k < |lvs| && lvs[k].price == p ==> LastOn(lvs, p) == Some(lvs[k])
    ensures LastOn(lvs, p).Some? ==> exists k :: 0 <= k < |lvs| && lvs[k].price == p
  {
    if lvs != [] {
      LastOnLadder(isAsk, lvs[..|lvs| - 1], p);
    }
  }

  /** What a ladder builds from nothing: its own levels under their own prices. */
  lemma {:induction false} LadderBuilds(isAsk: bool, lvs: seq<Level>)
    requires Ladder(isAsk, lvs)
    ensures var m := SetLevels(map[], lvs);
      && (forall k :: 0 <= k < |lvs| ==> lvs[k].price in m && m[lvs[k].price] == lvs[k])
      && (forall p :: p in m ==> exists k :: 0 <= k < |lvs| && lvs[k].price == p)
  {
    var m := SetLevels(map[], lvs);
    forall p | p in m ensures exists k :: 0 <= k < |lvs| && lvs[k].price == p {
      SetLevelsAt(map[], lvs, p);
      LastOnLadder(isAsk, lvs, p);
    }
    forall k | 0 <= k < |lvs| ensures lvs[k].price in m && m[lvs[k].price] == lvs[k] {
      SetLevelsAt(map[], lvs, lvs[k].price);
      LastOnLadder(isAsk, lvs, lvs[k].price);
    }
  }

  function PricesIn(lvs: seq<Level>): (ps: seq<Price>)
    ensures |ps| == |lvs| && forall k :: 0 <= k < |ps| ==> ps[k] == lvs[k].price
  {
    seq(|lvs|, i requires 0 <= i < |lvs| => lvs[i].price)
  }

  lemma {:induction false} LadderRank(isAsk: bool, lvs: seq<Level>)
    requires Ladder(isAsk, lvs)
    ensures var m := SetLevels(map[], lvs);
      |m| == |lvs| && Rank(isAsk, m.Keys) == PricesIn(lvs)
  {
    hide SetLevels, Rank;
    var m, ps := SetLevels(map[], lvs), PricesIn(lvs);
    LadderBuilds(isAsk, lvs);
    forall p ensures p in ps <==> p in m {
      if p in m {
        var k :| 0 <= k < |lvs| && lvs[k].price == p;
        assert ps[k] == p;
      }
    }
    RankLength(isAsk, ps, m.Keys);
    RankUnique(isAsk, ps, Rank(isAsk, m.Keys), m.Keys);
  }

  /** A ladder of ten, built and listed again, is itself. */
  lemma {:induction false} LadderTop(isAsk: bool, lvs: seq<Level>)
    requires Ladder(isAsk, lvs) && |lvs| == 10
    ensures var m := SetLevels(map[], lvs);
      |m| == 10 && TopN(isAsk, m, 10) == lvs && KeepBest(isAsk, m, 10) == m
  {
    hide SetLevels, KeepBest, Rank, Ladder, Pick;
    var m := SetLevels(map[], lvs);
    LadderBuilds(isAsk, lvs);
    LadderRank(isAsk, lvs);
    AllKept(isAsk, m, 10);
    assert PricesIn(lvs)[..10] == PricesIn(lvs);
    PickAll(m, lvs);
  }

  lemma {:induction false} PickAll(m: Levels, lvs: seq<Level>)
    requires forall k :: 0 <= k < |lvs| ==> lvs[k].price in m && m[lvs[k].price] == lvs[k]
    ensures forall p :: p in PricesIn(lvs) ==> p in m
    ensures Pick(m, PricesIn(lvs)) == lvs
  {
  }

  /** The snapshot reports the whole ladder. */
  lemma {:induction false} SnapshotReports(isAsk: bool, lvs: seq<Level>)
    requires Ladder(isAsk, lvs) && |lvs| == 10
    ensures Reports(isAsk, 10, map[], SetLevels(map[], lvs), lvs)
  {
    hide KeepBest, TopN, SetLevels, LastOn;
    var m := SetLevels(map[], lvs);
    LadderTop(isAsk, lvs);
    KeepNone(isAsk, 10);
    forall p ensures p in m <==> LastOn(lvs, p).Some?
      ensures p in m ==> LastOn(lvs, p).value == m[p] && m[p].qty != 0
    {
      LadderBuilds(isAsk, lvs);
      LastOnLadder(isAsk, lvs, p);
    }
  }

  lemma {:induction false} LastOnOne(lv: Level, p: Price)
    ensures LastOn([lv], p) == if lv.price == p then Some(lv) else None
  {
  }

  /** Overwriting one level of a ladder changes the map at that price only. */
  lemma {:induction false} OverwriteAgrees(isAsk: bool, lvs: seq<Level>, k: nat, lv: Level, p: Price)
    requires Ladder(isAsk, lvs) && k < |lvs| && lv.price == lvs[k].price && lv.qty != 0
    ensures var was, now := SetLevels(map[], lvs), SetLevels(map[], lvs[k := lv]);
      && (p in was <==> p in now)
      && (p in now ==> if p == lv.price then now[p] == lv else now[p] == was[p])
      && lv.price in now
  {
    hide SetLevels;
    var upd := lvs[k := lv];
    assert upd[k] == lv;
    LadderBuilds(isAsk, lvs);
    LadderBuilds(isAsk, upd);
    if p in SetLevels(map[], lvs) {
      var i :| 0 <= i < |lvs| && lvs[i].price == p;
      assert upd[i].price == p;
    }
    if p in SetLevels(map[], upd) {
      var i :| 0 <= i < |upd| && upd[i].price == p;
      assert lvs[i].price == p;
    }
  }

  /** One overwritten size reports the change of the ladder. */
  lemma {:induction false} OverwriteReports(isAsk: bool, lvs: seq<Level>, k: nat, lv: Level)
    requires Ladder(isAsk, lvs) && |lvs| == 10 && k < 10 && lv.price == lvs[k].price && lv.qty != 0
    ensures Reports(isAsk, 10, SetLevels(map[], lvs), SetLevels(map[], lvs[k := lv]), [lv])
  {
    hide KeepBest, TopN, SetLevels, LastOn;
    var was, now := SetLevels(map[], lvs), SetLevels(map[], lvs[k := lv]);
    LadderTop(isAsk, lvs);
    LadderTop(isAsk, lvs[k := lv]);
    assert KeepBest(isAsk, was, 10) == was && KeepBest(isAsk, now, 10) == now;
    forall p ensures LastOn([lv], p) == if lv.price == p then Some(lv) else None {
      LastOnOne(lv, p);
    }
    OverwriteAgrees(isAsk, lvs, k, lv, lv.price);
    forall p ensures p in was <==> p in now
      ensures p in now && p != lv.price ==> now[p] == was[p]
    {
      OverwriteAgrees(isAsk, lvs, k, lv, p);
    }
  }

  lemma {:induction false} NothingReports(isAsk: bool, depth: int, m: Levels)
    ensures Reports(isAsk, depth, m, m, [])
  {
  }

  ghost function MarketOf(s: Slots): Market
    requires AllParse(s.bids) && AllParse(s.asks)
  {
    Market(SetLevels(map[], LevelsOf(s.bids)), SetLevels(map[], LevelsOf(s.asks)))
  }

  function SumOf(s: Slots, crc: string -> Uint32): Uint32 { crc(Tokens(s.asks) + Tokens(s.bids)) }

  /** The i-th generated event: a snapshot, then one overwritten slot each, with the checksum of the slots. */
  function EventOf(s: Slots, i: nat, crc: string -> Uint32): Event
    requires AllParse(s.bids) && AllParse(s.asks) && |s.bids| == 10 && |s.asks| == 10
  {
    var k := (i / 2) % 10;
    if i == 0 then Event(KRAKEN, KindSnapshot, LevelsOf(s.bids), LevelsOf(s.asks), SumOf(s, crc))
    else if i % 2 == 0 then Event(KRAKEN, KindUpdate, [LevelOf(s.bids[k])], [], SumOf(s, crc))
    else Event(KRAKEN, KindUpdate, [], [LevelOf(s.asks[k])], SumOf(s, crc))
  }

  lemma {:induction false} SlotsParse(i: nat)
    ensures SlotsFine(i)
  {
    SlotsRegular(i);
    SlotsLadder(SlotsAt(i));
  }

  method FillSlots() returns (bids: array<Pair>, asks: array<Pair>)
    ensures fresh(bids) && fresh(asks) && bids != asks
    ensures bids[..] == SlotsAt(0).bids && asks[..] == SlotsAt(0).asks
  {
    hide BidPrice, AskPrice, PoolAt;
    bids, asks := new Pair[10], new Pair[10];
    for i := 0 to 10
      invariant forall k :: 0 <= k < i ==> bids[k] == (BidPrice(k), PoolAt(k)) && asks[k] == (AskPrice(k), PoolAt(k + 5))
    {
      bids[i] := (BidPrice(i), PoolAt(i));
      asks[i] := (AskPrice(i), PoolAt(i + 5));
    }
  }

  method MkLevels(slots: array<Pair>) returns (lvs: seq<Level>)
    requires AllParse(slots[..])
    ensures lvs == LevelsOf(slots[..])
  {
    hide LevelOf, Parses;
    lvs := [];
    for k := 0 to slots.Length
      invariant lvs == LevelsOf(slots[..])[..k]
    {
      assert slots[..][k] == slots[k];
      var lv := MkLevel(slots[k]);
      lvs := lvs + [lv];
    }
  }

  /** Overwrites event i's slot in place and builds the event. */
  method OverwriteSlot(bids: array<Pair>, asks: array<Pair>, ghost was: Slots, i: nat, crc: string -> Uint32) returns (ev: Event)
    requires bids != asks && i > 0 && |was.bids| == |was.asks| == 10
    requires bids[..] == was.bids && asks[..] == was.asks
    requires var s := Overwrite(was, i); AllParse(s.bids) && AllParse(s.asks)
    modifies bids, asks
    ensures bids[..] == Overwrite(was, i).bids && asks[..] == Overwrite(was, i).asks
    ensures ev == EventOf(Overwrite(was, i), i, crc)
  {
    hide LevelOf, PoolAt, Parses;
    var idx, newQty := (i / 2) % 10, PoolAt(i * 7);
    ghost var s := Overwrite(was, i);
    var evBids, evAsks := [], [];
    if i % 2 == 0 {
      bids[idx] := (bids[idx].0, newQty);
      assert bids[..] == s.bids && bids[idx] == s.bids[idx];
      var lv := MkLevel(bids[idx]);
      evBids := [lv];
    } else {
      asks[idx] := (asks[idx].0, newQty);
      assert asks[..] == s.asks && asks[idx] == s.asks[idx];
      var lv := MkLevel(asks[idx]);
      evAsks := [lv];
    }
    var sum := BookChecksum(asks[..], bids[..], crc);
    ev := Event(KRAKEN, KindUpdate, evBids, evAsks, sum);
  }

  ghost predicate SlotsFine(i: nat) {
    Regular(SlotsAt(i)) && AllParse(SlotsAt(i).bids) && AllParse(SlotsAt(i).asks)
  }

  function EventAt(i: nat, crc: string -> Uint32): Event
    requires SlotsFine(i)
  {
    EventOf(SlotsAt(i), i, crc)
  }

  method SnapshotEvent(bids: array<Pair>, asks: array<Pair>, crc: string -> Uint32) returns (ev: Event)
    requires bids[..] == SlotsAt(0).bids && asks[..] == SlotsAt(0).asks
    ensures SlotsFine(0) && ev == EventAt(0, crc)
  {
    hide FirstSlots;
    SlotsParse(0);
    var snapBids := MkLevels(bids);
    var snapAsks := MkLevels(asks);
    var sum := BookChecksum(asks[..], bids[..], crc);
    ev := Event(KRAKEN, KindSnapshot, snapBids, snapAsks, sum);
  }

  method UpdateEvent(bids: array<Pair>, asks: array<Pair>, i: nat, crc: string -> Uint32) returns (ev: Event)
    requires bids != asks && i > 0
    requires bids[..] == SlotsAt(i - 1).bids && asks[..] == SlotsAt(i - 1).asks
    modifies bids, asks
    ensures bids[..] == SlotsAt(i).bids && asks[..] == SlotsAt(i).asks
    ensures SlotsFine(i) && ev == EventAt(i, crc)
  {
    hide Overwrite, EventOf;
    SlotsParse(i);
    ev := OverwriteSlot(bids, asks, SlotsAt(i - 1), i, crc);
  }

  /** One snapshot, then n - 1 single-slot updates; never fewer than one event. */
  method GenerateEvents(n: nat, crc: string -> Uint32) returns (events: seq<Event>)
    ensures |events| == Max(1, n)
    ensures forall i :: 0 <= i < |events| ==> SlotsFine(i) && events[i] == EventAt(i, crc)
  {
    hide EventAt, SlotsFine, SlotsAt;
    var bids, asks := FillSlots();
    var first := SnapshotEvent(bids, asks, crc);
    events := [first];
    for i := 1 to Max(1, n)
      invariant |events| == i && bids[..] == SlotsAt(i - 1).bids && asks[..] == SlotsAt(i - 1).asks
      invariant forall j :: 0 <= j < i ==> SlotsFine(j) && events[j] == EventAt(j, crc)
    {
      var ev := UpdateEvent(bids, asks, i, crc);
      events := events + [ev];
    }
  }

  /** The market after event i is exactly the ten slots a side, in slot order. */
  lemma {:induction false} MarketIsSlots(i: nat)
    requires SlotsFine(i)
    ensures var m, s := MarketOf(SlotsAt(i)), SlotsAt(i);
      && |m.bids| == 10 && TopN(false, m.bids, 10) == LevelsOf(s.bids) && KeepBest(false, m.bids, 10) == m.bids
      && |m.asks| == 10 && TopN(true, m.asks, 10) == LevelsOf(s.asks) && KeepBest(true, m.asks, 10) == m.asks
      && (forall p, q :: p in m.bids && q in m.asks ==> p < q)
  {
    hide Regular, KeepBest, TopN, SetLevels, AllParse, SlotsAt;
    var s := SlotsAt(i);
    SlotsLadder(s);
    LadderTop(false, LevelsOf(s.bids));
    LadderTop(true, LevelsOf(s.asks));
    LadderBuilds(false, LevelsOf(s.bids));
    LadderBuilds(true, LevelsOf(s.asks));
  }

  lemma {:induction false} PairsOfLevels(slots: seq<Pair>)
    requires AllParse(slots)
    ensures Pairs(LevelsOf(slots)) == slots
  {
  }

  /** What the two sides report is told with the right checksum, and the market is not crossed. */
  lemma {:induction false} ReportsTell(was: Market, i: nat, crc: string -> Uint32)
    requires SlotsFine(i)
    requires Reports(false, 10, was.bids, MarketOf(SlotsAt(i)).bids, EventAt(i, crc).bids)
    requires Reports(true, 10, was.asks, MarketOf(SlotsAt(i)).asks, EventAt(i, crc).asks)
    ensures Tells(Config(10, crc), KRAKEN, was, MarketOf(SlotsAt(i)), EventAt(i, crc))
  {
    hide Reports, Regular, KeepBest, TopN, SetLevels, AllParse, SlotsAt, Tokens, Pairs, LevelsOf, MarketOf;
    var s := SlotsAt(i);
    MarketIsSlots(i);
    PairsOfLevels(s.bids);
    PairsOfLevels(s.asks);
  }

  lemma {:induction false} OverwriteLevels(slots: seq<Pair>, k: nat, slot: Pair)
    requires k < |slots| && AllParse(slots) && AllParse(slots[k := slot])
    requires Parses(slot.0) && Parses(slot.1)
    ensures LevelsOf(slots[k := slot]) == LevelsOf(slots)[k := LevelOf(slot)]
  {
  }

  /** The generated events are an honest session: each tells the slots and carries their checksum. */
  lemma {:induction false} UpdateTells(i: nat, crc: string -> Uint32)
    requires i > 0 && SlotsFine(i) && SlotsFine(i - 1)
    ensures Tells(Config(10, crc), KRAKEN, MarketOf(SlotsAt(i - 1)), MarketOf(SlotsAt(i)), EventAt(i, crc))
  {
    hide Reports, SetLevels, Regular, AllParse, LevelOf, LevelsOf, Ladder;
    var s, was, k, q := SlotsAt(i), SlotsAt(i - 1), (i / 2) % 10, PoolAt(i * 7);
    SlotsLadder(was);
    SlotParses(s, k);
    SlotParses(was, k);
    if i % 2 == 0 {
      OverwriteLevels(was.bids, k, (was.bids[k].0, q));
      OverwriteReports(false, LevelsOf(was.bids), k, LevelOf(s.bids[k]));
      NothingReports(true, 10, MarketOf(s).asks);
    } else {
      OverwriteLevels(was.asks, k, (was.asks[k].0, q));
      OverwriteReports(true, LevelsOf(was.asks), k, LevelOf(s.asks[k]));
      NothingReports(false, 10, MarketOf(s).bids);
    }
    ReportsTell(MarketOf(was), i, crc);
  }

  lemma {:induction false} SnapshotTells(crc: string -> Uint32)
    requires SlotsFine(0)
    ensures Tells(Config(10, crc), KRAKEN, NO_MARKET, MarketOf(SlotsAt(0)), EventAt(0, crc))
  {
    hide Reports, SetLevels, FirstSlots, Tells;
    var s := SlotsAt(0);
    SlotsLadder(s);
    SnapshotReports(false, LevelsOf(s.bids));
    SnapshotReports(true, LevelsOf(s.asks));
    ReportsTell(NO_MARKET, 0, crc);
  }

  /** events is a generated feed. */
  ghost predicate Generated(events: seq<Event>, crc: string -> Uint32) {
    forall i :: 0 <= i < |events| ==> SlotsFine(i) && events[i] == EventAt(i, crc)
  }

  ghost function MarketAt(i: nat): Market
    requires SlotsFine(i)
  {
    MarketOf(SlotsAt(i))
  }

  lemma EventKinds(i: nat, crc: string -> Uint32)
    requires SlotsFine(i)
    ensures EventAt(i, crc).kind == if i == 0 then KindSnapshot else KindUpdate
  {
  }

  lemma {:induction false} FeedIsHonest(events: seq<Event>, crc: string -> Uint32, markets: seq<Market>)
    requires Generated(events, crc) && |markets| == |events|
    requires forall i :: 0 <= i < |events| ==> markets[i] == MarketAt(i)
    ensures HonestSession(Config(10, crc), KRAKEN, markets, events)
  {
    hide Tells, SlotsFine, SlotsAt, MarketOf, EventAt;
    if events != [] {
      var n := |events| - 1;
      FeedIsHonest(events[..n], crc, markets[..n]);
      EventKinds(n, crc);
      if n == 0 {
        SnapshotTells(crc);
      } else {
        EventKinds(0, crc);
        UpdateTells(n, crc);
        assert events[..n][0].kind == KindSnapshot;
      }
    }
  }

  /** After event i the engine holds the view of the i-th market, and event i made it ask for nothing. */
  lemma {:induction false} FeedFollowed(events: seq<Event>, crc: string -> Uint32, b: BookVal, i: nat)
    requires Generated(events, crc) && i < |events|
    ensures SlotsFine(i)
    ensures RunBook(Config(10, crc), KRAKEN, b, events[..i + 1]) == ViewOf(Config(10, crc), KRAKEN, MarketAt(i))
    ensures !Resyncs(Config(10, crc), KRAKEN, RunBook(Config(10, crc), KRAKEN, b, events[..i]), events[i])
  {
    hide SlotsFine, SlotsAt, MarketOf, EventAt, HonestSession, StepBook, RunBook, ViewOf, Resyncs;
    var prefix := events[..i + 1];
    var markets := seq(i + 1, j requires 0 <= j <= i && SlotsFine(j) => MarketAt(j));
    FeedIsHonest(prefix, crc, markets);
    EventKinds(0, crc);
    assert prefix[0].kind == KindSnapshot && prefix[..i] == events[..i] && prefix[i] == events[i];
    SessionFollows(Config(10, crc), KRAKEN, b, markets, prefix);
  }

  /** The view of the i-th market is the market itself: exactly the slots, full, uncrossed, with the event's checksum. */
  lemma {:induction false} FeedView(i: nat, crc: string -> Uint32)
    requires SlotsFine(i)
    ensures var book, s := ViewOf(Config(10, crc), KRAKEN, MarketAt(i)), SlotsAt(i);
      && book.ready && !Thin(book) && !Crossed(book)
      && TopN(false, book.bids, 10) == LevelsOf(s.bids) && |book.bids| == 10
      && TopN(true, book.asks, 10) == LevelsOf(s.asks) && |book.asks| == 10
      && TopChecksum(crc, book) == EventAt(i, crc).checksum
  {
    hide SlotsAt, MarketOf, TopN, KeepBest, Tokens, Pairs, AllParse, Regular, LevelsOf;
    MarketIsSlots(i);
    PairsOfLevels(SlotsAt(i).bids);
    PairsOfLevels(SlotsAt(i).asks);
  }

  /** Applied in order to any Kraken engine of depth ten, the generated feed keeps the book equal to the generator's
      slots, full and uncrossed, after every event, and no event makes the engine ask for a resync. */
  lemma {:induction false} FeedNeverResyncs(events: seq<Event>, crc: string -> Uint32, b: BookVal, i: nat)
    requires Generated(events, crc) && i < |events|
    ensures SlotsFine(i)
    ensures var book, s := RunBook(Config(10, crc), KRAKEN, b, events[..i + 1]), SlotsAt(i);
      && book.ready && !Thin(book) && !Crossed(book)
      && TopN(false, book.bids, 10) == LevelsOf(s.bids) && |book.bids| == 10
      && TopN(true, book.asks, 10) == LevelsOf(s.asks) && |book.asks| == 10
      && TopChecksum(crc, book) == events[i].checksum
    ensures !Resyncs(Config(10, crc), KRAKEN, RunBook(Config(10, crc), KRAKEN, b, events[..i]), events[i])
  {
    hide *;
    FeedOf(events, crc, i);
    FeedFollowed(events, crc, b, i);
    FeedView(i, crc);
  }

  lemma FeedOf(events: seq<Event>, crc: string -> Uint32, i: nat)
    requires Generated(events, crc) && i < |events|
    ensures SlotsFine(i) && events[i] == EventAt(i, crc)
    ensures AllParse(SlotsAt(i).bids) && AllParse(SlotsAt(i).asks)
  {
  }
}
