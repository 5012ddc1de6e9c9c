/** What a tape says about the offers it records, and what a replay of it rebuilds. */
module TapeTheory {
  import opened Common
  import opened SideSpec
  import opened EngineSpec
  import opened EngineRuns
  import opened CaptureSpec
  import opened GapPlacement

  /** The records on tape, read against the log of everything offered. */
  ghost predicate Transcribes(tape: seq<Record>, t: seq<Item>, log: seq<Event>) {
    |tape| == |t| && forall i :: 0 <= i < |t| ==> TranscribesOne(tape[i], t[i], log)
  }

  predicate TranscribesOne(r: Record, it: Item, log: seq<Event>) {
    match it
    case Ev(id) => r.gap == 0 && id < |log| && r.event == log[id]
    case Gap(ids) => r.gap == |ids| > 0
  }

  function GapSum(tape: seq<Record>): nat {
    if tape == [] then 0 else GapSum(tape[..|tape| - 1]) + tape[|tape| - 1].gap
  }

  /** The offers with these numbers. */
  function Chosen(log: seq<Event>, ids: seq<nat>): seq<Event> {
    if ids == [] then []
    else
      var id := ids[|ids| - 1];
      Chosen(log, ids[..|ids| - 1]) + if id < |log| then [log[id]] else []
  }

  lemma ChosenEnd(log: seq<Event>, ids: seq<nat>)
    requires ids != []
    ensures Chosen(log, ids)
      == Chosen(log, ids[..|ids| - 1]) + if ids[|ids| - 1] < |log| then [log[ids[|ids| - 1]]] else []
  {
  }

  lemma {:induction false} TapeContents(tape: seq<Record>, t: seq<Item>, log: seq<Event>)
    requires Transcribes(tape, t, log)
    ensures EventsOf(tape) == Chosen(log, EventIds(t))
    ensures GapSum(tape) == |GapIds(t)|
    ensures |EventsOf(tape)| == |EventIds(t)|
  {
    if t != [] {
      var n := |t| - 1;
      TapeContents(tape[..n], t[..n], log);
      assert TranscribesOne(tape[n], t[n], log);
      var ids := EventIds(t);
      if t[n].Ev? {
        assert ids[..|ids| - 1] == EventIds(t[..n]);
      } else {
        assert ids == EventIds(t[..n]);
      }
    }
  }

  /** Recorded events plus counted losses are the offers, exactly. */
  lemma {:induction false} NothingUncounted(tape: seq<Record>, t: seq<Item>, log: seq<Event>)
    requires Transcribes(tape, t, log) && Accounts(t, |log|)
    ensures |EventsOf(tape)| + GapSum(tape) == |log|
  {
    TapeContents(tape, t, log);
  }

  lemma {:induction false} FullRange(s: seq<nat>, lo: nat, hi: nat)
    requires lo <= hi && Increasing(s)
    requires forall k :: 0 <= k < |s| ==> lo <= s[k] < hi
    requires forall i :: lo <= i < hi ==> i in s
    ensures |s| == hi - lo && forall k :: 0 <= k < |s| ==> s[k] == lo + k
    decreases hi - lo
  {
    assert s != [] ==> lo <= s[0] < hi;
    if lo < hi {
      assert lo in s;
      var k :| 0 <= k < |s| && s[k] == lo;
      assert s[0] <= s[k];
      var rest := s[1..];
      forall i | lo + 1 <= i < hi ensures i in rest {
        assert i in s;
        var j :| 0 <= j < |s| && s[j] == i;
        assert rest[j - 1] == i;
      }
      FullRange(rest, lo + 1, hi);
    }
  }

  lemma {:induction false} ChosenRange(log: seq<Event>, ids: seq<nat>, lo: nat)
    requires forall k :: 0 <= k < |ids| ==> ids[k] == lo + k
    requires lo + |ids| <= |log|
    ensures Chosen(log, ids) == log[lo..lo + |ids|]
  {
    if ids != [] {
      var n := |ids| - 1;
      ChosenRange(log, ids[..n], lo);
      ChosenEnd(log, ids);
      hide Chosen;
      assert log[lo..lo + |ids|] == log[lo..lo + n] + [log[lo + n]];
    }
  }

  /** A tape without a gap is the log. */
  lemma {:induction false} GapFreeIsLog(tape: seq<Record>, t: seq<Item>, log: seq<Event>)
    requires Transcribes(tape, t, log) && Accounts(t, |log|) && GapSum(tape) == 0
    ensures EventsOf(tape) == log
  {
    hide EventIds, GapIds, EventsOf, Transcribes;
    TapeContents(tape, t, log);
    assert GapIds(t) == [];
    assert forall k :: 0 <= k < |EventIds(t)| ==> EventIds(t)[k] in EventIds(t);
    FullRange(EventIds(t), 0, |log|);
    ChosenRange(log, EventIds(t), 0);
    assert log[0..|log|] == log;
  }

  /** So it drives a fresh engine to the books of the live one. */
  lemma {:induction false} FaithfulReplay(cfg: Config, books: Books, tape: seq<Record>, t: seq<Item>, log: seq<Event>)
    requires Transcribes(tape, t, log) && Accounts(t, |log|) && GapSum(tape) == 0
    ensures RunBooks(cfg, books, EventsOf(tape)) == RunBooks(cfg, books, log)
  {
    GapFreeIsLog(tape, t, log);
  }

  // ---------- Healing after a gap ----------

  lemma {:induction false} ChosenAppend(log: seq<Event>, a: seq<nat>, b: seq<nat>)
    ensures Chosen(log, a + b) == Chosen(log, a) + Chosen(log, b)
  {
    if b == [] {
      assert a + b == a;
    } else {
      var n := |b| - 1;
      assert (a + b)[..|a + b| - 1] == a + b[..n];
      ChosenAppend(log, a, b[..n]);
    }
  }

  /** When every loss was offered before event x, the tape has all of the log from x on. */
  lemma {:induction false} WholeFrom(t: seq<Item>, n: nat, k: nat)
    requires Accounts(t, n) && k < |EventIds(t)|
    requires forall d :: d in GapIds(t) ==> d < EventIds(t)[k]
    ensures var ids := EventIds(t); forall j :: k <= j < |ids| ==> ids[j] == ids[k] + j - k
    ensures |EventIds(t)| - k == n - EventIds(t)[k]
  {
    var ids := EventIds(t);
    var x, tail := ids[k], ids[k..];
    assert x in ids;
    forall i | x <= i < n ensures i in tail {
      assert i in ids;
      var j :| 0 <= j < |ids| && ids[j] == i;
      assert tail[j - k] == i;
    }
    forall j | 0 <= j < |tail| ensures x <= tail[j] < n {
      assert ids[j + k] in ids;
    }
    FullRange(tail, x, n);
    forall j | k <= j < |ids| ensures ids[j] == x + j - k {
      assert tail[j - k] == ids[j];
    }
  }

  lemma {:induction false} ProjectAppend(v: Venue, a: seq<Event>, b: seq<Event>)
    ensures Project(v, a + b) == Project(v, a) + Project(v, b)
  {
    if b == [] {
      assert a + b == a;
    } else {
      var n := |b| - 1;
      assert (a + b)[..|a + b| - 1] == a + b[..n];
      ProjectAppend(v, a, b[..n]);
    }
  }

  lemma {:induction false} ProjectFirst(v: Venue, a: seq<Event>)
    requires a != [] && a[0].venue == v
    ensures Project(v, a) != [] && Project(v, a)[0] == a[0]
  {
    if |a| > 1 {
      ProjectFirst(v, a[..|a| - 1]);
    } else {
      assert a[..0] == [];
    }
  }

  /** Once a venue's snapshot is on tape that was offered after every loss, the replayed book of that venue is the
      live one, whatever was lost before. */
  lemma {:induction false} SnapshotAfterLosses(cfg: Config, v: Venue, b: BookVal, c: BookVal,
                                               tape: seq<Record>, t: seq<Item>, log: seq<Event>, k: nat)
    requires Transcribes(tape, t, log) && Accounts(t, |log|) && k < |EventIds(t)| && EventIds(t)[k] < |log|
    requires forall d :: d in GapIds(t) ==> d < EventIds(t)[k]
    requires log[EventIds(t)[k]].venue == v && log[EventIds(t)[k]].kind == KindSnapshot
    ensures RunBook(cfg, v, b, Project(v, EventsOf(tape))) == RunBook(cfg, v, c, Project(v, log))
  {
    hide EventIds, GapIds, EventsOf, Transcribes, Tally, Accounts, RunBook, Project, Chosen;
    var ids := EventIds(t);
    var x := ids[k];
    TapeContents(tape, t, log);
    WholeFrom(t, |log|, k);
    assert ids == ids[..k] + ids[k..];
    ChosenAppend(log, ids[..k], ids[k..]);
    ChosenRange(log, ids[k..], x);
    assert log[x..|log|] == log[x..] && log == log[..x] + log[x..];
    ProjectAppend(v, Chosen(log, ids[..k]), log[x..]);
    ProjectAppend(v, log[..x], log[x..]);
    ProjectFirst(v, log[x..]);
    OnlySinceSnapshot(cfg, v, b, Project(v, Chosen(log, ids[..k])), Project(v, log[x..]));
    OnlySinceSnapshot(cfg, v, c, Project(v, log[..x]), Project(v, log[x..]));
  }

  lemma {:induction false} GapIdAt(t: seq<Item>, d: nat) returns (g: nat)
    requires d in GapIds(t)
    ensures g < |t| && t[g].Gap? && d in t[g].ids
  {
    var n := |t| - 1;
    if t[n].Gap? && d in t[n].ids {
      g := n;
    } else {
      g := GapIdAt(t[..n], d);
    }
  }

  /** Every loss was offered before any event that follows the last marker by more than the buffer size. */
  lemma {:induction false} FarEventsAfterLosses(t: seq<Item>, bufSize: nat, last: nat, k: nat)
    requires Placed(t, bufSize) && last < |t| && t[last].Gap? && forall g :: last < g < |t| ==> t[g].Ev?
    requires bufSize < k < |EventIds(t[last + 1..])|
    ensures forall d :: d in GapIds(t) ==> d < EventIds(t[last + 1..])[k]
  {
    hide EventIds, GapIds, Localizes;
    forall d | d in GapIds(t) ensures d < EventIds(t[last + 1..])[k] {
      var g := GapIdAt(t, d);
      LaterStill(t, g, last, k, bufSize, d);
    }
  }

  lemma {:induction false} LaterStill(t: seq<Item>, g: nat, last: nat, k: nat, bufSize: nat, d: nat)
    requires g <= last < |t| && t[g].Gap? && d in t[g].ids
    requires Localizes(t[g].ids, EventIds(t[..g]), EventIds(t[g + 1..]), bufSize)
    requires bufSize < k < |EventIds(t[last + 1..])|
    ensures d < EventIds(t[last + 1..])[k]
  {
    hide EventIds, GapIds;
    var between, rest := t[g + 1..last + 1], t[last + 1..];
    assert t[g + 1..] == between + rest;
    IdsAppend(between, rest);
    assert EventIds(t[g + 1..])[|EventIds(between)| + k] == EventIds(rest)[k];
  }

  /** A snapshot heals its venue once more than bufSize + 1 events follow the last marker, up to and with it. */
  lemma {:induction false} Heals(cfg: Config, v: Venue, b: BookVal, c: BookVal, tape: seq<Record>, t: seq<Item>,
                                 log: seq<Event>, bufSize: nat, last: nat, k: nat)
    requires Transcribes(tape, t, log) && Accounts(t, |log|) && Placed(t, bufSize)
    requires last < |t| && t[last].Gap? && forall g :: last < g < |t| ==> t[g].Ev?
    requires bufSize < k < |EventIds(t[last + 1..])| && EventIds(t[last + 1..])[k] < |log|
    requires var ev := log[EventIds(t[last + 1..])[k]]; ev.venue == v && ev.kind == KindSnapshot
    ensures RunBook(cfg, v, b, Project(v, EventsOf(tape))) == RunBook(cfg, v, c, Project(v, log))
  {
    hide EventIds, GapIds, EventsOf, Transcribes, Accounts, RunBook, Project, Placed;
    FarEventsAfterLosses(t, bufSize, last, k);
    var front, rest := t[..last + 1], t[last + 1..];
    assert t == front + rest;
    IdsAppend(front, rest);
    assert EventIds(t)[|EventIds(front)| + k] == EventIds(rest)[k];
    SnapshotAfterLosses(cfg, v, b, c, tape, t, log, |EventIds(front)| + k);
  }

  // ---------- Exactly when a snapshot heals ----------

  predicate SnapshotAt(log: seq<Event>, v: Venue, x: nat) {
    x < |log| && log[x].venue == v && log[x].kind == KindSnapshot
  }

  /** Whatever was offered, provided the k-th event on tape is a snapshot of v: a replay from an empty book ends with
      the book the live run ends with. */
  ghost predicate AlwaysHeals(cfg: Config, v: Venue, t: seq<Item>, n: nat, k: nat)
    requires k < |EventIds(t)|
  {
    forall tape, log :: Transcribes(tape, t, log) && |log| == n && SnapshotAt(log, v, EventIds(t)[k]) ==>
      RunBook(cfg, v, EMPTY_BOOK, Project(v, EventsOf(tape))) == RunBook(cfg, v, EMPTY_BOOK, Project(v, log))
  }

  function Quiet(v: Venue): Event { Event(v, KindTrade, [], [], 0) }
  function Snap(v: Venue): Event { Event(v, KindSnapshot, [], [], 0) }
  function OneBid(v: Venue): Event { Event(v, KindUpdate, [Level(1, 1, "", "")], [], 0) }

  const CLEAR_BOOK := BookVal(map[], map[], true)

  lemma {:induction false} QuietStep(cfg: Config, v: Venue, b: BookVal)
    ensures StepBook(cfg, v, b, Quiet(v)) == b && StepBook(cfg, v, b, Snap(v)) == CLEAR_BOOK
  {
    assert KeepBest(false, map[], cfg.depth) == map[] && KeepBest(true, map[], cfg.depth) == map[];
    assert Applied(cfg, v, EMPTY_BOOK, Snap(v)) == CLEAR_BOOK;
  }

  lemma {:induction false} BidStep(cfg: Config, v: Venue)
    requires v == KRAKEN ==> cfg.depth != 0
    ensures 1 in StepBook(cfg, v, CLEAR_BOOK, OneBid(v)).bids
  {
    var lv := Level(1, 1, "", "");
    var m: Levels := map[1 := lv];
    assert [lv][..0] == [] && SetLevels(map[], [lv]) == m;
    AllKept(false, m, if cfg.depth == 0 then 1 else cfg.depth);
    assert KeepBest(true, map[], cfg.depth) == map[];
    var next := BookVal(m, map[], true);
    assert Applied(cfg, v, CLEAR_BOOK, OneBid(v)) == next;
    assert Sound(cfg, v, next, OneBid(v));
  }

  /** Trades leave a book alone; an empty snapshot among them leaves it clear. */
  lemma {:induction false} QuietRun(cfg: Config, v: Venue, b: BookVal, evs: seq<Event>)
    requires forall i :: 0 <= i < |evs| ==> evs[i] == Quiet(v) || evs[i] == Snap(v)
    ensures Project(v, evs) == evs
    ensures RunBook(cfg, v, b, evs) == if Snap(v) in evs then CLEAR_BOOK else b
  {
    if evs != [] {
      var n := |evs| - 1;
      QuietRun(cfg, v, b, evs[..n]);
      assert evs == evs[..n] + [evs[n]];
      ProjectEnd(v, evs);
      RunBookEnd(cfg, v, b, evs);
      hide StepBook, RunBook, Project;
      QuietStep(cfg, v, RunBook(cfg, v, b, evs[..n]));
    }
  }

  lemma RunBookEnd(cfg: Config, v: Venue, b: BookVal, evs: seq<Event>)
    requires evs != []
    ensures RunBook(cfg, v, b, evs) == StepBook(cfg, v, RunBook(cfg, v, b, evs[..|evs| - 1]), evs[|evs| - 1])
  {
  }

  /** Trades, with a snapshot of v offered at x and an update of v at d. */
  function Witness(v: Venue, n: nat, x: nat, d: nat): (log: seq<Event>)
    ensures |log| == n && forall i :: 0 <= i < n ==> log[i] == if i == x then Snap(v) else if i == d then OneBid(v) else Quiet(v)
  {
    if n == 0 then []
    else Witness(v, n - 1, x, d) + [if n - 1 == x then Snap(v) else if n - 1 == d then OneBid(v) else Quiet(v)]
  }

  /** A tape that says what t stands for. */
  function Transcript(t: seq<Item>, log: seq<Event>): (tape: seq<Record>)
    requires forall g :: 0 <= g < |t| ==> match t[g] { case Ev(id) => id < |log| case Gap(ids) => ids != [] }
    ensures Transcribes(tape, t, log)
  {
    if t == [] then []
    else
      var n := |t| - 1;
      Transcript(t[..n], log) + [match t[n] {
        case Ev(id) => Record(0, 0, log[id])
        case Gap(ids) => Record(0, |ids|, Quiet(0))
      }]
  }

  lemma {:induction false} EventIdAt(t: seq<Item>, g: nat)
    requires g < |t| && t[g].Ev?
    ensures t[g].id in EventIds(t)
  {
    if g < |t| - 1 {
      EventIdAt(t[..|t| - 1], g);
    }
  }

  /** The live book of the witness has the bid. */
  lemma {:induction false} WitnessLive(cfg: Config, v: Venue, n: nat, x: nat, d: nat)
    requires x < d < n && (v == KRAKEN ==> cfg.depth != 0)
    ensures 1 in RunBook(cfg, v, EMPTY_BOOK, Project(v, Witness(v, n, x, d))).bids
  {
    hide StepBook, RunBook, Project;
    var log := Witness(v, n, x, d);
    var before, bid, after := log[..d], [OneBid(v)], log[d + 1..];
    assert before[x] == Snap(v);
    QuietRun(cfg, v, EMPTY_BOOK, before);
    BidStep(cfg, v);
    BidAlone(cfg, v);
    var next := StepBook(cfg, v, CLEAR_BOOK, OneBid(v));
    QuietRun(cfg, v, next, after);
    assert log == before + bid + after;
    ProjectAppend(v, before + bid, after);
    ProjectAppend(v, before, bid);
    RunBookAppend(cfg, v, EMPTY_BOOK, before + bid, after);
    RunBookAppend(cfg, v, EMPTY_BOOK, before, bid);
  }

  lemma BidAlone(cfg: Config, v: Venue)
    ensures Project(v, [OneBid(v)]) == [OneBid(v)]
    ensures forall b :: RunBook(cfg, v, b, [OneBid(v)]) == StepBook(cfg, v, b, OneBid(v))
  {
    hide StepBook;
    assert [OneBid(v)][..0] == [];
  }

  lemma {:induction false} ChosenQuiet(v: Venue, n: nat, x: nat, d: nat, ids: seq<nat>)
    requires d !in ids && x != d && forall i :: i in ids ==> i < n
    ensures var evs := Chosen(Witness(v, n, x, d), ids);
      && (forall i :: 0 <= i < |evs| ==> evs[i] == Quiet(v) || evs[i] == Snap(v))
      && (x in ids && x < n ==> Snap(v) in evs)
  {
    if ids != [] {
      var m, log := |ids| - 1, Witness(v, n, x, d);
      assert ids[m] in ids && forall i :: i in ids[..m] ==> i in ids;
      ChosenQuiet(v, n, x, d, ids[..m]);
      hide Chosen;
      ChosenEnd(log, ids);
      var front, evs := Chosen(log, ids[..m]), Chosen(log, ids);
      assert evs == front + [log[ids[m]]];
      if x == ids[m] {
        assert evs[|front|] == Snap(v);
      } else if x in ids && x < n {
        assert ids == ids[..m] + [ids[m]];
        var j :| 0 <= j < |front| && front[j] == Snap(v);
        assert evs[j] == Snap(v);
      }
    }
  }

  /** A loss offered after the snapshot can leave the replayed book without it. */
  lemma {:induction false} LateLossMisses(cfg: Config, v: Venue, t: seq<Item>, n: nat, bufSize: nat, k: nat, d: nat)
    requires Accounts(t, n) && Placed(t, bufSize) && k < |EventIds(t)| && (v == KRAKEN ==> cfg.depth != 0)
    requires d in GapIds(t) && EventIds(t)[k] < d
    ensures !AlwaysHeals(cfg, v, t, n, k)
  {
    var ids := EventIds(t);
    var x := ids[k];
    var log := Witness(v, n, x, d);
    assert x in ids;
    forall g | 0 <= g < |t| ensures match t[g] { case Ev(id) => id < |log| case Gap(ids) => ids != [] } {
      if t[g].Ev? { EventIdAt(t, g); }
    }
    var tape := Transcript(t, log);
    hide Transcribes, RunBook, Project, Chosen, EventIds, GapIds, EventsOf;
    TapeContents(tape, t, log);
    ChosenQuiet(v, n, x, d, ids);
    QuietRun(cfg, v, EMPTY_BOOK, Chosen(log, ids));
    WitnessLive(cfg, v, n, x, d);
  }

  /** A snapshot on tape heals its venue, whatever was offered, if and only if it was offered after every loss. */
  lemma {:induction false} HealsIff(cfg: Config, v: Venue, t: seq<Item>, n: nat, bufSize: nat, k: nat)
    requires Accounts(t, n) && Placed(t, bufSize) && k < |EventIds(t)| && (v == KRAKEN ==> cfg.depth != 0)
    ensures AlwaysHeals(cfg, v, t, n, k) <==> forall d :: d in GapIds(t) ==> d < EventIds(t)[k]
  {
    hide EventIds, GapIds, RunBook, Project, EventsOf, Transcribes, Placed;
    var ids := EventIds(t);
    assert ids[k] in ids;
    if d :| d in GapIds(t) && ids[k] <= d {
      assert d < n;
      LateLossMisses(cfg, v, t, n, bufSize, k, d);
    } else {
      forall tape, log | Transcribes(tape, t, log) && |log| == n && SnapshotAt(log, v, ids[k])
        ensures RunBook(cfg, v, EMPTY_BOOK, Project(v, EventsOf(tape))) == RunBook(cfg, v, EMPTY_BOOK, Project(v, log))
      {
        SnapshotAfterLosses(cfg, v, EMPTY_BOOK, EMPTY_BOOK, tape, t, log, k);
      }
    }
  }

  /** Of the events after the last marker, on which w is what the last loss was marked before, exactly those from position
      |w| on were offered after every loss. */
  lemma {:induction false} PositionsAfterLosses(t: seq<Item>, n: nat, last: nat, k: nat, g: nat, w: seq<nat>)
    requires Accounts(t, n) && last < |t| && t[last].Gap? && t[last].ids != [] && forall h :: last < h < |t| ==> t[h].Ev?
    requires k < |EventIds(t[last + 1..])| && PinsAt(t, g, t[last].ids[|t[last].ids| - 1], w)
    ensures (forall d :: d in GapIds(t) ==> d < EventIds(t[last + 1..])[k]) <==> |w| <= k
  {
    hide EventIds, GapIds, PinsAt;
    var d := t[last].ids[|t[last].ids| - 1];
    SamePlace(t, n, g, last, d, w);
    HeldDecides(EventIds(t[..last]), EventIds(t[last + 1..]), d, w, k);
    MarkedIsGap(t, last, d);
    forall e | e in GapIds(t) ensures e <= d {
      LastLossIsLatest(t, n, last, e);
    }
  }

  lemma {:induction false} LastGaps(t: seq<Item>, last: nat)
    requires last < |t| && t[last].Gap? && forall g :: last < g < |t| ==> t[g].Ev?
    ensures GapIds(t) == GapIds(t[..last]) + t[last].ids
  {
    var front, rest := t[..last + 1], t[last + 1..];
    assert t == front + rest && front[..last] == t[..last];
    IdsAppend(front, rest);
    OnlyEvents(rest);
    assert GapIds(front) == GapIds(t[..last]) + t[last].ids;
    assert GapIds(front) + [] == GapIds(front);
  }

  lemma {:induction false} LastLossIsLatest(t: seq<Item>, n: nat, last: nat, e: nat)
    requires Accounts(t, n) && last < |t| && t[last].Gap? && t[last].ids != [] && forall g :: last < g < |t| ==> t[g].Ev?
    requires e in GapIds(t)
    ensures e <= t[last].ids[|t[last].ids| - 1]
  {
    hide EventIds, GapIds;
    var gaps := GapIds(t);
    LastGaps(t, last);
    var j :| 0 <= j < |gaps| && gaps[j] == e;
    assert gaps[|gaps| - 1] == t[last].ids[|t[last].ids| - 1];
  }

  /** Over every finished run that counts every loss: of the events after the last marker, a snapshot at position k heals
      its venue, whatever was offered, if and only if k is at least the number of events that were waiting, on the channel
      or uncounted in the drain's hand, when the last loss was counted. */
  lemma {:induction false} HealsExactly(cfg: Config, v: Venue, bufSize: nat, acts: seq<Action>, s: Cap, last: nat, k: nat)
    returns (i: nat, p: Cap)
    requires bufSize > 0 && Reaches(bufSize, acts, s) && s.hand == Stopped && s.pend == []
    requires v == KRAKEN ==> cfg.depth != 0
    requires var t := Tape(s.files);
      && last < |t| && t[last].Gap? && (forall g :: last < g < |t| ==> t[g].Ev?)
      && k < |EventIds(t[last + 1..])| && t[last].ids != []
    // The last loss is the one counted at step i.
    ensures CountsAt(bufSize, acts, i, p) && p.offered == Tape(s.files)[last].ids[|Tape(s.files)[last].ids| - 1]
    ensures var t := Tape(s.files);
      var at := |EventIds(t[..last + 1])| + k;
      && at < |EventIds(t)| && (AlwaysHeals(cfg, v, t, s.offered, at) <==> k >= |Waiting(p)|)
    ensures |Waiting(p)| <= bufSize + if p.hand.Got? then 1 else 0
  {
    var t := Tape(s.files);
    hide EventIds, GapIds, Reaches, AlwaysHeals, PinsAt, Accounts, Placed, Tape, Projected, Waiting, CountsAt;
    StoppedTape(bufSize, acts, s);
    StoppedIsTape(bufSize, acts, s);
    MarkedIsGap(t, last, t[last].ids[|t[last].ids| - 1]);
    i, p := LossMoment(bufSize, acts, s, t[last].ids[|t[last].ids| - 1]);
    var g := ExactPlace(bufSize, acts, i, p, s);
    PinnedHeals(cfg, v, t, s.offered, bufSize, last, k, g, Waiting(p));
  }

  lemma StoppedIsTape(bufSize: nat, acts: seq<Action>, s: Cap)
    requires bufSize > 0 && Reaches(bufSize, acts, s) && s.hand == Stopped && s.pend == []
    ensures Projected(s) == Tape(s.files)
  {
    hide Reaches, Inv;
    EveryRun(bufSize, acts, s);
    StoppedProjected(s);
    MarkNone();
    assert Tape(s.files) + [] == Tape(s.files);
  }

  /** The same of one tape, on which w is what the last loss was marked before. */
  lemma {:induction false} PinnedHeals(cfg: Config, v: Venue, t: seq<Item>, n: nat, bufSize: nat, last: nat, k: nat,
                                       g: nat, w: seq<nat>)
    requires Accounts(t, n) && Placed(t, bufSize) && (v == KRAKEN ==> cfg.depth != 0)
    requires last < |t| && t[last].Gap? && t[last].ids != [] && (forall g :: last < g < |t| ==> t[g].Ev?)
    requires k < |EventIds(t[last + 1..])|
    requires PinsAt(t, g, t[last].ids[|t[last].ids| - 1], w)
    ensures var at := |EventIds(t[..last + 1])| + k;
      && at < |EventIds(t)| && (AlwaysHeals(cfg, v, t, n, at) <==> k >= |w|)
  {
    hide EventIds, GapIds, AlwaysHeals, PinsAt, Accounts, Placed;
    var front, rest := t[..last + 1], t[last + 1..];
    assert t == front + rest;
    IdsAppend(front, rest);
    var at := |EventIds(front)| + k;
    assert EventIds(t)[at] == EventIds(rest)[k];
    HealsIff(cfg, v, t, n, bufSize, at);
    PositionsAfterLosses(t, n, last, k, g, w);
  }

  lemma HeldDecides(before: seq<nat>, after: seq<nat>, d: nat, w: seq<nat>, k: nat)
    requires Pins(before, after, d, w) && k < |after|
    ensures d < after[k] <==> |w| <= k
  {
    if k < |w| {
      assert w[k] in w;
    }
  }

  lemma {:induction false} SamePlace(t: seq<Item>, n: nat, g: nat, last: nat, d: nat, w: seq<nat>)
    requires Accounts(t, n) && PinsAt(t, g, d, w) && last < |t| && t[last].Gap? && d in t[last].ids
    requires forall h :: last < h < |t| ==> t[h].Ev?
    ensures Pins(EventIds(t[..last]), EventIds(t[last + 1..]), d, w)
  {
    hide EventIds, Accounts;
    OnePlace(t, n, g, last, d);
  }

  /** For every buffer size some finished run has a snapshot after its last marker that does not heal: the event the
      drain held is at position bufSize. */
  lemma {:induction false} NearSnapshotMisses(cfg: Config, v: Venue, bufSize: nat) returns (acts: seq<Action>, s: Cap)
    requires bufSize > 0 && (v == KRAKEN ==> cfg.depth != 0)
    ensures Reaches(bufSize, acts, s) && s.hand == Stopped && s.pend == []
    ensures var t := Tape(s.files);
      && t != [] && t[0].Gap? && (forall g :: 0 < g < |t| ==> t[g].Ev?)
      && |EventIds(t)| == bufSize + 1 && !AlwaysHeals(cfg, v, t, s.offered, bufSize)
  {
    hide EventIds, GapIds, Reaches, AlwaysHeals, Accounts, Placed;
    acts, s := MarkerCanBeEarly(bufSize);
    StoppedTape(bufSize, acts, s);
    EarlyTape(bufSize, Tape(s.files));
    LateLossMisses(cfg, v, Tape(s.files), s.offered, bufSize, bufSize, bufSize + 1);
  }

  lemma {:induction false} EarlyTape(bufSize: nat, t: seq<Item>)
    requires bufSize > 0 && t == [Gap([bufSize + 1]), Ev(0)] + Evs(UpTo(bufSize))
    ensures t != [] && t[0].Gap? && forall g :: 0 < g < |t| ==> t[g].Ev?
    ensures |EventIds(t)| == bufSize + 1 && EventIds(t)[bufSize] == bufSize && bufSize + 1 in GapIds(t)
  {
    hide EventIds, GapIds, UpTo, Evs;
    var ids := [0] + UpTo(bufSize);
    UpToLast(bufSize);
    EvsIds(UpTo(bufSize));
    EvsIds(ids);
    EvsCons(ids);
    MarkIds([bufSize + 1]);
    assert ids[0] == 0 && ids[1..] == UpTo(bufSize);
    assert t == Mark([bufSize + 1]) + Evs(ids);
    IdsAppend(Mark([bufSize + 1]), Evs(ids));
    assert [] + ids == ids && [bufSize + 1] + [] == [bufSize + 1];
  }

  lemma UpToLast(k: nat)
    requires k > 0
    ensures |UpTo(k)| == k && UpTo(k)[k - 1] == k
  {
    UpToSize(k - 1);
  }
}
