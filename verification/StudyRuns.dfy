/** The study over whole tapes, on plain values: what every record does to it, and what becomes of every row. */
module StudyRuns {
  import opened Common
  import opened EngineSpec
  import SideSpec
  import opened ExecCost
  import opened Merge
  import opened CostTheory
  import opened SliceSpec

  /** Levels per side and venue that the study prices against. */
  const LADDER_DEPTH: nat := 1000

  ghost predicate Liquid(side: Side, l: Ladder) {
    Positive(l) && BestFirst(side, l)
  }

  ghost predicate IsArm(l: Ladder, side: Side, q: Qty, arm: Arm) {
    if q <= 0 then arm.err == NonPositiveQty
    else if l == [] then arm.err == EmptyLadder
    else IsWalk(l, side, q, arm.cost, arm.err)
  }

  /** One decision for one size: all on the venue with the best price, and routed across both. */
  ghost predicate IsDecision(l: Ladder, side: Side, now: int, size: Qty, r: Row)
    requires l != []
  {
    && r.at == now && r.size == size && r.touch == l[0].price && r.depth == Wrap64(Total(l)) && r.sliced == Unset
    && IsArm(OnVenue(l, l[0].venue), side, size, r.naive)
    && IsArm(l, side, size, r.routed)
  }

  /** The rows made are decisions for the first sizes, in order. */
  ghost predicate Decided(l: Ladder, side: Side, now: int, sizes: seq<Qty>, made: seq<Row>)
    requires l != []
  {
    |made| <= |sizes| && forall i :: 0 <= i < |made| ==> IsDecision(l, side, now, sizes[i], made[i])
  }

  lemma DecidedSnoc(l: Ladder, side: Side, now: int, sizes: seq<Qty>, made: seq<Row>, r: Row)
    requires l != [] && Decided(l, side, now, sizes, made) && |made| < |sizes|
    requires IsDecision(l, side, now, sizes[|made|], r)
    ensures Decided(l, side, now, sizes, made + [r])
  {
    hide IsDecision;
  }

  function StartedAll(s: StudyVal, rs: seq<Row>, now: int, step: int, slices: int): StudyVal {
    if rs == [] then s else Started(StartedAll(s, rs[..|rs| - 1], now, step, slices), rs[|rs| - 1], now, step, slices)
  }

  lemma StartedNone(s: StudyVal, now: int, step: int, slices: int)
    ensures StartedAll(s, [], now, step, slices) == s
  {
  }

  lemma StartedSnoc(s: StudyVal, rs: seq<Row>, r: Row, now: int, step: int, slices: int)
    ensures StartedAll(s, rs + [r], now, step, slices)
      == Started(StartedAll(s, rs, now, step, slices), r, now, step, slices)
  {
    assert (rs + [r])[..|rs|] == rs;
  }

  ghost function LevelsOf(view: Books, v: Venue, side: Side): seq<Level> {
    if v !in view then []
    else if side == Ask then SideSpec.TopN(true, view[v].asks, LADDER_DEPTH)
    else SideSpec.TopN(false, view[v].bids, LADDER_DEPTH)
  }

  /** Both venues' depth. */
  ghost function PerOf(view: Books, side: Side): PerVenue {
    map[COINBASE := LevelsOf(view, COINBASE, side), KRAKEN := LevelsOf(view, KRAKEN, side)]
  }

  // ---------- One record, and all of them ----------

  /** What the study was asked for. */
  datatype Setting = Setting(sizes: seq<Qty>, side: Side, slices: int, horizon: int, every: int)

  datatype Progress = Progress(study: StudyVal, nextDec: Option<int>, skipped: nat)

  /** What a record brought: the ladder the engine then showed, and the rows of the decision it made, if any. */
  datatype Taken = Taken(ladder: Ladder, made: seq<Row>)

  predicate Decides(next: Option<int>, now: int) {
    next.Some? && now >= next.value
  }

  /** One record: a gap drops the parents in flight; an event works them and may start new ones. */
  function After(opt: Setting, p: Progress, r: Record, t: Taken): Progress
    requires opt.slices > 0
  {
    if r.gap > 0 then p.(study := p.study.(pendings := []), skipped := p.skipped + 1)
    else
      Progress(
        StartedAll(Advanced(p.study, t.ladder, r.wall), t.made, r.wall, TruncDiv(opt.horizon, opt.slices), opt.slices),
        if p.nextDec == None || Decides(p.nextDec, r.wall) then Some(r.wall + opt.every) else p.nextDec, p.skipped)
  }

  /** An event's ladder is the consolidation of the engine's books; its rows are one decision per size, exactly when one
      is due and there is a ladder. */
  ghost predicate TookOne(opt: Setting, p: Progress, r: Record, t: Taken, view: Books) {
    r.gap == 0 ==>
      && IsMerge(opt.side, PerOf(view, opt.side), t.ladder)
      && |t.made| == (if Decides(p.nextDec, r.wall) && t.ladder != [] then |opt.sizes| else 0)
      && forall i :: 0 <= i < |t.made| ==> IsDecision(t.ladder, opt.side, r.wall, opt.sizes[i], t.made[i])
  }

  function Along(opt: Setting, p: Progress, tape: seq<Record>, took: seq<Taken>): Progress
    requires opt.slices > 0 && |took| == |tape|
    decreases |tape|
  {
    if tape == [] then p
    else
      var n := |tape| - 1;
      After(opt, Along(opt, p, tape[..n], took[..n]), tape[n], took[n])
  }

  ghost predicate TookAll(opt: Setting, p: Progress, cfg: Config, books: Books, tape: seq<Record>, took: seq<Taken>)
    requires opt.slices > 0 && |took| == |tape|
    decreases |tape|
  {
    tape != [] ==>
      var n := |tape| - 1;
      && TookAll(opt, p, cfg, books, tape[..n], took[..n])
      && TookOne(opt, Along(opt, p, tape[..n], took[..n]), tape[n], took[n], RunBooks(cfg, books, EventsOf(tape)))
  }

  function LostAfter(lost: set<nat>, p: Progress, r: Record): set<nat> {
    if r.gap > 0 then lost + RowsOf(p.study.pendings) else lost
  }

  /** The rows whose parent a gap of the tape took. */
  function LostAlong(opt: Setting, lost: set<nat>, p: Progress, tape: seq<Record>, took: seq<Taken>): set<nat>
    requires opt.slices > 0 && |took| == |tape|
    decreases |tape|
  {
    if tape == [] then lost
    else
      var n := |tape| - 1;
      LostAfter(LostAlong(opt, lost, p, tape[..n], took[..n]), Along(opt, p, tape[..n], took[..n]), tape[n])
  }

  /** Where the study and the engine's books are after a tape, given what its records brought. */
  ghost predicate Followed(opt: Setting, lost: set<nat>, p: Progress, cfg: Config, books: Books, tape: seq<Record>,
                           took: seq<Taken>, lostNow: set<nat>, now: Progress, view: Books)
    requires opt.slices > 0
  {
    && |took| == |tape| && TookAll(opt, p, cfg, books, tape, took)
    && now == Along(opt, p, tape, took) && lostNow == LostAlong(opt, lost, p, tape, took)
    && view == RunBooks(cfg, books, EventsOf(tape))
  }

  lemma NothingFollowed(opt: Setting, lost: set<nat>, p: Progress, cfg: Config, books: Books)
    requires opt.slices > 0
    ensures Followed(opt, lost, p, cfg, books, [], [], lost, p, books)
  {
  }

  lemma FollowedIs(opt: Setting, lost: set<nat>, p: Progress, cfg: Config, books: Books, tape: seq<Record>,
                   took: seq<Taken>, lostNow: set<nat>, now: Progress, view: Books)
    requires opt.slices > 0 && Followed(opt, lost, p, cfg, books, tape, took, lostNow, now, view)
    ensures |took| == |tape| && TookAll(opt, p, cfg, books, tape, took)
    ensures now == Along(opt, p, tape, took) && lostNow == LostAlong(opt, lost, p, tape, took)
    ensures view == RunBooks(cfg, books, EventsOf(tape))
  {
  }

  lemma {:induction false} FollowedSnoc(opt: Setting, lost: set<nat>, p: Progress, cfg: Config, books: Books,
                                        tape: seq<Record>, took: seq<Taken>, lostNow: set<nat>, now: Progress, view: Books,
                                        i: nat, one: Taken, next: Books)
    requires opt.slices > 0 && i < |tape| && Followed(opt, lost, p, cfg, books, tape[..i], took, lostNow, now, view)
    requires next == (if tape[i].gap > 0 then view else StepBooks(cfg, view, tape[i].event))
    requires TookOne(opt, now, tape[i], one, next)
    ensures Followed(opt, lost, p, cfg, books, tape[..i + 1], took + [one],
                     LostAfter(lostNow, now, tape[i]), After(opt, now, tape[i], one), next)
  {
    hide After, LostAfter, TookOne, StepBooks;
    TapeSnoc(cfg, books, tape, i);
    assert tape[..i + 1][..i] == tape[..i] && (took + [one])[..i] == took;
  }

  lemma {:induction false} TapeSnoc(cfg: Config, books: Books, tape: seq<Record>, i: nat)
    requires i < |tape|
    ensures RunBooks(cfg, books, EventsOf(tape[..i + 1]))
      == var b := RunBooks(cfg, books, EventsOf(tape[..i])); if tape[i].gap > 0 then b else StepBooks(cfg, b, tape[i].event)
  {
    assert tape[..i + 1][..i] == tape[..i];
    var evs := EventsOf(tape[..i]);
    if tape[i].gap > 0 {
      assert EventsOf(tape[..i + 1]) == evs;
    } else {
      assert (evs + [tape[i].event])[..|evs|] == evs;
    }
  }

  lemma {:induction false} AdvancedLength(s: StudyVal, l: Ladder, now: int)
    ensures |Advanced(s, l, now).rows| == |s.rows|
    decreases |s.pendings|
  {
    if s.pendings != [] {
      AdvancedLength(s.(pendings := s.pendings[..|s.pendings| - 1]), l, now);
    }
  }

  // ---------- What becomes of a row ----------

  /** The rows decisions enter are open, with a touch. */
  ghost predicate Enterable(t: Taken) {
    forall j :: 0 <= j < |t.made| ==> t.made[j].touch > 0 && t.made[j].sliced == Unset
  }

  ghost predicate AllEnterable(tape: seq<Record>, took: seq<Taken>)
    requires |took| == |tape|
  {
    forall k :: 0 <= k < |tape| && tape[k].gap == 0 ==> Enterable(took[k])
  }

  lemma {:induction false} TookEnterable(opt: Setting, p: Progress, cfg: Config, books: Books, tape: seq<Record>, took: seq<Taken>)
    requires opt.slices > 0 && |took| == |tape| && TookAll(opt, p, cfg, books, tape, took)
    ensures AllEnterable(tape, took)
    decreases |tape|
  {
    hide TookOne, Enterable, AllEnterable, RunBooks, EventsOf, Along;
    NoneEnters();
    if tape != [] {
      var n := |tape| - 1;
      TookEnterable(opt, p, cfg, books, tape[..n], took[..n]);
      OneEnterable(opt, Along(opt, p, tape[..n], took[..n]), tape[n], took[n], RunBooks(cfg, books, EventsOf(tape)));
      EnterableSnoc(tape, took);
    }
  }

  lemma NoneEnters()
    ensures AllEnterable([], [])
  {
  }

  lemma {:induction false} EnterableSnoc(tape: seq<Record>, took: seq<Taken>)
    requires |took| == |tape| > 0 && AllEnterable(tape[..|tape| - 1], took[..|tape| - 1])
    requires tape[|tape| - 1].gap == 0 ==> Enterable(took[|tape| - 1])
    ensures AllEnterable(tape, took)
  {
    hide Enterable;
    var n := |tape| - 1;
    forall k | 0 <= k < n ensures tape[..n][k] == tape[k] && took[..n][k] == took[k] {}
  }

  lemma {:induction false} OneEnterable(opt: Setting, p: Progress, r: Record, t: Taken, view: Books)
    requires TookOne(opt, p, r, t, view)
    ensures r.gap == 0 ==> Enterable(t)
  {
    hide PerOf, IsArm, IsMerge;
    if r.gap == 0 {
      MergeWalks(opt.side, PerOf(view, opt.side), t.ladder);
    }
  }

  lemma {:induction false} StartedAllAccounted(s: StudyVal, lost: set<nat>, rs: seq<Row>, now: int, step: int, slices: int)
    requires Accounted(s, lost) && slices > 0 && forall j :: 0 <= j < |rs| ==> rs[j].touch > 0 && rs[j].sliced == Unset
    ensures Accounted(StartedAll(s, rs, now, step, slices), lost)
  {
    hide Accounted;
    if rs != [] {
      var n := |rs| - 1;
      StartedAllAccounted(s, lost, rs[..n], now, step, slices);
      StartedAccounted(StartedAll(s, rs[..n], now, step, slices), lost, rs[n], now, step, slices);
    }
  }

  lemma {:induction false} AlongAccounted(opt: Setting, p: Progress, lost: set<nat>, tape: seq<Record>, took: seq<Taken>)
    requires opt.slices > 0 && |took| == |tape| && Accounted(p.study, lost) && AllEnterable(tape, took)
    ensures Accounted(Along(opt, p, tape, took).study, LostAlong(opt, lost, p, tape, took))
    decreases |tape|
  {
    hide Accounted;
    if tape != [] {
      var n := |tape| - 1;
      AlongAccounted(opt, p, lost, tape[..n], took[..n]);
      var b, gone := Along(opt, p, tape[..n], took[..n]).study, LostAlong(opt, lost, p, tape[..n], took[..n]);
      if tape[n].gap > 0 {
        GapLoses(b, gone);
      } else {
        AdvancedAccounted(b, gone, took[n].ladder, tape[n].wall);
        StartedAllAccounted(Advanced(b, took[n].ladder, tape[n].wall), gone, took[n].made, tape[n].wall,
                            TruncDiv(opt.horizon, opt.slices), opt.slices);
      }
    }
  }

  /** The parent that works row i, if any does. */
  function ParentOf(ps: seq<Parent>, i: nat): Option<Parent> {
    if ps == [] then None
    else if ps[|ps| - 1].row == i then Some(ps[|ps| - 1])
    else ParentOf(ps[..|ps| - 1], i)
  }

  lemma {:induction false} DueRow(p: Parent, l: Ladder, now: int)
    ensures Due(p, l, now).row == p.row
    decreases if p.left > 0 then p.left else 0
  {
    if p.left > 0 && now >= p.nextAt {
      DueRow(SliceOnce(p, l), l, now);
    }
  }

  lemma {:induction false} NoParent(ps: seq<Parent>, i: nat)
    requires forall k :: 0 <= k < |ps| ==> ps[k].row != i
    ensures ParentOf(ps, i) == None
  {
    if ps != [] {
      NoParent(ps[..|ps| - 1], i);
    }
  }

  /** A record works the row's own parent and no other touches the row. */
  lemma {:induction false} AdvancedRow(s: StudyVal, l: Ladder, now: int, i: nat)
    requires InOrder(s.pendings) && i < |s.rows|
    ensures var n := Advanced(s, l, now);
      && |n.rows| == |s.rows|
      && match ParentOf(s.pendings, i)
         case None => n.rows[i] == s.rows[i] && ParentOf(n.pendings, i) == None
         case Some(p) =>
           var q := Due(p, l, now);
           if q.left > 0 then n.rows[i] == s.rows[i] && ParentOf(n.pendings, i) == Some(q)
           else n.rows[i] == s.rows[i].(sliced := Outcome(q, s.rows[i])) && ParentOf(n.pendings, i) == None
    decreases |s.pendings|
  {
    hide Due, Outcome;
    if s.pendings != [] {
      var n := |s.pendings| - 1;
      var front, last := s.(pendings := s.pendings[..n]), s.pendings[n];
      AdvancedRow(front, l, now, i);
      DueRow(last, l, now);
      var done := Advanced(front, l, now);
      assert (done.pendings + [Due(last, l, now)])[..|done.pendings|] == done.pendings;
      if last.row == i {
        NoParent(s.pendings[..n], i);
      }
    }
  }

  /** New decisions leave earlier rows and their parents alone. */
  lemma {:induction false} StartedRow(s: StudyVal, rs: seq<Row>, now: int, step: int, slices: int, i: nat)
    requires i < |s.rows|
    ensures var n := StartedAll(s, rs, now, step, slices);
      && |n.rows| == |s.rows| + |rs| && n.rows[i] == s.rows[i] && ParentOf(n.pendings, i) == ParentOf(s.pendings, i)
  {
    if rs != [] {
      StartedRow(s, rs[..|rs| - 1], now, step, slices, i);
      var b := StartedAll(s, rs[..|rs| - 1], now, step, slices);
      var n := StartedAll(s, rs, now, step, slices);
      assert n.pendings[..|b.pendings|] == b.pendings;
    }
  }

  /** And each enters its own row with a parent of its own. */
  lemma {:induction false} StartedNew(s: StudyVal, rs: seq<Row>, now: int, step: int, slices: int, j: nat)
    requires j < |rs|
    ensures var n, i := StartedAll(s, rs, now, step, slices), |s.rows| + j;
      && i < |n.rows| && n.rows[i] == rs[j]
      && ParentOf(n.pendings, i) == Some(Parent(i, rs[j].size, rs[j].size, now, step, slices, 0, Okay, 0))
  {
    var m := |rs| - 1;
    var b, n, i := StartedAll(s, rs[..m], now, step, slices), StartedAll(s, rs, now, step, slices), |s.rows| + j;
    StartedCount(s, rs[..m], now, step, slices);
    assert n.pendings[..|b.pendings|] == b.pendings;
    if j < m {
      StartedNew(s, rs[..m], now, step, slices, j);
    }
  }

  lemma {:induction false} StartedCount(s: StudyVal, rs: seq<Row>, now: int, step: int, slices: int)
    ensures |StartedAll(s, rs, now, step, slices).rows| == |s.rows| + |rs|
  {
    if rs != [] { StartedCount(s, rs[..|rs| - 1], now, step, slices); }
  }

  /** The ladders and times of a tape's events. */
  function Ticks(tape: seq<Record>, took: seq<Taken>): seq<Tick>
    requires |took| == |tape|
    decreases |tape|
  {
    if tape == [] then []
    else
      var n := |tape| - 1;
      Ticks(tape[..n], took[..n]) + if tape[n].gap > 0 then [] else [Tick(took[n].ladder, tape[n].wall)]
  }

  /** Some gap of the tape finds parent p, worked on the events before it, with slices left. */
  predicate GapCatches(p: Parent, tape: seq<Record>, took: seq<Taken>)
    requires |took| == |tape|
  {
    exists g :: 0 <= g < |tape| && Catches(p, tape, took, g)
  }

  predicate Catches(p: Parent, tape: seq<Record>, took: seq<Taken>, g: nat)
    requires |took| == |tape| && g < |tape|
  {
    tape[g].gap > 0 && Lived(p, Ticks(tape[..g], took[..g])).left > 0
  }

  lemma {:induction false} CatchesSnoc(p: Parent, tape: seq<Record>, took: seq<Taken>)
    requires |took| == |tape| > 0
    ensures var n := |tape| - 1;
      GapCatches(p, tape, took) <==> GapCatches(p, tape[..n], took[..n]) || Catches(p, tape, took, n)
  {
    hide Ticks, Lived;
    var n := |tape| - 1;
    forall g | 0 <= g < n ensures Catches(p, tape, took, g) <==> Catches(p, tape[..n], took[..n], g) {
      assert tape[..n][..g] == tape[..g] && took[..n][..g] == took[..g];
    }
  }

  lemma {:induction false} LivedSnoc(p: Parent, tape: seq<Record>, took: seq<Taken>)
    requires |took| == |tape| > 0
    ensures var n := |tape| - 1;
      Lived(p, Ticks(tape, took))
      == var q := Lived(p, Ticks(tape[..n], took[..n]));
        if tape[n].gap > 0 then q else Due(q, took[n].ladder, tape[n].wall)
  {
    var n := |tape| - 1;
    var before := Ticks(tape[..n], took[..n]);
    if tape[n].gap == 0 {
      assert (before + [Tick(took[n].ladder, tape[n].wall)])[..|before|] == before;
    } else {
      assert before + [] == before;
    }
  }

  /** Where a row and its parent are after a tape: the parent caught by a gap, still working, or stopped with its outcome
      in the row. */
  ghost predicate RowIs(e: StudyVal, i: nat, was: Row, p: Parent, tape: seq<Record>, took: seq<Taken>)
    requires |took| == |tape| && i < |e.rows|
  {
    var q := Lived(p, Ticks(tape, took));
    if GapCatches(p, tape, took) then e.rows[i] == was && ParentOf(e.pendings, i) == None
    else if q.left > 0 then e.rows[i] == was && ParentOf(e.pendings, i) == Some(q)
    else e.rows[i] == was.(sliced := Outcome(q, was)) && ParentOf(e.pendings, i) == None
  }

  lemma {:induction false} RowFollows(opt: Setting, s: Progress, lost: set<nat>, tape: seq<Record>, took: seq<Taken>,
                                      i: nat, p: Parent)
    requires opt.slices > 0 && |took| == |tape| && Accounted(s.study, lost) && AllEnterable(tape, took)
    requires i < |s.study.rows| && ParentOf(s.study.pendings, i) == Some(p) && p.left > 0
    ensures var e := Along(opt, s, tape, took).study;
      i < |e.rows| && RowIs(e, i, s.study.rows[i], p, tape, took)
    decreases |tape|
  {
    hide Accounted, Due, Outcome, GapCatches, Catches, Ticks, Lived, Advanced, StartedAll, ParentOf;
    if tape == [] {
      NothingCatches(p);
    } else {
      var n := |tape| - 1;
      RowFollows(opt, s, lost, tape[..n], took[..n], i, p);
      AlongAccounted(opt, s, lost, tape[..n], took[..n]);
      CatchesSnoc(p, tape, took);
      LivedSnoc(p, tape, took);
      var b := Along(opt, s, tape[..n], took[..n]).study;
      RowStep(opt, s, lost, tape, took, i, p, b);
    }
  }

  lemma NothingCatches(p: Parent)
    ensures !GapCatches(p, [], []) && Lived(p, Ticks([], [])) == p
  {
  }

  lemma NoneWaiting(i: nat)
    ensures ParentOf([], i) == None
  {
  }

  lemma DoneStays(p: Parent, l: Ladder, now: int)
    requires p.left <= 0
    ensures Due(p, l, now) == p
  {
  }

  lemma OrderOf(s: StudyVal, lost: set<nat>)
    requires Accounted(s, lost)
    ensures InOrder(s.pendings)
  {
  }

  lemma {:induction false} RowStep(opt: Setting, s: Progress, lost: set<nat>, tape: seq<Record>, took: seq<Taken>,
                                   i: nat, p: Parent, b: StudyVal)
    requires opt.slices > 0 && |took| == |tape| > 0 && i < |s.study.rows|
    requires b == Along(opt, s, tape[..|tape| - 1], took[..|tape| - 1]).study && i < |b.rows|
    requires Accounted(b, LostAlong(opt, lost, s, tape[..|tape| - 1], took[..|tape| - 1]))
    requires RowIs(b, i, s.study.rows[i], p, tape[..|tape| - 1], took[..|tape| - 1])
    ensures var e := Along(opt, s, tape, took).study;
      i < |e.rows| && RowIs(e, i, s.study.rows[i], p, tape, took)
  {
    hide Accounted, Due, Outcome, GapCatches, Ticks, Lived, Advanced, StartedAll, ParentOf, LostAlong, InOrder;
    var n := |tape| - 1;
    var q := Lived(p, Ticks(tape[..n], took[..n]));
    CatchesSnoc(p, tape, took);
    LivedSnoc(p, tape, took);
    if tape[n].gap > 0 {
      NoneWaiting(i);
    } else {
      OrderOf(b, LostAlong(opt, lost, s, tape[..n], took[..n]));
      AdvancedRow(b, took[n].ladder, tape[n].wall, i);
      StartedRow(Advanced(b, took[n].ladder, tape[n].wall), took[n].made, tape[n].wall,
                 TruncDiv(opt.horizon, opt.slices), opt.slices, i);
      if q.left <= 0 { DoneStays(q, took[n].ladder, tape[n].wall); }
    }
  }

  // ---------- The end of the tape ----------

  /** What the sliced arm of a row ends as: nothing if a gap caught its parent, written off if the tape ended first, and
      otherwise the parent's own outcome. */
  function Fate(was: Row, p: Parent, tape: seq<Record>, took: seq<Taken>): Sliced
    requires |took| == |tape|
  {
    var q := Lived(p, Ticks(tape, took));
    if GapCatches(p, tape, took) then Unset
    else if q.left > 0 then TapeEnded
    else Outcome(q, was)
  }

  lemma {:induction false} ParentWorks(ps: seq<Parent>, i: nat)
    ensures ParentOf(ps, i).Some? <==> Works(ps, i)
    ensures ParentOf(ps, i).Some? ==> ParentOf(ps, i).value in ps && ParentOf(ps, i).value.row == i
  {
    if ps != [] {
      var n := |ps| - 1;
      ParentWorks(ps[..n], i);
      if Works(ps, i) && ps[n].row != i {
        var k :| 0 <= k < |ps| && ps[k].row == i;
        assert ps[..n][k].row == i;
      }
      if Works(ps[..n], i) {
        var k :| 0 <= k < n && ps[..n][k].row == i;
        assert ps[k].row == i;
      }
    }
  }

  /** A row worked at the start of a tape ends with its fate; it ends unset if and only if a gap caught its parent. */
  lemma {:induction false} RowFate(opt: Setting, s: Progress, lost: set<nat>, tape: seq<Record>, took: seq<Taken>,
                                   i: nat, p: Parent)
    requires opt.slices > 0 && |took| == |tape| && Accounted(s.study, lost) && AllEnterable(tape, took)
    requires i < |s.study.rows| && ParentOf(s.study.pendings, i) == Some(p)
    ensures var was, e := s.study.rows[i], Finished(Along(opt, s, tape, took).study);
      && i < |e.rows| && e.rows[i] == was.(sliced := Fate(was, p, tape, took))
      && (e.rows[i].sliced == Unset <==> GapCatches(p, tape, took))
  {
    ParentWorks(s.study.pendings, i);
    var k :| 0 <= k < |s.study.pendings| && s.study.pendings[k] == p;
    InFlightOpen(s.study, lost, k);
    hide Accounted, Outcome, GapCatches, Ticks, Lived, ParentOf, Works, Finished, Along;
    RowFollows(opt, s, lost, tape, took, i, p);
    var e, q := Along(opt, s, tape, took).study, Lived(p, Ticks(tape, took));
    ParentWorks(e.pendings, i);
    FinishedRows(e, i);
    SettlesRow(q, s.study.rows[i]);
  }

  lemma InFlightOpen(s: StudyVal, lost: set<nat>, k: nat)
    requires Accounted(s, lost) && k < |s.pendings|
    ensures var p := s.pendings[k];
      p.left > 0 && p.row < |s.rows| && s.rows[p.row].touch > 0 && s.rows[p.row].sliced == Unset
  {
    Worked(s.pendings, k);
  }

  lemma {:induction false} AlongAppend(opt: Setting, s: Progress, a: seq<Record>, b: seq<Record>, ta: seq<Taken>, tb: seq<Taken>)
    requires opt.slices > 0 && |ta| == |a| && |tb| == |b|
    ensures Along(opt, s, a + b, ta + tb) == Along(opt, Along(opt, s, a, ta), b, tb)
    decreases |b|
  {
    if b == [] {
      assert a + b == a && ta + tb == ta;
    } else {
      var n := |b| - 1;
      assert (a + b)[..|a| + n] == a + b[..n] && (ta + tb)[..|a| + n] == ta + tb[..n];
      AlongAppend(opt, s, a, b[..n], ta, tb[..n]);
    }
  }

  // ---------- When a gap catches a parent ----------

  /** The position of the first gap, or the length of a tape that has none. */
  function FirstGap(tape: seq<Record>): (g: nat)
    ensures g <= |tape| && (g < |tape| ==> tape[g].gap > 0)
    ensures forall i :: 0 <= i < g ==> tape[i].gap == 0
  {
    if tape == [] || tape[0].gap > 0 then 0 else 1 + FirstGap(tape[1..])
  }

  /** The tape has a gap, and every event before the first one is earlier than `due`. */
  predicate CutOff(due: int, tape: seq<Record>) {
    var g := FirstGap(tape);
    g < |tape| && forall i :: 0 <= i < g ==> tape[i].wall < due
  }

  /** A parent worked up to the first gap. */
  function ToFirstGap(p: Parent, tape: seq<Record>, took: seq<Taken>): Parent
    requires |took| == |tape|
  {
    Lived(p, Ticks(tape[..FirstGap(tape)], took[..FirstGap(tape)]))
  }

  lemma {:induction false} TicksOfEvents(tape: seq<Record>, took: seq<Taken>)
    requires |took| == |tape| && forall i :: 0 <= i < |tape| ==> tape[i].gap == 0
    ensures var ticks := Ticks(tape, took);
      |ticks| == |tape| && forall i :: 0 <= i < |tape| ==> ticks[i] == Tick(took[i].ladder, tape[i].wall)
    decreases |tape|
  {
    if tape != [] {
      TicksOfEvents(tape[..|tape| - 1], took[..|tape| - 1]);
    }
  }

  /** A parent with no slices left stays as it is. */
  lemma {:induction false} LivedStays(p: Parent, tape: seq<Record>, took: seq<Taken>, f: nat)
    requires |took| == |tape| && f <= |tape| && Lived(p, Ticks(tape[..f], took[..f])).left <= 0
    ensures Lived(p, Ticks(tape, took)) == Lived(p, Ticks(tape[..f], took[..f]))
    decreases |tape|
  {
    hide Lived, Ticks, Due;
    if f == |tape| {
      assert tape[..f] == tape && took[..f] == took;
    } else {
      var n := |tape| - 1;
      assert tape[..n][..f] == tape[..f] && took[..n][..f] == took[..f];
      LivedStays(p, tape[..n], took[..n], f);
      LivedSnoc(p, tape, took);
      DoneStays(Lived(p, Ticks(tape[..n], took[..n])), took[n].ladder, tape[n].wall);
    }
  }

  lemma {:induction false} CaughtAtFirst(p: Parent, tape: seq<Record>, took: seq<Taken>)
    requires |took| == |tape|
    ensures GapCatches(p, tape, took) <==> FirstGap(tape) < |tape| && ToFirstGap(p, tape, took).left > 0
  {
    hide Lived, Ticks, FirstGap;
    var f := FirstGap(tape);
    if ToFirstGap(p, tape, took).left > 0 {
      if f < |tape| { assert Catches(p, tape, took, f); }
    } else {
      forall g | 0 <= g < |tape| ensures !Catches(p, tape, took, g) {
        if g >= f {
          assert tape[..g][..f] == tape[..f] && took[..g][..f] == took[..f];
          LivedStays(p, tape[..g], took[..g], f);
        }
      }
    }
  }

  /** A parent's slices last until the first gap exactly when none failed and every event up to there is before its
      deadline. Its row is then unset, or written off if there was no gap; otherwise the row has the parent's outcome. */
  lemma {:induction false} FateIs(was: Row, p: Parent, tape: seq<Record>, took: seq<Taken>)
    requires |took| == |tape| && p.left > 0 && p.fault == Okay
    ensures var f, q := FirstGap(tape), ToFirstGap(p, tape, took);
      && (q.left > 0 <==> q.fault == Okay && forall i :: 0 <= i < f ==> tape[i].wall < Deadline(p))
      && (GapCatches(p, tape, took) <==> q.fault == Okay && CutOff(Deadline(p), tape))
      && Fate(was, p, tape, took)
         == if q.left > 0 then (if f < |tape| then Unset else TapeEnded) else Outcome(q, was)
  {
    hide Lived, Ticks, FirstGap, Deadline, Outcome, GapCatches;
    var f, q := FirstGap(tape), ToFirstGap(p, tape, took);
    TicksOfEvents(tape[..f], took[..f]);
    LivedDeadline(p, Ticks(tape[..f], took[..f]));
    CaughtAtFirst(p, tape, took);
    if q.left <= 0 {
      LivedStays(p, tape, took, f);
    } else if f == |tape| {
      assert tape[..f] == tape && took[..f] == took;
    }
  }

  /** The ladders of the events before the first gap are empty or can fill a whole order of that size. */
  predicate LaddersFill(size: Qty, tape: seq<Record>, took: seq<Taken>)
    requires |took| == |tape|
  {
    forall i :: 0 <= i < FirstGap(tape) ==> CanFill(took[i].ladder, size)
  }

  lemma {:induction false} DeepNoneFails(p: Parent, tape: seq<Record>, took: seq<Taken>)
    requires |took| == |tape| && Conserved(p) && p.fault == Okay && p.remaining <= p.size
    requires forall i :: 0 <= i < |tape| && tape[i].gap == 0 ==> Positive(took[i].ladder)
    requires LaddersFill(p.size, tape, took)
    ensures ToFirstGap(p, tape, took).fault == Okay
  {
    hide Lived, Ticks, FirstGap, Positive, CanFill, Conserved;
    var f := FirstGap(tape);
    TicksOfEvents(tape[..f], took[..f]);
    NoneFails(p, Ticks(tape[..f], took[..f]), p.size);
  }

  // ---------- What becomes of a decision ----------

  /** The parent a decision schedules. */
  function Scheduled(opt: Setting, i: nat, r: Row, now: int): Parent
    requires opt.slices > 0
  {
    Parent(i, r.size, r.size, now, TruncDiv(opt.horizon, opt.slices), opt.slices, 0, Okay, 0)
  }

  /** When the last slice of a decision made at `at` falls due. */
  function DueBy(opt: Setting, at: int): int
    requires opt.slices > 0
  {
    var step := TruncDiv(opt.horizon, opt.slices);
    at + (opt.slices - 1) * if step > 0 then step else 0
  }

  lemma ScheduledDue(opt: Setting, i: nat, r: Row, now: int)
    requires opt.slices > 0
    ensures var p := Scheduled(opt, i, r, now);
      Deadline(p) == DueBy(opt, now) && Conserved(p) && p.remaining == p.size == r.size && p.left > 0 && p.fault == Okay
  {
  }

  lemma EnterableAt(tape: seq<Record>, took: seq<Taken>, k: nat, j: nat)
    requires |took| == |tape| && AllEnterable(tape, took) && k < |tape| && tape[k].gap == 0 && j < |took[k].made|
    ensures took[k].made[j].touch > 0
  {
  }

  /** The ladder of every event holds positive levels only. */
  lemma {:induction false} TookPositive(opt: Setting, p: Progress, cfg: Config, books: Books, tape: seq<Record>, took: seq<Taken>)
    requires opt.slices > 0 && |took| == |tape| && TookAll(opt, p, cfg, books, tape, took)
    ensures forall i :: 0 <= i < |tape| && tape[i].gap == 0 ==> Positive(took[i].ladder)
    decreases |tape|
  {
    hide Positive, PerOf, IsDecision, IsMerge, Along, RunBooks;
    if tape != [] {
      var n := |tape| - 1;
      TookPositive(opt, p, cfg, books, tape[..n], took[..n]);
      assert forall i :: 0 <= i < n ==> tape[..n][i] == tape[i] && took[..n][i] == took[i];
      if tape[n].gap == 0 {
        MergeWalks(opt.side, PerOf(RunBooks(cfg, books, EventsOf(tape)), opt.side), took[n].ladder);
      }
    }
  }

  /** After record k the rows of its decision are there, each with the parent scheduled for it. */
  lemma {:induction false} DecisionEnters(opt: Setting, s: Progress, tape: seq<Record>, took: seq<Taken>, k: nat, j: nat)
    requires opt.slices > 0 && |took| == |tape| && k < |tape| && tape[k].gap == 0 && j < |took[k].made|
    ensures var i, row := |Along(opt, s, tape[..k], took[..k]).study.rows| + j, took[k].made[j];
      var mid := Along(opt, s, tape[..k + 1], took[..k + 1]).study;
      && i < |mid.rows| && mid.rows[i] == row
      && ParentOf(mid.pendings, i) == Some(Scheduled(opt, i, row, tape[k].wall))
  {
    hide ParentOf, Advanced, StartedAll;
    var before := Along(opt, s, tape[..k], took[..k]);
    assert tape[..k + 1][..k] == tape[..k] && took[..k + 1][..k] == took[..k];
    AdvancedLength(before.study, took[k].ladder, tape[k].wall);
    StartedNew(Advanced(before.study, took[k].ladder, tape[k].wall), took[k].made, tape[k].wall,
               TruncDiv(opt.horizon, opt.slices), opt.slices, j);
  }

  /** The j-th row of the decision made at record k ends with the fate its parent met on the records after k: unset if and
      only if a gap found the parent with slices left. */
  lemma {:induction false} DecisionMeets(opt: Setting, s: Progress, lost: set<nat>, cfg: Config, books: Books,
                                         tape: seq<Record>, took: seq<Taken>, k: nat, j: nat)
    requires opt.slices > 0 && |took| == |tape| && Accounted(s.study, lost) && TookAll(opt, s, cfg, books, tape, took)
    requires k < |tape| && tape[k].gap == 0 && j < |took[k].made|
    ensures var i, row := |Along(opt, s, tape[..k], took[..k]).study.rows| + j, took[k].made[j];
      var p, e := Scheduled(opt, i, row, tape[k].wall), Finished(Along(opt, s, tape, took).study);
      && i < |e.rows| && e.rows[i] == row.(sliced := Fate(row, p, tape[k + 1..], took[k + 1..]))
      && (e.rows[i].sliced == Unset <==> GapCatches(p, tape[k + 1..], took[k + 1..]))
  {
    hide Accounted, GapCatches, ParentOf, TookAll, Finished, Fate, Along, LostAlong, Enterable, Scheduled;
    var a, ta, b, tb := tape[..k + 1], took[..k + 1], tape[k + 1..], took[k + 1..];
    assert a + b == tape && ta + tb == took;
    TookEnterable(opt, s, cfg, books, tape, took);
    AlongAccounted(opt, s, lost, a, ta);
    DecisionEnters(opt, s, tape, took, k, j);
    var i := |Along(opt, s, tape[..k], took[..k]).study.rows| + j;
    RowFate(opt, Along(opt, s, a, ta), LostAlong(opt, lost, s, a, ta), b, tb, i,
            Scheduled(opt, i, took[k].made[j], tape[k].wall));
    AlongAppend(opt, s, a, b, ta, tb);
  }

  /** Over any tape: the j-th row of the decision made at record k ends with the fate its parent met on the records after
      k. If no slice failed before the first gap among these, the row is unset if and only if there is such a gap and
      every event before it is earlier than the last slice; it is written off if and only if there is no gap and no event
      so late. If a slice failed, the row says so. */
  lemma {:induction false} DecisionFate(opt: Setting, s: Progress, lost: set<nat>, cfg: Config, books: Books,
                                        tape: seq<Record>, took: seq<Taken>, k: nat, j: nat)
    requires opt.slices > 0 && |took| == |tape| && Accounted(s.study, lost) && TookAll(opt, s, cfg, books, tape, took)
    requires k < |tape| && tape[k].gap == 0 && j < |took[k].made|
    ensures var i, row := |Along(opt, s, tape[..k], took[..k]).study.rows| + j, took[k].made[j];
      var e, rest := Finished(Along(opt, s, tape, took).study), tape[k + 1..];
      var q, due := ToFirstGap(Scheduled(opt, i, row, tape[k].wall), rest, took[k + 1..]), DueBy(opt, tape[k].wall);
      && i < |e.rows| && e.rows[i] == row.(sliced := e.rows[i].sliced)
      && (e.rows[i].sliced == Unset <==> q.fault == Okay && CutOff(due, rest))
      && (e.rows[i].sliced == TapeEnded <==>
            q.fault == Okay && FirstGap(rest) == |rest| && forall x :: 0 <= x < |rest| ==> rest[x].wall < due)
      && (e.rows[i].sliced in {Unset, TapeEnded} || e.rows[i].sliced == Outcome(q, row))
  {
    hide Accounted, GapCatches, TookAll, Along, Finished, Fate, Enterable, Scheduled, ToFirstGap, Deadline, DueBy, FirstGap;
    var i, row := |Along(opt, s, tape[..k], took[..k]).study.rows| + j, took[k].made[j];
    var p, rest := Scheduled(opt, i, row, tape[k].wall), tape[k + 1..];
    DecisionMeets(opt, s, lost, cfg, books, tape, took, k, j);
    ScheduledDue(opt, i, row, tape[k].wall);
    FateIs(row, p, rest, took[k + 1..]);
    TookEnterable(opt, s, cfg, books, tape, took);
    SettlesRow(ToFirstGap(p, rest, took[k + 1..]), row) by { EnterableAt(tape, took, k, j); }
  }

  /** So while every ladder is empty or can fill the whole order, the tape's times alone decide. */
  lemma {:induction false} DeepDecisionFate(opt: Setting, s: Progress, lost: set<nat>, cfg: Config, books: Books,
                                            tape: seq<Record>, took: seq<Taken>, k: nat, j: nat)
    requires opt.slices > 0 && |took| == |tape| && Accounted(s.study, lost) && TookAll(opt, s, cfg, books, tape, took)
    requires k < |tape| && tape[k].gap == 0 && j < |took[k].made|
    requires LaddersFill(took[k].made[j].size, tape[k + 1..], took[k + 1..])
    ensures var i, e := |Along(opt, s, tape[..k], took[..k]).study.rows| + j, Finished(Along(opt, s, tape, took).study);
      && i < |e.rows| && (e.rows[i].sliced == Unset <==> CutOff(DueBy(opt, tape[k].wall), tape[k + 1..]))
  {
    hide Accounted, TookAll, Along, Finished, Scheduled, ToFirstGap, Deadline, DueBy, CutOff, LaddersFill, Positive, Conserved;
    var i, row := |Along(opt, s, tape[..k], took[..k]).study.rows| + j, took[k].made[j];
    DecisionFate(opt, s, lost, cfg, books, tape, took, k, j);
    ScheduledDue(opt, i, row, tape[k].wall);
    TookPositive(opt, s, cfg, books, tape, took);
    DeepNoneFails(Scheduled(opt, i, row, tape[k].wall), tape[k + 1..], took[k + 1..]);
  }

  /** The failing input: whatever the market did, the rows of a decision with a gap right after it end unset. */
  lemma {:induction false} GapRightAfter(opt: Setting, s: Progress, lost: set<nat>, cfg: Config, books: Books,
                                         tape: seq<Record>, took: seq<Taken>, k: nat, j: nat)
    requires opt.slices > 0 && |took| == |tape| && Accounted(s.study, lost) && TookAll(opt, s, cfg, books, tape, took)
    requires k + 1 < |tape| && tape[k].gap == 0 && tape[k + 1].gap > 0 && j < |took[k].made|
    ensures var i, e := |Along(opt, s, tape[..k], took[..k]).study.rows| + j, Finished(Along(opt, s, tape, took).study);
      i < |e.rows| && e.rows[i].sliced == Unset
  {
    hide Accounted, TookAll, Along, Finished, DueBy;
    assert tape[k + 1..][0] == tape[k + 1] && FirstGap(tape[k + 1..]) == 0;
    DeepDecisionFate(opt, s, lost, cfg, books, tape, took, k, j);
  }

  /** Every row a tape adds is a row of the decision made at one of its events. */
  lemma {:induction false} RowDecided(opt: Setting, s: Progress, tape: seq<Record>, took: seq<Taken>, i: nat)
    returns (k: nat, j: nat)
    requires opt.slices > 0 && |took| == |tape|
    requires |s.study.rows| <= i < |Along(opt, s, tape, took).study.rows|
    ensures k < |tape| && tape[k].gap == 0 && j < |took[k].made|
    ensures i == |Along(opt, s, tape[..k], took[..k]).study.rows| + j
    decreases |tape|
  {
    hide Advanced, StartedAll;
    var n := |tape| - 1;
    var before := Along(opt, s, tape[..n], took[..n]).study;
    if i < |before.rows| {
      k, j := RowDecided(opt, s, tape[..n], took[..n], i);
      assert tape[..n][..k] == tape[..k] && took[..n][..k] == took[..k];
    } else {
      AdvancedLength(before, took[n].ladder, tape[n].wall);
      StartedCount(Advanced(before, took[n].ladder, tape[n].wall), took[n].made, tape[n].wall,
                   TruncDiv(opt.horizon, opt.slices), opt.slices);
      k, j := n, i - |before.rows|;
    }
  }
}
