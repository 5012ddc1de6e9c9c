/** The execution-cost study: replays a tape through an engine and works every decision three ways. */
module TcaStudy {
  import opened Common
  import opened EngineSpec
  import opened Book
  import opened Engine
  import opened ExecCost
  import opened Merge
  import opened CostTheory
  import opened SliceSpec
  import opened StudyRuns

  /** In every decision whose two arms fill, routing is no worse than the best venue alone, up to rounding. */
  lemma {:induction false} DecisionRoutes(l: Ladder, side: Side, now: int, size: Qty, r: Row)
    requires l != [] && Liquid(side, l) && IsDecision(l, side, now, size, r) && r.naive.err == Okay
    ensures r.routed.err == Okay || r.routed.err == Overflow
    ensures r.routed.err == Okay && side == Ask ==> r.routed.cost.notional <= r.naive.cost.notional + r.naive.cost.levels - 1
    ensures r.routed.err == Okay && side == Bid ==> r.routed.cost.notional >= r.naive.cost.notional - (r.routed.cost.levels - 1)
  {
    var v := l[0].venue;
    VenueTotal(l, v);
    if r.routed.err == Okay {
      RoutedAgainstNaive(side, l, v, size, r.routed.cost, r.naive.cost);
    }
  }

  lemma {:induction false} VenueTotal(l: Ladder, v: Venue)
    requires Positive(l)
    ensures Total(OnVenue(l, v)) <= Total(l)
  {
    MaskedShape(Ask, l, v);
    MaskedPays(Ask, l, v, 0);
    DeeperTotal(l, Masked(l, v));
  }

  /** What Walk returns is what the slice step on values expects. */
  lemma WalkErrIs(l: Ladder, side: Side, q: Qty, cost: Cost, err: WalkError)
    requires l != [] && q > 0 && IsWalk(l, side, q, cost, err)
    ensures err == WalkErr(l, q)
    ensures err == Okay ==> cost.notional == NotionalOf(Fills(l, q))
  {
  }

  method PullLevels(eng: Engine, v: Venue, side: Side) returns (lvs: seq<Level>)
    requires eng.Valid()
    ensures lvs == LevelsOf(eng.view, v, side)
  {
    hide Book.Valid, Book.Value;
    var out := eng.Levels(v, side, LADDER_DEPTH);
    lvs := if out == null then [] else out[..];
  }

  /** The consolidated ladder of one side, out of the engine. */
  method PullLadder(eng: Engine, side: Side) returns (l: Ladder)
    requires eng.Valid()
    ensures IsMerge(side, PerOf(eng.view, side), l) && Liquid(side, l)
  {
    hide IsMerge, Positive, BestFirst, Engine.Valid, LevelsOf;
    var c := PullLevels(eng, COINBASE, side);
    var k := PullLevels(eng, KRAKEN, side);
    var per: PerVenue := map[COINBASE := c, KRAKEN := k];
    l := Merge.Merge(side, per);
    MergeWalks(side, per, l);
  }

  lemma DecisionOpens(l: Ladder, side: Side, now: int, r: Row)
    requires l != [] && Liquid(side, l) && IsDecision(l, side, now, r.size, r)
    ensures r.touch > 0 && r.sliced == Unset
  {
    PositiveAt(l, 0);
  }

  class Pending {
    const rowIdx: nat
    const size: Qty
    const step: int
    var remaining: Qty
    var nextAt: int
    var left: int
    var notional: Int64
    var fault: WalkError
    var qtyDone: Qty

    ghost function Value(): Parent
      reads this
    {
      Parent(rowIdx, size, remaining, nextAt, step, left, notional, fault, qtyDone)
    }

    constructor (rowIdx: nat, size: Qty, now: int, step: int, slices: int)
      ensures Value() == Parent(rowIdx, size, size, now, step, slices, 0, Okay, 0)
    {
      this.rowIdx, this.size, this.step := rowIdx, size, step;
      remaining, nextAt, left := size, now, slices;
      notional, fault, qtyDone := 0, Okay, 0;
    }

    /** One slice. Its size may be zero, and the ladder may be empty: then only time passes. */
    method WorkSlice(l: Ladder, side: Side)
      requires left > 0 && Conserved(Value()) && Liquid(side, l)
      modifies this
      ensures Value() == SliceOnce(old(Value()), l) && Conserved(Value())
    {
      hide Positive, BestFirst, IsWalk, WalkErr, NotionalOf, Fills, Wrap64;
      SliceConserves(Value(), l);
      SliceQtyFits(remaining, left);
      var q: int := TruncDiv(remaining, left);
      if left == 1 {
        q := remaining;
      }
      if q > 0 && |l| > 0 {
        var cost, err := Walk(l, side, q);
        WalkErrIs(l, side, q, cost, err);
        if err != Okay {
          fault := err;
          left := 0;
          return;
        }
        notional := Wrap64(notional + cost.notional);
        qtyDone := Wrap64(qtyDone + q);
        remaining := Wrap64(remaining - q);
      }
      left := left - 1;
      nextAt := nextAt + step;
    }

    /** Every slice whose time has come. */
    method Work(l: Ladder, side: Side, now: int)
      requires Conserved(Value()) && Liquid(side, l)
      modifies this
      ensures Value() == Due(old(Value()), l, now) && Conserved(Value())
    {
      hide SliceOnce, Conserved, Liquid;
      ghost var was := Value();
      while left > 0 && now >= nextAt
        invariant Conserved(Value()) && Due(Value(), l, now) == Due(was, l, now)
        decreases if left > 0 then left else 0
      {
        assert Conserved(Value()) ==> SliceOnce(Value(), l).left < left by {
          if Conserved(Value()) { SliceConserves(Value(), l); }
        }
        WorkSlice(l, side);
      }
    }
  }

  lemma InFlight(s: StudyVal, lost: set<nat>, k: nat)
    requires Accounted(s, lost) && k < |s.pendings|
    ensures var p := s.pendings[k]; Conserved(p) && p.left > 0 && p.fault == Okay && p.row < |s.rows|
  {
  }

  lemma NothingFinished(s: StudyVal)
    ensures Finished(s.(pendings := s.pendings[..0])) == s.(pendings := [])
  {
  }

  lemma {:induction false} FinishedLength(s: StudyVal)
    ensures |Finished(s).rows| == |s.rows| && Finished(s).pendings == []
    decreases |s.pendings|
  {
    if s.pendings != [] {
      FinishedLength(s.(pendings := s.pendings[..|s.pendings| - 1]));
    }
  }

  lemma AdvancedSnoc(s: StudyVal, i: nat, l: Ladder, now: int)
    requires i < |s.pendings|
    ensures var done, p := Advanced(s.(pendings := s.pendings[..i]), l, now), Due(s.pendings[i], l, now);
      Advanced(s.(pendings := s.pendings[..i + 1]), l, now)
      == if p.left > 0 then done.(pendings := done.pendings + [p]) else done.(rows := SettledRow(done.rows, p))
  {
    assert s.pendings[..i + 1][..i] == s.pendings[..i];
  }

  lemma FinishedSnoc(s: StudyVal, i: nat)
    requires i < |s.pendings| && s.pendings[i].row < |s.rows|
    ensures var f, r := Finished(s.(pendings := s.pendings[..i])), s.pendings[i].row;
      && |f.rows| == |s.rows|
      && Finished(s.(pendings := s.pendings[..i + 1])) == f.(rows := f.rows[r := f.rows[r].(sliced := TapeEnded)])
  {
    FinishedLength(s.(pendings := s.pendings[..i]));
    assert s.pendings[..i + 1][..i] == s.pendings[..i];
  }

  lemma NothingAdvanced(s: StudyVal, l: Ladder, now: int)
    ensures Advanced(s.(pendings := s.pendings[..0]), l, now) == s.(pendings := [])
  {
  }

  /** Halfway through a record, the parents kept so far come from rows before those still waiting. */
  lemma {:induction false} StillInOrder(s: StudyVal, lost: set<nat>, i: nat, l: Ladder, now: int)
    requires Accounted(s, lost) && i < |s.pendings|
    ensures var kept := Advanced(s.(pendings := s.pendings[..i]), l, now).pendings;
      forall k :: 0 <= k < |kept| ==> kept[k].row < s.pendings[i].row
    ensures forall k :: i < k < |s.pendings| ==> s.pendings[i].row < s.pendings[k].row
  {
    AdvancePrefix(s, lost, i, l, now);
    var kept := Advanced(s.(pendings := s.pendings[..i]), l, now).pendings;
    var all := kept + s.pendings[i..];
    assert all[|kept|] == s.pendings[i] && InOrder(all);
    assert forall k :: 0 <= k < |kept| ==> all[k] == kept[k];
  }

  class Study {
    const sizes: seq<Qty>
    const side: Side
    const slices: int
    const horizon: int
    const every: int
    var now: int
    var nextDec: Option<int>
    var rows: seq<Row>
    /** The parents in flight: the first `count` elements. */
    var pendings: array<Pending>
    var count: nat
    var skipped: nat
    ghost var parents: seq<Pending>
    /** Their values. */
    ghost var inFlight: seq<Parent>
    /** Rows whose parent a gap took. */
    ghost var lost: set<nat>

    ghost function Value(): StudyVal
      reads this
    {
      StudyVal(rows, inFlight)
    }

    /** The parents in flight. */
    ghost function Working(): set<Pending>
      reads this`parents
    {
      set p | p in parents
    }

    ghost predicate Holds()
      reads this, pendings, parents
    {
      && |parents| == |inFlight| == count <= pendings.Length
      && (forall i :: 0 <= i < count ==> pendings[i] == parents[i] && parents[i].Value() == inFlight[i])
    }

    ghost predicate Valid()
      reads this, pendings, parents
    {
      slices > 0 && Holds() && Accounted(Value(), lost)
    }

    constructor (sizes: seq<Qty>, side: Side, slices: int, horizon: int, every: int)
      requires slices >= 1
      ensures Valid() && rows == [] && parents == [] && lost == {} && fresh(pendings) && skipped == 0
      ensures this.sizes == sizes && this.side == side && this.slices == slices
      ensures this.horizon == horizon && this.every == every && nextDec == None
    {
      this.sizes, this.side, this.slices, this.horizon, this.every := sizes, side, slices, horizon, every;
      now, nextDec, rows, skipped := 0, None, [], 0;
      pendings, count := new Pending[0], 0;
      parents, inFlight, lost := [], [], {};
    }

    /** After i of the parents `all`: those still working, kept, fill the front of the array and have the values of
        `done`, whose rows are the rows; the rest waits untouched. */
    ghost predicate Midway(i: nat, kept: seq<Pending>, all: seq<Pending>, was: StudyVal, done: StudyVal)
      reads this, pendings, kept, all
    {
      && i <= |all| == |was.pendings| <= pendings.Length && |kept| == |done.pendings| <= i && rows == done.rows
      && (forall k :: 0 <= k < |kept| ==> pendings[k] == kept[k] && kept[k].Value() == done.pendings[k])
      && (forall k :: i <= k < |all| ==> pendings[k] == all[k] && all[k].Value() == was.pendings[k])
      && (forall p :: p in kept ==> p in all)
    }

    /** Executes every slice whose time has come, filtering the pendings in place: what is left is some of the same
        parents, with the values the step on values gives. */
    method AdvanceSlices(l: Ladder)
      requires Valid() && Liquid(side, l)
      modifies this`rows, this`count, this`parents, this`inFlight, pendings, parents
      ensures Valid() && Value() == Advanced(old(Value()), l, now) && WrittenOnce(old(rows), rows)
      ensures forall p :: p in parents ==> p in old(parents)
    {
      hide Accounted, Due, Conserved, Liquid, WrittenOnce, Advanced;
      ghost var was, all, kept: seq<Pending> := Value(), parents, [];
      ghost var done := was.(pendings := []);
      AdvancedAccounted(was, lost, l, now);
      var i, live := 0, 0;
      NothingAdvanced(was, l, now);
      assert Midway(0, kept, all, was, done);
      hide Midway, Valid;
      while i < count
        invariant i <= count == |all| && live == |kept| && Midway(i, kept, all, was, done)
        invariant done == Advanced(was.(pendings := was.pendings[..i]), l, now)
      {
        ghost var p := Due(was.pendings[i], l, now);
        AdvancedSnoc(was, i, l, now);
        AdvancedLength(was.(pendings := was.pendings[..i]), l, now);
        StillInOrder(was, lost, i, l, now);
        InFlight(was, lost, i);
        live, kept := Turn(i, live, l, kept, all, was, done);
        done := if p.left > 0 then done.(pendings := done.pendings + [p]) else done.(rows := SettledRow(done.rows, p));
        i := i + 1;
      }
      assert was.pendings[..count] == was.pendings;
      Close(live, kept, all, was, done);
    }

    /** Only the parents kept are pending from now on. */
    method Close(live: nat, ghost kept: seq<Pending>, ghost all: seq<Pending>, ghost was: StudyVal, ghost done: StudyVal)
      requires slices > 0 && Midway(|all|, kept, all, was, done) && live == |kept| && Accounted(done, lost)
      modifies this`count, this`parents, this`inFlight
      ensures Valid() && Value() == done && parents == kept && forall p :: p in parents ==> p in all
    {
      hide Accounted;
      count := live;
      parents, inFlight := kept, done.pendings;
    }

    /** One turn of that loop. */
    method Turn(i: nat, live: nat, l: Ladder, ghost kept: seq<Pending>, ghost all: seq<Pending>, ghost was: StudyVal,
                ghost done: StudyVal)
      returns (next: nat, ghost nowKept: seq<Pending>)
      requires Liquid(side, l) && i < |all| && live == |kept| && Midway(i, kept, all, was, done)
      requires var p := was.pendings[i]; Conserved(p) && p.left > 0 && p.fault == Okay && p.row < |done.rows|
      requires forall k :: 0 <= k < |done.pendings| ==> done.pendings[k].row < was.pendings[i].row
      requires forall k :: i < k < |was.pendings| ==> was.pendings[i].row < was.pendings[k].row
      modifies this`rows, pendings, all[i]
      ensures var p := Due(was.pendings[i], l, now);
        && (p.left > 0 ==> Midway(i + 1, nowKept, all, was, done.(pendings := done.pendings + [p])))
        && (p.left <= 0 ==> Midway(i + 1, nowKept, all, was, done.(rows := SettledRow(done.rows, p))))
      ensures next == |nowKept|
    {
      hide Due, Conserved, Liquid, SettledRow, Midway;
      var p := WorkAt(i, l, kept, all, was, done);
      next, nowKept := live, kept;
      if p.left > 0 {
        Keep(i, live, p, kept, all, was, done);
        next, nowKept := next + 1, kept + [p];
      }
    }

    /** Works the i-th parent; the array is not touched. */
    method WorkAt(i: nat, l: Ladder, ghost kept: seq<Pending>, ghost all: seq<Pending>, ghost was: StudyVal,
                  ghost done: StudyVal) returns (p: Pending)
      requires Liquid(side, l) && i < |all| && Midway(i, kept, all, was, done)
      requires var p := was.pendings[i]; Conserved(p) && p.left > 0 && p.fault == Okay && p.row < |done.rows|
      requires forall k :: 0 <= k < |done.pendings| ==> done.pendings[k].row < was.pendings[i].row
      requires forall k :: i < k < |was.pendings| ==> was.pendings[i].row < was.pendings[k].row
      modifies this`rows, all[i]
      ensures p == all[i] && p.Value() == Due(was.pendings[i], l, now)
      ensures Midway(i + 1, kept, all, was, if p.left > 0 then done else done.(rows := SettledRow(done.rows, p.Value())))
      ensures |kept| <= i
    {
      hide Due, Conserved, Liquid, SettledRow;
      p := pendings[i];
      assert forall k :: 0 <= k < |kept| ==> kept[k].Value().row < p.rowIdx;
      assert forall k :: i < k < |all| ==> p.rowIdx < all[k].Value().row;
      WorkOne(p, l);
    }

    /** Moves a live parent to the end of those kept, over one already passed. */
    method Keep(i: nat, live: nat, p: Pending, ghost kept: seq<Pending>, ghost all: seq<Pending>, ghost was: StudyVal,
                ghost done: StudyVal)
      requires live == |kept| <= i < |all| && p == all[i] && Midway(i + 1, kept, all, was, done)
      modifies pendings
      ensures Midway(i + 1, kept + [p], all, was, done.(pendings := done.pendings + [p.Value()]))
    {
      pendings[live] := p;
    }

    /** Works one parent and, when that stops it, writes its row. */
    method WorkOne(p: Pending, l: Ladder)
      requires Liquid(side, l) && p.rowIdx < |rows| && Conserved(p.Value()) && p.left > 0 && p.fault == Okay
      modifies this`rows, p
      ensures p.Value() == Due(old(p.Value()), l, now)
      ensures rows == if p.left > 0 then old(rows) else SettledRow(old(rows), p.Value())
    {
      hide Due, Conserved, Liquid;
      DueKeeps(p.Value(), l, now);
      p.Work(l, side, now);
      if p.left > 0 {
        return;
      }
      if p.fault != Okay {
        rows := rows[p.rowIdx := rows[p.rowIdx].(sliced := Failed(p.fault))];
      } else {
        Settle(p);
      }
    }

    /** Turns a finished parent into its row's outcome. */
    method Settle(p: Pending)
      requires p.rowIdx < |rows| && p.fault == Okay
      modifies this`rows
      ensures rows == SettledRow(old(rows), p.Value())
    {
      var r := rows[p.rowIdx];
      var filled := Wrap64(p.size - p.remaining);
      if filled <= 0 || p.notional <= 0 {
        rows := rows[p.rowIdx := r.(sliced := NoFill)];
        return;
      }
      if r.touch == 0 {
        return;
      }
      rows := rows[p.rowIdx := r.(sliced := Settled(filled, p.notional))];
    }

    /** A larger array with the same parents; p fills the rest. */
    method Grow(p: Pending)
      requires Holds()
      modifies this`pendings
      ensures Holds() && fresh(pendings) && pendings.Length > count
    {
      var larger := new Pending[2 * count + 1](_ => p);
      for i := 0 to count
        modifies larger
        invariant forall k :: 0 <= k < i ==> larger[k] == parents[k]
      {
        larger[i] := pendings[i];
      }
      pendings := larger;
    }

    /** Adds a parent at the end, in a larger array when this one is full. */
    method Append(p: Pending)
      requires Holds()
      modifies this`pendings, this`count, this`parents, this`inFlight, pendings
      ensures Holds() && parents == old(parents) + [p] && inFlight == old(inFlight) + [p.Value()]
      ensures pendings == old(pendings) || fresh(pendings)
    {
      if count == pendings.Length {
        Grow(p);
      }
      pendings[count] := p;
      count := count + 1;
      parents, inFlight := parents + [p], inFlight + [p.Value()];
    }

    /** Prices every size at once on the best venue and across both, and schedules its slices. */
    method StartDecision(l: Ladder) returns (ghost made: seq<Row>)
      requires Valid() && Liquid(side, l)
      modifies this`rows, this`pendings, this`count, this`parents, this`inFlight, pendings
      ensures Valid() && Value() == StartedAll(old(Value()), made, now, TruncDiv(horizon, slices), slices)
      ensures |made| == if l == [] then 0 else |sizes|
      ensures l != [] ==> Decided(l, side, now, sizes, made)
      ensures WrittenOnce(old(rows), rows)
      ensures fresh(Working() - old(Working()))
      ensures pendings == old(pendings) || fresh(pendings)
    {
      assert slices > 0;
      hide Working, Valid, Value, IsDecision, Liquid, WrittenOnce, StartedAll, Started;
      ghost var was, step := Value(), TruncDiv(horizon, slices);
      made := [];
      NothingWritten(rows);
      StartedNone(was, now, step, slices);
      if |l| == 0 {
        return;
      }
      assert Decided(l, side, now, sizes, made);
      hide Decided;
      for i := 0 to |sizes|
        invariant Valid() && Value() == StartedAll(was, made, now, step, slices)
        invariant |made| == i && Decided(l, side, now, sizes, made)
        invariant WrittenOnce(old(rows), rows)
        invariant fresh(Working() - old(Working()))
        invariant pendings == old(pendings) || fresh(pendings)
      {
        ghost var before := rows;
        ghost var r, p := StartOne(l, sizes[i]);
        StillWrittenOnce(old(rows), before, rows);
        StartedSnoc(was, made, r, now, step, slices);
        DecidedSnoc(l, side, now, sizes, made, r);
        made := made + [r];
      }
    }

    /** One size of a decision. */
    method StartOne(l: Ladder, size: Qty) returns (ghost r: Row, ghost p: Pending)
      requires Valid() && l != [] && Liquid(side, l)
      modifies this`rows, this`pendings, this`count, this`parents, this`inFlight, pendings
      ensures Valid() && Value() == Started(old(Value()), r, now, TruncDiv(horizon, slices), slices)
      ensures IsDecision(l, side, now, size, r) && WrittenOnce(old(rows), rows)
      ensures Working() == old(Working()) + {p} && fresh(p)
      ensures pendings == old(pendings) || fresh(pendings)
    {
      assert slices > 0;
      hide Working, Valid, Value, IsDecision, Liquid, WrittenOnce, Started;
      var row := Price(l, size);
      p := Enter(row, l);
      r := row;
    }

    /** Both immediate arms of one size. */
    method Price(l: Ladder, size: Qty) returns (r: Row)
      requires l != [] && Liquid(side, l)
      ensures IsDecision(l, side, now, size, r) && r.size == size
    {
      var depth := TotalDepth(l);
      var single := SameVenue(l, l[0].venue);
      SublistIsWalkable(side, l, l[0].venue);
      hide IsWalk, BestFirst, Positive, OnVenue;
      var c, err := Walk(single, side, size);
      var d, err2 := Walk(l, side, size);
      r := Row(now, size, l[0].price, depth, Arm(c, err), Arm(d, err2), Unset);
    }

    static method SameVenue(l: Ladder, best: Venue) returns (single: Ladder)
      ensures single == OnVenue(l, best)
    {
      single := [];
      for i := 0 to |l|
        invariant single == OnVenue(l[..i], best)
      {
        assert l[..i + 1][..i] == l[..i];
        if l[i].venue == best {
          single := single + [l[i]];
        }
      }
      assert l[..|l|] == l;
    }

    /** Records a decision and schedules its sliced arm. */
    method Enter(r: Row, ghost l: Ladder) returns (ghost p: Pending)
      requires Valid() && l != [] && Liquid(side, l) && IsDecision(l, side, now, r.size, r)
      modifies this`rows, this`pendings, this`count, this`parents, this`inFlight, pendings
      ensures Valid() && Value() == Started(old(Value()), r, now, TruncDiv(horizon, slices), slices)
      ensures WrittenOnce(old(rows), rows)
      ensures Working() == old(Working()) + {p} && fresh(p)
      ensures pendings == old(pendings) || fresh(pendings)
    {
      hide Accounted, WrittenOnce, IsDecision, Liquid, TruncDiv;
      ghost var was := Value();
      DecisionOpens(l, side, now, r);
      StartedAccounted(was, lost, r, now, TruncDiv(horizon, slices), slices);
      rows := rows + [r];
      var step := TruncDiv(horizon, slices);
      var parent := new Pending(|rows| - 1, r.size, now, step, slices);
      Append(parent);
      p := parent;
    }

    /** The end of the tape: parents that never completed are written off rather than reported as partial. */
    method Finish()
      requires Valid()
      modifies this
      ensures Valid() && Value() == Finished(old(Value())) && parents == [] && WrittenOnce(old(rows), rows)
      ensures forall i :: 0 <= i < |rows| ==> (rows[i].sliced == Unset <==> i in lost)
      ensures lost == old(lost) && fresh(pendings)
    {
      ghost var was := Value();
      hide Accounted, WrittenOnce, Finished;
      FinishedAccounted(was, lost);
      NothingFinished(was);
      for i := 0 to count
        invariant unchanged(this`pendings, this`count, this`parents, this`inFlight, this`lost)
        invariant rows == Finished(was.(pendings := was.pendings[..i])).rows
      {
        InFlight(was, lost, i);
        FinishedSnoc(was, i);
        var r := pendings[i].rowIdx;
        rows := rows[r := rows[r].(sliced := TapeEnded)];
      }
      assert was.pendings[..count] == was.pendings;
      FinishedLength(was);
      pendings, count := new Pending[0], 0;
      parents, inFlight := [], [];
    }

    /** A hole in the tape: in-flight parents crossed it and are dropped. Their rows are left as they are. */
    method Skip()
      requires Valid()
      modifies this
      ensures Valid() && rows == old(rows) && parents == [] && skipped == old(skipped) + 1
      ensures lost == old(lost) + RowsOf(old(Value()).pendings) && fresh(pendings)
      ensures now == old(now) && nextDec == old(nextDec)
    {
      hide Accounted;
      GapLoses(Value(), lost);
      lost := lost + RowsOf(Value().pendings);
      pendings, count := new Pending[0], 0;
      parents, inFlight := [], [];
      skipped := skipped + 1;
    }

    /** The study's own storage lies outside the engine's. */
    ghost predicate Apart(eng: Engine)
      reads this, eng
    {
      this !in eng.Repr && pendings !in eng.Repr && forall p :: p in parents ==> p !in eng.Repr
    }

    ghost function Wanted(): Setting {
      Setting(sizes, side, slices, horizon, every)
    }

    ghost function State(): Progress
      reads this
    {
      Progress(Value(), nextDec, skipped)
    }

    /** The part of a record after its event was applied. */
    method Decide(eng: Engine, ghost r: Record) returns (ghost took: Taken)
      requires Valid() && eng.Valid() && r.gap == 0 && now == r.wall
      modifies this`rows, this`nextDec, this`pendings, this`count, this`parents, this`inFlight, pendings, parents
      ensures Valid() && State() == After(Wanted(), old(State()), r, took)
      ensures TookOne(Wanted(), old(State()), r, took, eng.view)
      ensures fresh(pendings) || pendings == old(pendings)
      ensures forall p :: p in parents ==> p in old(parents) || fresh(p)
      ensures WrittenOnce(old(rows), rows)
    {
      hide Engine.Valid, Accounted, IsMerge, PerOf, Liquid, IsDecision, WrittenOnce, Advanced;
      var ladder := PullLadder(eng, side);
      took := Taken(ladder, []);
      AdvanceSlices(ladder);
      if nextDec == None {
        nextDec := Some(now + every);
        return;
      }
      if now < nextDec.value {
        return;
      }
      nextDec := Some(now + every);
      ghost var advanced := rows;
      ghost var made := StartDecision(ladder);
      took := Taken(ladder, made);
      StillWrittenOnce(old(rows), advanced, rows);
    }

    /** A record that is an event. */
    method Take(eng: Engine, r: Record) returns (ghost took: Taken)
      requires Valid() && eng.Valid() && Apart(eng) && r.gap == 0
      modifies this`now, this`rows, this`nextDec, this`pendings, this`count, this`parents, this`inFlight, pendings, parents
      modifies eng`requests, eng`view, eng`Repr, eng.pub, eng.Repr
      ensures Valid() && eng.Valid() && Apart(eng) && fresh(eng.Repr - old(eng.Repr)) && WrittenOnce(old(rows), rows)
      ensures fresh(pendings) || pendings == old(pendings)
      ensures forall p :: p in parents ==> p in old(parents) || fresh(p)
      ensures now == r.wall && eng.view == StepBooks(eng.cfg, old(eng.view), r.event)
      ensures State() == After(Wanted(), old(State()), r, took)
      ensures TookOne(Wanted(), old(State()), r, took, eng.view)
    {
      hide Engine.Valid, Accounted, StepBooks, TookOne, WrittenOnce, StudyRuns.After;
      now := r.wall;
      eng.Apply(r.event);
      took := Decide(eng, r);
    }

    /** One record of the tape: what it does to the study is the step on values. */
    method OnRecord(eng: Engine, r: Record) returns (ghost took: Taken)
      requires Valid() && eng.Valid() && Apart(eng)
      modifies this, pendings, parents, eng`requests, eng`view, eng`Repr, eng.pub, eng.Repr
      ensures Valid() && eng.Valid() && Apart(eng) && fresh(eng.Repr - old(eng.Repr)) && WrittenOnce(old(rows), rows)
      ensures fresh(pendings) || pendings == old(pendings)
      ensures forall p :: p in parents ==> p in old(parents) || fresh(p)
      ensures eng.view == if r.gap > 0 then old(eng.view) else StepBooks(eng.cfg, old(eng.view), r.event)
      ensures State() == After(Wanted(), old(State()), r, took)
      ensures TookOne(Wanted(), old(State()), r, took, eng.view)
      ensures lost == LostAfter(old(lost), old(State()), r) && now == (if r.gap > 0 then old(now) else r.wall)
    {
      hide Engine.Valid, Accounted, StepBooks, WrittenOnce, IsMerge, PerOf;
      took := Taken([], []);
      if r.gap > 0 {
        Skip();
        NothingWritten(rows);
      } else {
        took := Take(eng, r);
      }
    }

    /** Replays a whole tape and closes the study: it ends where the step on values, folded over the tape and the ladders
        the engine showed, ends. Every row then has an outcome, except those whose parent a gap took. */
    method Replay(eng: Engine, tape: seq<Record>) returns (ghost took: seq<Taken>)
      requires Valid() && eng.Valid() && Apart(eng)
      modifies this, pendings, parents, eng`requests, eng`view, eng`Repr, eng.pub, eng.Repr
      ensures Valid() && parents == [] && WrittenOnce(old(rows), rows)
      ensures |took| == |tape| && TookAll(Wanted(), old(State()), eng.cfg, old(eng.view), tape, took)
      ensures Value() == Finished(Along(Wanted(), old(State()), tape, took).study)
      ensures lost == LostAlong(Wanted(), old(lost), old(State()), tape, took)
      ensures forall i :: 0 <= i < |rows| ==> (rows[i].sliced == Unset <==> i in lost)
      ensures eng.Valid() && eng.view == RunBooks(eng.cfg, old(eng.view), EventsOf(tape))
    {
      hide Engine.Valid, Accounted, Holds, StepBooks, WrittenOnce, StudyRuns.After, TookOne, LostAfter, Followed, Finished;
      assert Wanted().slices > 0;
      hide Valid;
      NothingWritten(rows);
      ghost var lost0, p0, view0 := lost, State(), eng.view;
      took := [];
      NothingFollowed(Wanted(), lost0, p0, eng.cfg, view0);
      for i := 0 to |tape|
        invariant Valid() && eng.Valid() && Apart(eng) && fresh(eng.Repr - old(eng.Repr)) && WrittenOnce(old(rows), rows)
        invariant fresh(pendings) || pendings == old(pendings)
        invariant forall p :: p in parents ==> p in old(parents) || fresh(p)
        invariant Followed(Wanted(), lost0, p0, eng.cfg, view0, tape[..i], took, lost, State(), eng.view)
      {
        ghost var before, lostNow, now, view := rows, lost, State(), eng.view;
        assert forall k :: 0 <= k < |parents| ==> parents[k] in old(parents) || fresh(parents[k]);
        ghost var one := OnRecord(eng, tape[i]);
        FollowedSnoc(Wanted(), lost0, p0, eng.cfg, view0, tape, took, lostNow, now, view, i, one, eng.view);
        took := took + [one];
        StillWrittenOnce(old(rows), before, rows);
      }
      assert tape[..|tape|] == tape;
      FollowedIs(Wanted(), lost0, p0, eng.cfg, view0, tape, took, lost, State(), eng.view);
      ghost var before := rows;
      Finish();
      StillWrittenOnce(old(rows), before, rows);
    }
  }
}
