/** The study's third arm on plain values: parent orders worked in slices, and the rows they settle into. */
module SliceSpec {
  import opened Common
  import opened ExecCost
  import opened CostTheory

  /** A parent order. `fault` stands for the source's failed flag together with the error that set it. */
  datatype Parent = Parent(
    row: nat, size: Qty, remaining: Qty, nextAt: int, step: int, left: int, notional: Int64, fault: WalkError, qtyDone: Qty)

  datatype Arm = Arm(cost: Cost, err: WalkError)

  /** What became of a row's sliced arm. Unset is the zero row, which the report cannot tell from a free execution. */
  datatype Sliced = Unset | Settled(filled: Qty, notional: Int64) | NoFill | TapeEnded | Failed(err: WalkError)

  datatype Row = Row(at: int, size: Qty, touch: Price, depth: Qty, naive: Arm, routed: Arm, sliced: Sliced)

  /** Executed plus remaining is the size. */
  predicate Conserved(p: Parent) {
    p.qtyDone + p.remaining == p.size && p.qtyDone >= 0 && (p.remaining >= 0 || p.qtyDone == 0)
  }

  function SliceQty(remaining: int, left: int): int
    requires left > 0
  {
    if left == 1 then remaining else TruncDiv(remaining, left)
  }

  function WalkErr(l: Ladder, q: int): WalkError {
    if NotionalOf(Fills(l, q)) > MAX_INT64 then Overflow
    else if Total(l) < q then InsufficientDepth
    else Okay
  }

  function SliceOnce(p: Parent, l: Ladder): Parent
    requires p.left > 0
  {
    var q, n := SliceQty(p.remaining, p.left), p.(left := p.left - 1, nextAt := p.nextAt + p.step);
    if q <= 0 || l == [] then n
    else if WalkErr(l, q) != Okay then p.(fault := WalkErr(l, q), left := 0)
    else n.(notional := Wrap64(p.notional + NotionalOf(Fills(l, q))),
            qtyDone := Wrap64(p.qtyDone + q), remaining := Wrap64(p.remaining - q))
  }

  /** All slices whose time has come, on the ladder of the moment. */
  function Due(p: Parent, l: Ladder, now: int): Parent
    decreases if p.left > 0 then p.left else 0
  {
    if p.left <= 0 || now < p.nextAt then p else Due(SliceOnce(p, l), l, now)
  }

  /** Slices one after the other, each on the ladder it meets. */
  function RunSlices(p: Parent, met: seq<Ladder>): Parent
    decreases |met|
  {
    if met == [] || p.left <= 0 then p else RunSlices(SliceOnce(p, met[0]), met[1..])
  }

  // ---------- Conservation ----------

  lemma {:induction false} SliceQtyFits(remaining: int, left: int)
    requires left > 0
    ensures remaining >= 0 ==> 0 <= SliceQty(remaining, left) <= remaining
    ensures remaining <= 0 ==> SliceQty(remaining, left) <= 0
  {
    if remaining >= 0 {
      DivAtMost(remaining, left, remaining) by {
        MulMono(1, left, remaining);
      }
    }
  }

  lemma {:induction false} SliceConserves(p: Parent, l: Ladder)
    requires Conserved(p) && p.left > 0
    ensures var n := SliceOnce(p, l);
      && Conserved(n) && n.size == p.size && n.row == p.row && n.step == p.step && n.left < p.left && n.left >= 0
      && n.qtyDone >= p.qtyDone
  {
    SliceQtyFits(p.remaining, p.left);
  }

  /** Executed plus remaining is the size at every step of every run. */
  lemma {:induction false} RunConserves(p: Parent, met: seq<Ladder>)
    requires Conserved(p)
    ensures Conserved(RunSlices(p, met)) && RunSlices(p, met).size == p.size && RunSlices(p, met).row == p.row
    ensures RunSlices(p, met).qtyDone >= p.qtyDone
    ensures p.left >= 0 ==> 0 <= RunSlices(p, met).left <= p.left
    decreases |met|
  {
    if met != [] && p.left > 0 {
      SliceConserves(p, met[0]);
      RunConserves(SliceOnce(p, met[0]), met[1..]);
    }
  }

  // ---------- A parent's life over any records is one run of slices ----------

  function DueCount(p: Parent, l: Ladder, now: int): nat
    decreases if p.left > 0 then p.left else 0
  {
    if p.left <= 0 || now < p.nextAt then 0 else 1 + DueCount(SliceOnce(p, l), l, now)
  }

  lemma {:induction false} RepeatCons(l: Ladder, n: nat)
    requires n > 0
    ensures Repeat(l, n) == [l] + Repeat(l, n - 1)
  {
    if n > 1 { RepeatCons(l, n - 1); }
  }

  lemma {:induction false} DueIsRun(p: Parent, l: Ladder, now: int)
    ensures Due(p, l, now) == RunSlices(p, Repeat(l, DueCount(p, l, now)))
    decreases if p.left > 0 then p.left else 0
  {
    if p.left > 0 && now >= p.nextAt {
      DueIsRun(SliceOnce(p, l), l, now);
      RepeatCons(l, DueCount(p, l, now));
    }
  }

  lemma {:induction false} RunSlicesAppend(p: Parent, a: seq<Ladder>, b: seq<Ladder>)
    ensures RunSlices(p, a + b) == RunSlices(RunSlices(p, a), b)
    decreases |a|
  {
    if a == [] {
      assert a + b == b;
    } else if p.left > 0 {
      assert (a + b)[1..] == a[1..] + b;
      RunSlicesAppend(SliceOnce(p, a[0]), a[1..], b);
    }
  }

  /** A record: the consolidated ladder after it was applied, and its time. */
  datatype Tick = Tick(ladder: Ladder, now: int)

  function Lived(p: Parent, ticks: seq<Tick>): Parent {
    if ticks == [] then p
    else Due(Lived(p, ticks[..|ticks| - 1]), ticks[|ticks| - 1].ladder, ticks[|ticks| - 1].now)
  }

  /** The ladders a parent's slices met. */
  ghost function Met(p: Parent, ticks: seq<Tick>): seq<Ladder> {
    if ticks == [] then []
    else
      var t, before := ticks[|ticks| - 1], ticks[..|ticks| - 1];
      Met(p, before) + Repeat(t.ladder, DueCount(Lived(p, before), t.ladder, t.now))
  }

  lemma {:induction false} LifeIsRun(p: Parent, ticks: seq<Tick>)
    ensures Lived(p, ticks) == RunSlices(p, Met(p, ticks))
  {
    if ticks != [] {
      var t, before := ticks[|ticks| - 1], ticks[..|ticks| - 1];
      LifeIsRun(p, before);
      DueIsRun(Lived(p, before), t.ladder, t.now);
      RunSlicesAppend(p, Met(p, before), Repeat(t.ladder, DueCount(Lived(p, before), t.ladder, t.now)));
    }
  }

  /** When the last slice of a parent falls due. */
  function Deadline(p: Parent): int {
    p.nextAt + (p.left - 1) * if p.step > 0 then p.step else 0
  }

  /** As long as no slice fails, a parent is worked off at the first record at or after its deadline and not before,
      however its slices fall on the records. A failed one has none left. */
  lemma {:induction false} DueDeadline(p: Parent, l: Ladder, now: int)
    requires p.left > 0 && p.fault == Okay
    ensures var q := Due(p, l, now);
      && (q.fault == Okay ==> (q.left > 0 <==> now < Deadline(p)))
      && (q.fault != Okay ==> q.left == 0)
      && (q.left > 0 ==> Deadline(q) == Deadline(p))
    decreases p.left
  {
    hide WalkErr, Wrap64, NotionalOf, Fills, SliceQty;
    LastIsLatest(p);
    if now >= p.nextAt {
      var n := SliceOnce(p, l);
      if n.left > 0 {
        NextDeadline(p.nextAt, p.left, p.step);
        LastIsLatest(n);
        DueDeadline(n, l, now);
      }
    }
  }

  /** The deadline is no earlier than the next slice, and is that when only one is left or all fall due at once. */
  lemma LastIsLatest(p: Parent)
    requires p.left > 0
    ensures Deadline(p) >= p.nextAt && (p.left == 1 || p.step <= 0 ==> Deadline(p) == p.nextAt)
  {
    if p.step > 0 {
      MulMono(0, p.left - 1, p.step);
    }
  }

  lemma NextDeadline(at: int, left: int, step: int)
    ensures step > 0 ==> at + step + (left - 2) * step == at + (left - 1) * step
  {
  }

  lemma {:induction false} LivedDeadline(p: Parent, ticks: seq<Tick>)
    requires p.left > 0 && p.fault == Okay
    ensures var q := Lived(p, ticks);
      && (q.fault == Okay ==> (q.left > 0 <==> forall i :: 0 <= i < |ticks| ==> ticks[i].now < Deadline(p)))
      && (q.fault != Okay ==> q.left == 0) && q.left >= 0
      && (q.left > 0 ==> Deadline(q) == Deadline(p))
  {
    hide Deadline, Due;
    if ticks != [] {
      var n := |ticks| - 1;
      var q := Lived(p, ticks[..n]);
      LivedDeadline(p, ticks[..n]);
      assert ticks == ticks[..n] + [ticks[n]];
      DueEnds(q, ticks[n].ladder, ticks[n].now);
      if q.left > 0 {
        DueDeadline(q, ticks[n].ladder, ticks[n].now);
      }
    }
  }

  lemma {:induction false} DueEnds(p: Parent, l: Ladder, now: int)
    ensures p.left >= 0 ==> Due(p, l, now).left >= 0
    ensures p.left <= 0 ==> Due(p, l, now) == p
    decreases if p.left > 0 then p.left else 0
  {
    hide WalkErr, Wrap64, NotionalOf, Fills, SliceQty;
    if p.left > 0 && now >= p.nextAt {
      DueEnds(SliceOnce(p, l), l, now);
    }
  }

  // ---------- The schedule ----------

  /** The slice sizes when every due slice fills. */
  function Plan(remaining: int, left: nat): (qs: seq<int>)
    ensures |qs| == left
    decreases left
  {
    if left == 0 then []
    else
      var q := SliceQty(remaining, left);
      [q] + Plan(remaining - q, left - 1)
  }

  /** The plan sums to the order, is nondecreasing, and its sizes differ by at most one: first n - r slices of the
      quotient, then r of one more. */
  lemma {:induction false} PlanEven(remaining: nat, left: nat, i: nat)
    requires i < left
    ensures Sum(Plan(remaining, left)) == remaining
    ensures Plan(remaining, left)[i] == remaining / left + if i < left - remaining % left then 0 else 1
    decreases left
  {
    var q := SliceQty(remaining, left);
    SliceQtyFits(remaining, left);
    if left == 1 {
      assert Plan(remaining - q, 0) == [];
    } else {
      EvenRest(remaining, left);
      PlanEven(remaining - q, left - 1, if i == 0 then 0 else i - 1);
    }
  }

  /** Taking the quotient off keeps the quotient and the remainder, until the remainder fills what is left. */
  lemma EvenRest(n: nat, d: nat)
    requires d > 1
    ensures var q, e, rest := n / d, n % d, n - n / d;
      && (e < d - 1 ==> rest / (d - 1) == q && rest % (d - 1) == e)
      && (e == d - 1 ==> rest / (d - 1) == q + 1 && rest % (d - 1) == 0)
  {
    var q, e := n / d, n % d;
    assert n == d * q + e;
    assert n - q == (d - 1) * q + e by { Distribute(q, d - 1, 1); }
    if e < d - 1 {
      QuotientIs(n - q, d - 1, q, e);
    } else {
      Distribute(d - 1, q, 1);
      QuotientIs(n - q, d - 1, q + 1, 0);
    }
  }

  lemma QuotientIs(n: int, d: int, q: int, r: int)
    requires d > 0 && n == d * q + r && 0 <= r < d
    ensures n / d == q && n % d == r
  {
    var x, y := n / d, n % d;
    if x > q {
      MulMono(q + 1, x, d);
    } else if x < q {
      MulMono(x + 1, q, d);
    }
  }

  lemma {:induction false} PlanWithin(remaining: nat, left: nat, i: nat)
    requires i < left
    ensures 0 <= Plan(remaining, left)[i] <= remaining
    decreases left
  {
    SliceQtyFits(remaining, left);
    if i > 0 {
      PlanWithin(remaining - SliceQty(remaining, left), left - 1, i - 1);
    }
  }

  /** Every planned slice that asks for something gets it. */
  ghost predicate AllFill(qs: seq<int>, met: seq<Ladder>) {
    |qs| == |met| && forall i :: 0 <= i < |qs| && qs[i] > 0 ==> met[i] != [] && WalkErr(met[i], qs[i]) == Okay
  }

  lemma {:induction false} SlicesNotionalCons(met: seq<Ladder>, qs: seq<int>)
    requires |met| == |qs| && qs != []
    ensures SlicesNotional(met, qs) == NotionalOf(Fills(met[0], qs[0])) + SlicesNotional(met[1..], qs[1..])
  {
    hide NotionalOf, Fills;
    var n := |qs| - 1;
    if n > 0 {
      SlicesNotionalCons(met[..n], qs[..n]);
      assert met[1..][..n - 1] == met[..n][1..] && qs[1..][..n - 1] == qs[..n][1..];
    }
  }

  lemma {:induction false} SliceFills(p: Parent, l: Ladder)
    requires Conserved(p) && p.remaining >= 0 && p.left > 0
    requires SliceQty(p.remaining, p.left) > 0 ==> l != [] && WalkErr(l, SliceQty(p.remaining, p.left)) == Okay
    ensures var q, n := SliceQty(p.remaining, p.left), SliceOnce(p, l);
      && Conserved(n) && n.remaining == p.remaining - q && n.remaining >= 0 && n.size == p.size
      && n.left == p.left - 1 && n.fault == p.fault && n.notional == Wrap64(p.notional + NotionalOf(Fills(l, q)))
  {
    SliceQtyFits(p.remaining, p.left);
    SliceConserves(p, l);
    NothingTaken(l);
  }

  /** When every due slice fills, the slices follow the plan and the parent is filled whole. */
  lemma {:induction false} FilledWhole(p: Parent, met: seq<Ladder>)
    requires Conserved(p) && p.remaining >= 0 && p.left == |met| > 0
    requires AllFill(Plan(p.remaining, p.left), met)
    ensures var n, e := SlicesNotional(met, Plan(p.remaining, p.left)), RunSlices(p, met);
      && e.remaining == 0 && e.qtyDone == p.size && e.left == 0 && e.fault == p.fault
      && e.notional == Wrap64(p.notional + n)
    decreases |met|
  {
    hide SliceOnce, SliceQty, NotionalOf, Fills, WalkErr, Wrap64, SlicesNotional, Conserved;
    var q, plan, p1 := SliceQty(p.remaining, p.left), Plan(p.remaining, p.left), SliceOnce(p, met[0]);
    assert plan[0] == q && plan[1..] == Plan(p.remaining - q, p.left - 1);
    SlicesNotionalCons(met, plan);
    SliceFills(p, met[0]);
    assert RunSlices(p, met) == RunSlices(p1, met[1..]);
    if |met| > 1 {
      FilledWhole(p1, met[1..]);
      WrapAdd(p.notional + NotionalOf(Fills(met[0], q)), SlicesNotional(met[1..], plan[1..]));
    } else {
      FilledLast(p, met);
    }
  }

  lemma {:induction false} FilledLast(p: Parent, met: seq<Ladder>)
    requires Conserved(p) && p.remaining >= 0 && p.left == |met| == 1
    requires AllFill(Plan(p.remaining, 1), met)
    ensures var n, e := SlicesNotional(met, Plan(p.remaining, 1)), RunSlices(p, met);
      && e.remaining == 0 && e.qtyDone == p.size && e.left == 0 && e.fault == p.fault
      && e.notional == Wrap64(p.notional + n)
  {
  }

  lemma NothingTaken(l: Ladder)
    ensures Fills(l, 0) == [] && NotionalOf(Fills(l, 0)) == 0
  {
  }

  lemma {:induction false} NotionalCons(f: Fill, rest: seq<Fill>)
    ensures NotionalOf([f] + rest) == Floor(f) + NotionalOf(rest)
  {
    var all := [f] + rest;
    if rest == [] {
      assert all == [f] && all[..0] == [];
    } else {
      assert all[..|all| - 1] == [f] + rest[..|rest| - 1];
      NotionalCons(f, rest[..|rest| - 1]);
    }
  }

  lemma {:induction false} NotionalGrows(l: Ladder, q: nat, r: nat)
    requires Positive(l) && q <= r
    ensures 0 <= NotionalOf(Fills(l, q)) <= NotionalOf(Fills(l, r))
  {
    if l != [] && r > 0 {
      var t, u: int := if l[0].qty > q then q else l[0].qty, if l[0].qty > r then r else l[0].qty;
      NotionalGrows(l[1..], q - t, r - u);
      NotionalCons(VenueLevel(l[0].venue, l[0].price, u), Fills(l[1..], r - u));
      FloorGrows(l[0].price, t, u);
      if q > 0 {
        NotionalCons(VenueLevel(l[0].venue, l[0].price, t), Fills(l[1..], q - t));
      }
    }
  }

  lemma FloorGrows(p: nat, t: nat, u: nat)
    requires t <= u
    ensures 0 <= p * t / SCALE <= p * u / SCALE
  {
  }

  /** The ladder is empty, or holds a whole order of that size. */
  predicate CanFill(l: Ladder, size: Qty) {
    l == [] || WalkErr(l, size) == Okay
  }

  lemma {:induction false} SliceStaysOkay(p: Parent, l: Ladder, size: Qty)
    requires Conserved(p) && p.left > 0 && p.fault == Okay && p.remaining <= size && Positive(l) && CanFill(l, size)
    ensures var n := SliceOnce(p, l); Conserved(n) && n.fault == Okay && n.remaining <= size
  {
    hide NotionalOf, Fills, Total, Positive;
    SliceConserves(p, l);
    SliceQtyFits(p.remaining, p.left);
    var q := SliceQty(p.remaining, p.left);
    if q > 0 {
      NotionalGrows(l, q, size);
    }
  }

  lemma {:induction false} DueStaysOkay(p: Parent, l: Ladder, now: int, size: Qty)
    requires Conserved(p) && p.fault == Okay && p.remaining <= size && Positive(l) && CanFill(l, size)
    ensures var n := Due(p, l, now); Conserved(n) && n.fault == Okay && n.remaining <= size
    decreases if p.left > 0 then p.left else 0
  {
    hide SliceOnce, Conserved, CanFill, Positive;
    if p.left > 0 && now >= p.nextAt {
      SliceStaysOkay(p, l, size);
      SliceLeft(p, l);
      DueStaysOkay(SliceOnce(p, l), l, now, size);
    }
  }

  lemma SliceLeft(p: Parent, l: Ladder)
    requires p.left > 0
    ensures 0 <= SliceOnce(p, l).left < p.left
  {
  }

  /** No slice fails while every ladder a parent meets is empty or holds the whole order. */
  lemma {:induction false} NoneFails(p: Parent, ticks: seq<Tick>, size: Qty)
    requires Conserved(p) && p.fault == Okay && p.remaining <= size
    requires forall i :: 0 <= i < |ticks| ==> Positive(ticks[i].ladder) && CanFill(ticks[i].ladder, size)
    ensures var n := Lived(p, ticks); Conserved(n) && n.fault == Okay && n.remaining <= size
  {
    hide Due, Conserved, CanFill, Positive;
    if ticks != [] {
      var n := |ticks| - 1;
      NoneFails(p, ticks[..n], size);
      DueStaysOkay(Lived(p, ticks[..n]), ticks[n].ladder, ticks[n].now, size);
    }
  }

  /** A parent worked on an untouched ladder fills whole; its slices cost at most the one walk of arm B, within a
      unit per fill of rounding. */
  lemma {:induction false} StillMarket(side: Side, l: Ladder, p: Parent, whole: Cost)
    requires l != [] && Positive(l) && BestFirst(side, l) && IsWalk(l, side, p.size, whole, Okay)
    requires p.size == p.remaining > 0 && p.qtyDone == 0 && p.notional == 0 && p.left > 0 && p.fault == Okay
    ensures var e, met, plan := RunSlices(p, Repeat(l, p.left)), Repeat(l, p.left), Plan(p.size, p.left);
      && e.remaining == 0 && e.qtyDone == p.size && e.fault == Okay && e.notional == Wrap64(SlicesNotional(met, plan))
      && (side == Ask ==> SlicesNotional(met, plan) <= whole.notional + whole.levels - 1)
      && (side == Bid ==> SlicesNotional(met, plan) > whole.notional - SlicesFills(met, plan))
  {
    hide Positive, BestFirst, RunSlices, Plan, Repeat, SlicesNotional, SlicesFills, NotionalOf, Fills, WalkErr, IsWalk;
    var met, plan := Repeat(l, p.left), Plan(p.size, p.left);
    WalkOkay(l, side, p.size, whole);
    StillFills(l, p.size, p.left);
    PlanEven(p.size, p.left, 0);
    FilledWhole(p, met);
    SlicedAgainstWhole(side, l, plan, p.size, whole);
  }

  lemma WalkOkay(l: Ladder, side: Side, q: Qty, whole: Cost)
    requires l != [] && IsWalk(l, side, q, whole, Okay)
    ensures WalkErr(l, q) == Okay
  {
  }

  lemma {:induction false} StillFills(l: Ladder, size: nat, left: nat)
    requires l != [] && Positive(l) && WalkErr(l, size) == Okay
    ensures AllFill(Plan(size, left), Repeat(l, left))
    ensures forall i :: 0 <= i < left ==> Plan(size, left)[i] >= 0
  {
    hide Plan, Repeat, NotionalOf, Fills, Positive, Total;
    forall i | 0 <= i < left
      ensures var q := Plan(size, left)[i]; 0 <= q && Repeat(l, left)[i] == l && WalkErr(l, q) == Okay
    {
      PlanWithin(size, left, i);
      RepeatAll(l, left, i);
      NotionalGrows(l, Plan(size, left)[i], size);
    }
  }

  // ---------- Partial fills ----------

  lemma {:induction false} RunLeft(p: Parent, met: seq<Ladder>)
    requires p.left >= |met| && RunSlices(p, met).fault == Okay && p.fault == Okay
    ensures RunSlices(p, met).left == p.left - |met|
    decreases |met|
  {
    if met != [] {
      if SliceOnce(p, met[0]).fault == Okay {
        RunLeft(SliceOnce(p, met[0]), met[1..]);
      }
    }
  }

  lemma {:induction false} FaultStays(p: Parent, met: seq<Ladder>)
    requires p.fault != Okay && p.left == 0
    ensures RunSlices(p, met) == p
  {
  }

  lemma {:induction false} FaultEnds(p: Parent, met: seq<Ladder>)
    requires p.fault == Okay && RunSlices(p, met).fault != Okay
    ensures RunSlices(p, met).left == 0
    decreases |met|
  {
    if SliceOnce(p, met[0]).fault == Okay {
      FaultEnds(SliceOnce(p, met[0]), met[1..]);
    }
  }

  /** Slices before the last never take all that is left. */
  lemma {:induction false} NeverEmptyEarly(p: Parent, met: seq<Ladder>)
    requires Conserved(p) && p.remaining > 0 && |met| < p.left
    ensures RunSlices(p, met).remaining > 0
    decreases |met|
  {
    if met != [] {
      var n := SliceOnce(p, met[0]);
      SliceConserves(p, met[0]);
      PartOf(p.remaining, p.left);
      if n.left > 0 {
        assert n.left == p.left - 1;
        NeverEmptyEarly(n, met[1..]);
      }
    }
  }

  lemma PartOf(remaining: int, left: int)
    requires remaining > 0 && left > 1
    ensures 0 <= SliceQty(remaining, left) < remaining
  {
    SliceQtyFits(remaining, left);
    if remaining / left >= remaining {
      MulMono(remaining, remaining / left, left);
      MulMono(2, left, remaining);
    }
  }

  /** A parent that completes without a fault is filled whole exactly when its last slice found a ladder, or nothing
      was ordered. */
  lemma {:induction false} LastSliceDecides(p: Parent, met: seq<Ladder>)
    requires Conserved(p) && p.remaining >= 0 && p.fault == Okay && p.left == |met| > 0
    requires RunSlices(p, met).fault == Okay
    ensures RunSlices(p, met).left == 0
    ensures RunSlices(p, met).remaining == 0 <==>
      met[|met| - 1] != [] || p.remaining == 0
  {
    var n := |met| - 1;
    var before := RunSlices(p, met[..n]);
    assert met == met[..n] + [met[n]];
    RunSlicesAppend(p, met[..n], [met[n]]);
    RunConserves(p, met[..n]);
    if p.remaining > 0 { NeverEmptyEarly(p, met[..n]); } else { NothingEver(p, met[..n]); }
    if before.fault != Okay {
      FaultEnds(p, met[..n]);
      FaultStays(before, [met[n]]);
    } else {
      RunLeft(p, met[..n]);
      LastSlice(before, met[n]);
    }
  }

  lemma {:induction false} NothingEver(p: Parent, met: seq<Ladder>)
    requires Conserved(p) && p.remaining == 0
    ensures RunSlices(p, met).remaining == 0
    decreases |met|
  {
    if met != [] && p.left > 0 {
      SliceConserves(p, met[0]);
      SliceQtyFits(p.remaining, p.left);
      NothingEver(SliceOnce(p, met[0]), met[1..]);
    }
  }

  lemma {:induction false} LastSlice(p: Parent, l: Ladder)
    requires Conserved(p) && p.left == 1 && p.fault == Okay && RunSlices(p, [l]).fault == Okay
    ensures RunSlices(p, [l]).left == 0
    ensures p.remaining >= 0 ==> (RunSlices(p, [l]).remaining == 0 <==> l != [] || p.remaining == 0)
  {
  }

  /** Otherwise it settles short: one level of depth for the first slice, none for the second. */
  lemma {:induction false} PartialSettles()
    ensures var level := VenueLevel(KRAKEN, SCALE, 5);
      var p := RunSlices(Parent(0, 2, 2, 0, 1, 2, 0, Okay, 0), [[level], []]);
      p.left == 0 && p.fault == Okay && p.remaining == 1 && p.notional == 1
  {
    var level, p := VenueLevel(KRAKEN, SCALE, 5), Parent(0, 2, 2, 0, 1, 2, 0, Okay, 0);
    var one := VenueLevel(KRAKEN, SCALE, 1);
    assert Fills([level], 1) == [one];
    assert [one][..0] == [];
    assert NotionalOf([one]) == 1;
    assert Total([level]) == 5;
    var met: seq<Ladder> := [[level], []];
    assert SliceOnce(p, [level]) == Parent(0, 2, 1, 1, 1, 1, 1, Okay, 1);
    assert RunSlices(p, met) == RunSlices(SliceOnce(p, met[0]), met[1..]);
    assert met[1..] == [[]];
    assert SliceOnce(SliceOnce(p, [level]), []) == Parent(0, 2, 1, 2, 1, 0, 1, Okay, 1);
  }

  // ---------- Rows ----------

  /** What a parent that has stopped leaves in its row. */
  function Outcome(p: Parent, r: Row): Sliced {
    var filled := Wrap64(p.size - p.remaining);
    if p.fault != Okay then Failed(p.fault)
    else if filled <= 0 || p.notional <= 0 then NoFill
    else if r.touch == 0 then r.sliced
    else Settled(filled, p.notional)
  }

  function SettledRow(rows: seq<Row>, p: Parent): seq<Row> {
    if p.row < |rows| then rows[p.row := rows[p.row].(sliced := Outcome(p, rows[p.row]))] else rows
  }

  datatype StudyVal = StudyVal(rows: seq<Row>, pendings: seq<Parent>)

  /** One record's effect on the pendings: live ones stay in order, the others go to their rows. */
  function Advanced(s: StudyVal, l: Ladder, now: int): StudyVal
    decreases |s.pendings|
  {
    if s.pendings == [] then s
    else
      var n := |s.pendings| - 1;
      var done, p := Advanced(s.(pendings := s.pendings[..n]), l, now), Due(s.pendings[n], l, now);
      if p.left > 0 then done.(pendings := done.pendings + [p]) else done.(rows := SettledRow(done.rows, p))
  }

  /** Every row's sliced arm is open exactly while a live parent works it, or forever when a gap took its parent. */
  ghost predicate Accounted(s: StudyVal, lost: set<nat>) {
    && (forall i :: 0 <= i < |s.rows| ==> s.rows[i].touch > 0)
    && (forall k :: 0 <= k < |s.pendings| ==> Fits(s.pendings[k], s.rows, lost))
    && InOrder(s.pendings)
    && (forall i :: i in lost ==> i < |s.rows|)
    && OpenRows(s.rows, s.pendings, lost)
  }

  ghost predicate Fits(p: Parent, rows: seq<Row>, lost: set<nat>) {
    p.row < |rows| && p.row !in lost && p.size == rows[p.row].size && Conserved(p) && p.left > 0 && p.fault == Okay
  }

  ghost predicate InOrder(ps: seq<Parent>) {
    forall j, k :: 0 <= j < k < |ps| ==> ps[j].row < ps[k].row
  }

  ghost predicate OpenRows(rows: seq<Row>, ps: seq<Parent>, lost: set<nat>) {
    forall i :: 0 <= i < |rows| ==> (rows[i].sliced == Unset <==> i in lost || Works(ps, i))
  }

  predicate Works(ps: seq<Parent>, i: nat) {
    exists k :: 0 <= k < |ps| && ps[k].row == i
  }

  /** Rows are only added, and a sliced arm once written is never written again. */
  ghost predicate WrittenOnce(was: seq<Row>, now: seq<Row>) {
    |was| <= |now| && forall i :: 0 <= i < |was| ==>
      now[i] == was[i].(sliced := now[i].sliced) && (was[i].sliced != Unset ==> now[i].sliced == was[i].sliced)
  }

  lemma {:induction false} DueKeeps(p: Parent, l: Ladder, now: int)
    requires Conserved(p) && p.left > 0 && p.fault == Okay
    ensures var n := Due(p, l, now);
      Conserved(n) && n.row == p.row && n.size == p.size && n.left >= 0 && (n.left > 0 ==> n.fault == Okay)
  {
    var met := Repeat(l, DueCount(p, l, now));
    DueIsRun(p, l, now);
    RunConserves(p, met);
    if Due(p, l, now).fault != Okay { FaultEnds(p, met); }
  }

  lemma {:induction false} AdvanceOne(s: StudyVal, lost: set<nat>, k: nat, l: Ladder, now: int)
    requires Accounted(s, lost) && k < |s.pendings|
    ensures var p, rest := Due(s.pendings[k], l, now), s.pendings[k + 1..];
      if p.left > 0 then Accounted(s.(pendings := s.pendings[..k] + [p] + rest), lost)
      else
        var rows := SettledRow(s.rows, p);
        Accounted(StudyVal(rows, s.pendings[..k] + rest), lost) && WrittenOnce(s.rows, rows)
  {
    DueKeeps(s.pendings[k], l, now);
    hide Due, Accounted;
    var p := Due(s.pendings[k], l, now);
    if p.left > 0 {
      StaysLive(s, lost, k, p);
    } else {
      Stops(s, lost, k, p);
    }
  }

  lemma {:induction false} StaysLive(s: StudyVal, lost: set<nat>, k: nat, p: Parent)
    requires Accounted(s, lost) && k < |s.pendings|
    requires p.row == s.pendings[k].row && p.size == s.pendings[k].size && Conserved(p) && p.left > 0 && p.fault == Okay
    ensures Accounted(s.(pendings := s.pendings[..k] + [p] + s.pendings[k + 1..]), lost)
  {
    hide Conserved, Works;
    var live := s.pendings[..k] + [p] + s.pendings[k + 1..];
    assert forall j :: 0 <= j < |live| ==> live[j] == if j == k then p else s.pendings[j];
    forall i: nat ensures Works(live, i) <==> Works(s.pendings, i) {
      SameWork(s.pendings, live, i);
    }
  }

  lemma {:induction false} Stops(s: StudyVal, lost: set<nat>, k: nat, p: Parent)
    requires Accounted(s, lost) && k < |s.pendings| && p.row == s.pendings[k].row
    ensures var rows := SettledRow(s.rows, p);
      Accounted(StudyVal(rows, s.pendings[..k] + s.pendings[k + 1..]), lost) && WrittenOnce(s.rows, rows)
  {
    hide Conserved, Works, Outcome;
    var rows, live := SettledRow(s.rows, p), s.pendings[..k] + s.pendings[k + 1..];
    assert forall j :: 0 <= j < |live| ==> live[j] == s.pendings[if j < k then j else j + 1];
    assert Fits(s.pendings[k], s.rows, lost);
    SettlesRow(p, s.rows[p.row]);
    forall i: nat ensures Works(live, i) <==> Works(s.pendings, i) && i != p.row {
      LessWork(s.pendings, k, i);
    }
    Worked(s.pendings, k);
  }

  lemma Worked(ps: seq<Parent>, k: nat)
    requires k < |ps|
    ensures Works(ps, ps[k].row)
  {
  }

  lemma SameWork(a: seq<Parent>, b: seq<Parent>, i: nat)
    requires |a| == |b| && forall k :: 0 <= k < |a| ==> a[k].row == b[k].row
    ensures Works(a, i) <==> Works(b, i)
  {
  }

  lemma LessWork(ps: seq<Parent>, k: nat, i: nat)
    requires k < |ps| && forall j, m :: 0 <= j < m < |ps| ==> ps[j].row < ps[m].row
    ensures Works(ps[..k] + ps[k + 1..], i) <==> Works(ps, i) && i != ps[k].row
  {
    var front, back := ps[..k], ps[k + 1..];
    assert forall j :: 0 <= j < |back| ==> back[j] == ps[j + 1 + k];
    EitherWorks(front, back, i);
    EitherWorks(front, [ps[k]] + back, i);
    EitherWorks([ps[k]], back, i);
    assert front + ([ps[k]] + back) == ps;
    assert [ps[k]][0].row == ps[k].row;
  }

  lemma EitherWorks(a: seq<Parent>, b: seq<Parent>, i: nat)
    ensures Works(a + b, i) <==> Works(a, i) || Works(b, i)
  {
    if Works(a, i) {
      var j :| 0 <= j < |a| && a[j].row == i;
      assert (a + b)[j].row == i;
    }
    if Works(b, i) {
      var j :| 0 <= j < |b| && b[j].row == i;
      assert (a + b)[|a| + j].row == i;
    }
  }

  lemma SettlesRow(p: Parent, r: Row)
    requires r.touch > 0
    ensures Outcome(p, r) != Unset && Outcome(p, r) != TapeEnded
  {
  }

  /** Advancing the first n parents of s, the rest still waiting, keeps every row accounted for. */
  lemma {:induction false} AdvancePrefix(s: StudyVal, lost: set<nat>, n: nat, l: Ladder, now: int)
    requires Accounted(s, lost) && n <= |s.pendings|
    ensures var done := Advanced(s.(pendings := s.pendings[..n]), l, now);
      && Accounted(done.(pendings := done.pendings + s.pendings[n..]), lost)
      && WrittenOnce(s.rows, done.rows)
  {
    hide Due, Accounted, SettledRow, WrittenOnce;
    var all := s.pendings;
    if n == 0 {
      assert all[..0] == [] && [] + all[0..] == all;
      assert s.(pendings := all) == s;
      NothingWritten(s.rows);
    } else {
      AdvancePrefix(s, lost, n - 1, l, now);
      var first := s.(pendings := all[..n]);
      assert first.pendings[..n - 1] == all[..n - 1];
      var before := Advanced(s.(pendings := all[..n - 1]), l, now);
      var mid := before.(pendings := before.pendings + all[n - 1..]);
      var k := |before.pendings|;
      assert mid.pendings[k] == all[n - 1] && mid.pendings[..k] == before.pendings && mid.pendings[k + 1..] == all[n..];
      AdvanceOne(mid, lost, k, l, now);
      NothingWritten(before.rows);
      StillWrittenOnce(s.rows, before.rows, Advanced(first, l, now).rows);
    }
  }

  lemma NothingWritten(rows: seq<Row>)
    ensures WrittenOnce(rows, rows)
  {
  }

  lemma StillWrittenOnce(a: seq<Row>, b: seq<Row>, c: seq<Row>)
    requires WrittenOnce(a, b) && WrittenOnce(b, c)
    ensures WrittenOnce(a, c)
  {
  }

  /** A record leaves every row accounted for, and rewrites none. */
  lemma {:induction false} AdvancedAccounted(s: StudyVal, lost: set<nat>, l: Ladder, now: int)
    requires Accounted(s, lost)
    ensures Accounted(Advanced(s, l, now), lost) && WrittenOnce(s.rows, Advanced(s, l, now).rows)
  {
    AdvancePrefix(s, lost, |s.pendings|, l, now);
    var all := s.pendings;
    assert all[..|all|] == all && s.(pendings := all) == s;
    var done := Advanced(s, l, now);
    assert done.pendings + all[|all|..] == done.pendings;
  }

  // ---------- Starting, ending and losing parents ----------

  /** A decision adds one row and one parent. */
  function Started(s: StudyVal, r: Row, now: int, step: int, slices: int): StudyVal {
    StudyVal(s.rows + [r], s.pendings + [Parent(|s.rows|, r.size, r.size, now, step, slices, 0, Okay, 0)])
  }

  lemma {:induction false} StartedAccounted(s: StudyVal, lost: set<nat>, r: Row, now: int, step: int, slices: int)
    requires Accounted(s, lost) && r.touch > 0 && r.sliced == Unset && slices > 0
    ensures Accounted(Started(s, r, now, step, slices), lost)
    ensures WrittenOnce(s.rows, Started(s, r, now, step, slices).rows)
  {
    var t := Started(s, r, now, step, slices);
    assert forall k :: 0 <= k < |s.pendings| ==> t.pendings[k] == s.pendings[k] && Fits(s.pendings[k], s.rows, lost);
    StartedWork(s, t);
  }

  lemma StartedWork(s: StudyVal, t: StudyVal)
    requires |t.pendings| == |s.pendings| + 1 && t.pendings[..|s.pendings|] == s.pendings
    requires t.pendings[|s.pendings|].row == |s.rows|
    ensures forall i: nat :: Works(t.pendings, i) <==> i == |s.rows| || Works(s.pendings, i)
  {
  }

  /** The end of the tape: every parent still working is written off, in its row. */
  function Finished(s: StudyVal): StudyVal
    decreases |s.pendings|
  {
    if s.pendings == [] then s
    else
      var n := |s.pendings| - 1;
      var f, i := Finished(s.(pendings := s.pendings[..n])), s.pendings[n].row;
      f.(rows := if i < |f.rows| then f.rows[i := f.rows[i].(sliced := TapeEnded)] else f.rows)
  }

  lemma {:induction false} FinishedRows(s: StudyVal, i: nat)
    requires i < |s.rows|
    ensures var f := Finished(s);
      && f.pendings == [] && |f.rows| == |s.rows|
      && f.rows[i] == if Works(s.pendings, i) then s.rows[i].(sliced := TapeEnded) else s.rows[i]
    decreases |s.pendings|
  {
    if s.pendings != [] {
      var n := |s.pendings| - 1;
      var front := s.(pendings := s.pendings[..n]);
      FinishedRows(front, i);
      if Works(s.pendings, i) && s.pendings[n].row != i {
        var k :| 0 <= k < |s.pendings| && s.pendings[k].row == i;
        assert front.pendings[k].row == i;
      }
      if Works(front.pendings, i) {
        var k :| 0 <= k < n && front.pendings[k].row == i;
        assert s.pendings[k].row == i;
      }
    }
  }

  /** After the end of the tape a row is unset exactly when a gap took its parent. */
  lemma {:induction false} FinishedAccounted(s: StudyVal, lost: set<nat>)
    requires Accounted(s, lost)
    ensures Accounted(Finished(s), lost) && WrittenOnce(s.rows, Finished(s).rows)
    ensures forall i :: 0 <= i < |Finished(s).rows| ==> (Finished(s).rows[i].sliced == Unset <==> i in lost)
  {
    var f := Finished(s);
    if s.rows != [] { FinishedRows(s, 0); }
    forall i | 0 <= i < |s.rows|
      ensures |f.rows| == |s.rows| && f.rows[i] == if Works(s.pendings, i) then s.rows[i].(sliced := TapeEnded) else s.rows[i]
    {
      FinishedRows(s, i);
    }
    if s.rows == [] { assert s.pendings == []; }
  }

  function RowsOf(ps: seq<Parent>): set<nat> {
    if ps == [] then {} else RowsOf(ps[..|ps| - 1]) + {ps[|ps| - 1].row}
  }

  lemma {:induction false} RowsWorked(ps: seq<Parent>, i: nat)
    ensures i in RowsOf(ps) <==> Works(ps, i)
  {
    if ps != [] {
      var n := |ps| - 1;
      RowsWorked(ps[..n], i);
      if Works(ps, i) && ps[n].row != i {
        var k :| 0 <= k < |ps| && ps[k].row == i;
        assert ps[..n][k].row == i;
      }
      if Works(ps[..n], i) {
        var k :| 0 <= k < n && ps[..n][k].row == i;
        assert ps[k].row == i;
      }
    }
  }

  /** A gap drops the parents in flight and writes nothing: their rows stay unset for good. */
  lemma {:induction false} GapLoses(s: StudyVal, lost: set<nat>)
    requires Accounted(s, lost)
    ensures Accounted(s.(pendings := []), lost + RowsOf(s.pendings))
  {
    forall i: nat ensures i in RowsOf(s.pendings) <==> Works(s.pendings, i) {
      RowsWorked(s.pendings, i);
    }
    forall i | i in RowsOf(s.pendings) ensures i < |s.rows| {
      var k :| 0 <= k < |s.pendings| && s.pendings[k].row == i;
    }
  }
}
