/** Where exactly a loss is marked, over finished runs of the recorder. */
module GapPlacement {
  import opened CaptureSpec

  /** The producer's send is about to find the channel full. */
  predicate Full(s: Cap) {
    s.prod == Checked && !s.shut && |s.queue| >= s.bufSize
  }

  /** Step i of a run counts a loss, in state p. */
  ghost predicate CountsAt(bufSize: nat, acts: seq<Action>, i: int, p: Cap) {
    0 <= i < |acts| && acts[i] == Add && Reaches(bufSize, acts[..i], p) && p.prod == Late
  }

  /** One more step of a run. */
  lemma Step(bufSize: nat, acts: seq<Action>, s: Cap, a: Action)
    requires Reaches(bufSize, acts, s) && s.files != [] && Enabled(s, a)
    ensures Reaches(bufSize, acts + [a], Do(s, a))
  {
    assert (acts + [a])[..|acts|] == acts;
  }

  /** A run leads to one state. */
  lemma {:induction false} OneState(bufSize: nat, acts: seq<Action>, s: Cap, t: Cap)
    requires Reaches(bufSize, acts, s) && Reaches(bufSize, acts, t)
    ensures s == t
  {
    if acts != [] {
      var n := |acts| - 1;
      var p :| Reaches(bufSize, acts[..n], p) && p.files != [] && Enabled(p, acts[n]) && s == Do(p, acts[n]);
      var q :| Reaches(bufSize, acts[..n], q) && q.files != [] && Enabled(q, acts[n]) && t == Do(q, acts[n]);
      OneState(bufSize, acts[..n], p, q);
    }
  }

  // ---------- The exact position of a marker ----------

  /** Loss d is marked at g, and of the events offered before it exactly w come after the marker, at once. */
  ghost predicate PinsAt(t: seq<Item>, g: nat, d: nat, w: seq<nat>) {
    g < |t| && t[g].Gap? && d in t[g].ids && Pins(EventIds(t[..g]), EventIds(t[g + 1..]), d, w)
  }

  ghost predicate Pins(before: seq<nat>, after: seq<nat>, d: nat, w: seq<nat>) {
    && (forall x :: x in before ==> x < d)
    && w <= after && (forall x :: x in w ==> x < d)
    && (forall k :: |w| <= k < |after| ==> d < after[k])
  }

  lemma {:induction false} QueuedPins(t: seq<Item>, g: nat, d: nat, w: seq<nat>, n: nat)
    requires PinsAt(t, g, d, w) && d < n
    ensures PinsAt(t + [Ev(n)], g, d, w)
  {
    hide EventIds;
    var u := t + [Ev(n)];
    assert u[..g] == t[..g] && u[g + 1..] == t[g + 1..] + [Ev(n)];
    EventSnoc(t[g + 1..], n);
  }

  /** A step of either side leaves a loss where it is marked. */
  lemma {:induction false} StepPins(s: Cap, a: Action, g: nat, d: nat, w: seq<nat>)
    requires Inv(s) && Enabled(s, a) && PinsAt(Projected(s), g, d, w) && d < s.offered
    ensures PinsAt(Projected(Do(s, a)), g, d, w)
  {
    hide PinsAt, Accounts, Placed, Projected;
    if !Adds(s, a) {
      OtherKeeps(s, a);
    } else if a == Send {
      ProjectedQueued(s);
      QueuedPins(Projected(s), g, d, w, s.offered);
    } else {
      ProjectedDropped(s);
      DroppedPins(Before(s), s.pend, Waiting(s), s.offered, g, d, w);
    }
  }

  lemma {:induction false} DroppedPins(x: seq<Item>, pend: seq<nat>, q: seq<nat>, n: nat, g: nat, d: nat, w: seq<nat>)
    requires PinsAt(x + Mark(pend) + Evs(q), g, d, w)
    ensures PinsAt(x + Mark(pend + [n]) + Evs(q), g, d, w)
  {
    hide EventIds, Mark, Evs;
    DroppedAround(x, pend, q, n, g);
  }

  /** A loss is marked before whatever the drain holds uncounted and the channel holds when it is counted. */
  lemma {:induction false} DropPins(s: Cap)
    requires Inv(s) && Enabled(s, Add)
    ensures PinsAt(Projected(Do(s, Add)), |Before(s)|, s.offered, Waiting(s))
  {
    hide PinsAt, Projected, Before, Waiting, Placed, Accounts;
    ProjectedDropped(s);
    NewPins(Before(s), s.pend, Waiting(s), s.offered);
  }

  lemma {:induction false} NewPins(x: seq<Item>, pend: seq<nat>, w: seq<nat>, n: nat)
    requires Accounts(x + Mark(pend) + Evs(w), n)
    ensures PinsAt(x + Mark(pend + [n]) + Evs(w), |x|, n, w)
  {
    hide EventIds, GapIds, Evs;
    var ids := pend + [n];
    var t, u := x + Mark(pend) + Evs(w), x + Mark(ids) + Evs(w);
    MarkedIds(x, pend, w);
    EvsIds(w);
    assert u[|x|] == Gap(ids) && u[..|x|] == x && u[|x| + 1..] == Evs(w);
    assert n == ids[|pend|];
    BothBefore(EventIds(x), w, n);
  }

  lemma BothBefore(a: seq<nat>, b: seq<nat>, n: nat)
    requires forall i :: i in a + b ==> i < n
    ensures (forall i :: i in a ==> i < n) && (forall i :: i in b ==> i < n)
  {
    assert forall i :: i in a ==> i in a + b;
    assert forall i :: i in b ==> i in a + b;
  }

  lemma Predecessor(bufSize: nat, acts: seq<Action>, s: Cap) returns (r: Cap)
    requires bufSize > 0 && Reaches(bufSize, acts, s) && acts != []
    ensures Reaches(bufSize, acts[..|acts| - 1], r) && r.files != [] && Enabled(r, acts[|acts| - 1])
    ensures s == Do(r, acts[|acts| - 1]) && r.offered <= s.offered && Inv(r)
  {
    var n := |acts| - 1;
    r :| Reaches(bufSize, acts[..n], r) && r.files != [] && Enabled(r, acts[n]) && s == Do(r, acts[n]);
    EveryRun(bufSize, acts[..n], r);
  }

  lemma WaitingSize(bufSize: nat, acts: seq<Action>, p: Cap)
    requires bufSize > 0 && Reaches(bufSize, acts, p)
    ensures Inv(p) && p.bufSize == bufSize && |Waiting(p)| <= bufSize + if p.hand.Got? then 1 else 0
  {
    EveryRun(bufSize, acts, p);
  }

  /** The events offered before a loss that come after its marker are exactly those the drain held uncounted and those
      on the channel when the loss was counted. */
  lemma {:induction false} ExactPlace(bufSize: nat, acts: seq<Action>, i: nat, p: Cap, s: Cap) returns (g: nat)
    requires bufSize > 0 && CountsAt(bufSize, acts, i, p) && Reaches(bufSize, acts, s)
    ensures PinsAt(Projected(s), g, p.offered, Waiting(p)) && p.offered < s.offered
    ensures |Waiting(p)| <= bufSize + if p.hand.Got? then 1 else 0
    decreases |acts|
  {
    hide PinsAt, Projected, Reaches, Inv;
    var n := |acts| - 1;
    var r := Predecessor(bufSize, acts, s);
    WaitingSize(bufSize, acts[..i], p);
    if i == n {
      OneState(bufSize, acts[..i], p, r);
      g := |Before(p)|;
      DropPins(p);
    } else {
      assert acts[..n][..i] == acts[..i];
      g := ExactPlace(bufSize, acts[..n], i, p, r);
      StepPins(r, acts[n], g, p.offered, Waiting(p));
    }
  }

  /** How often the drain swaps the drop counter. */
  function Swaps(acts: seq<Action>): nat {
    if acts == [] then 0 else Swaps(acts[..|acts| - 1]) + if acts[|acts| - 1] == CountDrops then 1 else 0
  }

  /** A pending loss goes back to a send that found the channel full. What was then waiting, bufSize events and one more
      if the drain held one, still waits, but for one event per swap the drain has made since. */
  lemma {:induction false} SinceSend(bufSize: nat, acts: seq<Action>, p: Cap) returns (j: nat, q: Cap)
    requires bufSize > 0 && Reaches(bufSize, acts, p) && p.prod == Late
    ensures j < |acts| && acts[j] == Send && Reaches(bufSize, acts[..j], q) && Full(q) && q.offered == p.offered
    ensures |Waiting(q)| == bufSize + if q.hand.Got? then 1 else 0
    ensures Waiting(p) == AllBut(Waiting(q), Swaps(acts[j + 1..]))
    ensures Waiting(p) == [] <==> Swaps(acts[j + 1..]) >= |Waiting(q)|
    decreases |acts|
  {
    hide Reaches, Inv, Waiting;
    var n := |acts| - 1;
    if acts == [] {
      StartsEmpty(bufSize, p);
    } else {
      var r := Predecessor(bufSize, acts, p);
      if acts[n] == Send {
        j, q := n, r;
        FullWaits(bufSize, acts[..n], r);
      } else {
        j, q := SinceSend(bufSize, acts[..n], r);
        assert acts[..n][..j] == acts[..j] && acts[j + 1..] == acts[..n][j + 1..] + [acts[n]];
        assert acts[j + 1..][..n - j - 1] == acts[..n][j + 1..];
        WaitingStep(r, acts[n]);
      }
    }
  }

  /** What is left of w after k were taken. */
  function AllBut(w: seq<nat>, k: nat): seq<nat> {
    if k <= |w| then w[k..] else []
  }

  lemma FullWaits(bufSize: nat, acts: seq<Action>, s: Cap)
    requires bufSize > 0 && Reaches(bufSize, acts, s) && Enabled(s, Send) && s.files != [] && Do(s, Send).prod == Late
    ensures Full(s) && |Waiting(s)| == (bufSize + if s.hand.Got? then 1 else 0) && Waiting(Do(s, Send)) == Waiting(s)
    ensures AllBut(Waiting(s), 0) == Waiting(s)
  {
    hide Accounts, Placed;
    EveryRun(bufSize, acts, s);
  }

  /** While a loss is pending only a swap takes from what waits. */
  lemma WaitingStep(s: Cap, a: Action)
    requires Inv(s) && Enabled(s, a) && a != Send && Do(s, a).prod == Late
    ensures s.prod == Late && Waiting(Do(s, a)) == AllBut(Waiting(s), if a == CountDrops then 1 else 0)
  {
    hide Accounts, Placed;
  }

  /** Every loss on the tape was counted at some step. */
  lemma {:induction false} LossMoment(bufSize: nat, acts: seq<Action>, s: Cap, d: nat) returns (i: nat, p: Cap)
    requires bufSize > 0 && Reaches(bufSize, acts, s) && d in GapIds(Projected(s))
    ensures CountsAt(bufSize, acts, i, p) && p.offered == d
    decreases |acts|
  {
    hide GapIds, Reaches;
    if acts == [] {
      StartsEmpty(bufSize, s);
    } else {
      var n := |acts| - 1;
      var r := Predecessor(bufSize, acts, s);
      if d in GapIds(Projected(r)) {
        i, p := LossMoment(bufSize, acts[..n], r, d);
        assert acts[..n][..i] == acts[..i];
      } else {
        i, p := n, r;
        NewLoss(r, acts[n], d);
      }
    }
  }

  lemma StartsEmpty(bufSize: nat, s: Cap)
    requires Reaches(bufSize, [], s)
    ensures GapIds(Projected(s)) == [] && s.prod == Free
  {
    assert Projected(s) == [];
  }

  lemma {:induction false} NewLoss(s: Cap, a: Action, d: nat)
    requires Inv(s) && Enabled(s, a) && d in GapIds(Projected(Do(s, a))) && d !in GapIds(Projected(s))
    ensures a == Add && s.prod == Late && s.offered == d
  {
    hide GapIds, Accounts, Placed, Projected;
    if !Adds(s, a) {
      OtherKeeps(s, a);
    } else if a == Send {
      ProjectedQueued(s);
      EventSnoc(Projected(s), s.offered);
    } else {
      ProjectedDropped(s);
      MarkedIds(Before(s), s.pend, Waiting(s));
      MarkedIds(Before(s), s.pend + [s.offered], Waiting(s));
      assert GapIds(Before(s)) + (s.pend + [s.offered]) == GapIds(Projected(s)) + [s.offered];
    }
  }

  // ---------- Exactly when markers stand where the losses happened ----------

  /** Every marker stands where its losses happened: the events before it were offered before them, those after it
      after them. */
  ghost predicate InPlace(t: seq<Item>) {
    forall g :: 0 <= g < |t| && t[g].Gap? ==> Splits(t[g].ids, EventIds(t[..g]), EventIds(t[g + 1..]))
  }

  ghost predicate Splits(ids: seq<nat>, before: seq<nat>, after: seq<nat>) {
    forall d :: d in ids ==> AllBefore(before, d) && AllAfter(after, d)
  }

  ghost predicate AllBefore(s: seq<nat>, d: nat) {
    forall x :: x in s ==> x < d
  }

  ghost predicate AllAfter(s: seq<nat>, d: nat) {
    forall x :: x in s ==> d < x
  }

  lemma {:induction false} OnlyEvents(t: seq<Item>)
    requires forall g :: 0 <= g < |t| ==> t[g].Ev?
    ensures GapIds(t) == []
  {
    if t != [] { OnlyEvents(t[..|t| - 1]); }
  }

  lemma {:induction false} CountedOnce(front: seq<Item>, rest: seq<Item>, n: nat, d: nat)
    requires Accounts(front + rest, n) && d in GapIds(front)
    ensures d !in GapIds(rest)
  {
    hide GapIds, EventIds;
    IdsAppend(front, rest);
    var j :| 0 <= j < |GapIds(front)| && GapIds(front)[j] == d;
    var all := GapIds(front + rest);
    forall m | 0 <= m < |GapIds(rest)| ensures GapIds(rest)[m] != d {
      assert all[j] == d && all[|GapIds(front)| + m] == GapIds(rest)[m];
    }
  }

  /** A loss is marked once. */
  lemma {:induction false} OnePlace(t: seq<Item>, n: nat, g: nat, h: nat, d: nat)
    requires Accounts(t, n) && g <= h < |t| && t[g].Gap? && t[h].Gap? && d in t[g].ids && d in t[h].ids
    ensures g == h
  {
    hide GapIds, EventIds, Accounts;
    if g < h {
      var front, rest := t[..h], t[h..];
      assert t == front + rest;
      MarkedIsGap(front, g, d);
      MarkedIsGap(rest, 0, d);
      CountedOnce(front, rest, n, d);
    }
  }

  lemma PinnedSplits(before: seq<nat>, after: seq<nat>, d: nat, w: seq<nat>)
    requires Pins(before, after, d, w)
    ensures AllBefore(before, d) && (AllAfter(after, d) <==> w == [])
  {
    if w != [] {
      assert after[0] == w[0] && w[0] in w && after[0] in after;
    } else {
      assert forall x :: x in after ==> exists k :: 0 <= k < |after| && after[k] == x;
    }
  }

  /** Loss d is marked at g, in place exactly when nothing waited when it was counted. */
  lemma {:induction false} LossInPlace(bufSize: nat, acts: seq<Action>, s: Cap, g: nat, d: nat) returns (i: nat, p: Cap)
    requires bufSize > 0 && Reaches(bufSize, acts, s)
    requires g < |Projected(s)| && Projected(s)[g].Gap? && d in Projected(s)[g].ids
    ensures CountsAt(bufSize, acts, i, p)
    ensures AllBefore(EventIds(Projected(s)[..g]), d)
    ensures AllAfter(EventIds(Projected(s)[g + 1..]), d) <==> Waiting(p) == []
  {
    hide AllBefore, AllAfter, Waiting, EventIds, GapIds, Reaches, CountsAt, Projected, Pins, Accounts, Placed;
    var t := Projected(s);
    MarkedIsGap(t, g, d);
    i, p := LossMoment(bufSize, acts, s, d);
    var h := ExactPlace(bufSize, acts, i, p, s);
    EveryRun(bufSize, acts, s);
    OnePlace(t, s.offered, if g <= h then g else h, if g <= h then h else g, d);
    PinnedSplits(EventIds(t[..g]), EventIds(t[g + 1..]), d, Waiting(p));
  }

  /** Over every run: the markers stand where the losses happened if and only if whenever a loss was counted nothing was
      waiting, on the channel or uncounted in the drain's hand. */
  lemma {:induction false} InPlaceIff(bufSize: nat, acts: seq<Action>, s: Cap)
    requires bufSize > 0 && Reaches(bufSize, acts, s)
    ensures InPlace(Projected(s)) <==> forall i, p :: CountsAt(bufSize, acts, i, p) ==> Waiting(p) == []
  {
    hide EventIds, Reaches, Projected, CountsAt, Waiting, AllBefore, AllAfter;
    var t := Projected(s);
    if i, p :| CountsAt(bufSize, acts, i, p) && Waiting(p) != [] {
      CountedAt(bufSize, acts, i, p);
      var g := ExactPlace(bufSize, acts, i, p, s);
      PinnedSplits(EventIds(t[..g]), EventIds(t[g + 1..]), p.offered, Waiting(p));
      assert !Splits(t[g].ids, EventIds(t[..g]), EventIds(t[g + 1..]));
    } else {
      forall g | 0 <= g < |t| && t[g].Gap? ensures Splits(t[g].ids, EventIds(t[..g]), EventIds(t[g + 1..])) {
        forall d | d in t[g].ids
          ensures AllBefore(EventIds(t[..g]), d) && AllAfter(EventIds(t[g + 1..]), d)
        {
          var i, p := LossInPlace(bufSize, acts, s, g, d);
        }
      }
    }
  }

  lemma CountedAt(bufSize: nat, acts: seq<Action>, i: int, p: Cap)
    requires CountsAt(bufSize, acts, i, p)
    ensures 0 <= i < |acts|
  {
  }

  /** So on a finished tape that counts every loss; and it has a marker if and only if a loss was counted. */
  lemma {:induction false} PromiseIff(bufSize: nat, acts: seq<Action>, s: Cap)
    requires bufSize > 0 && Reaches(bufSize, acts, s) && s.hand == Stopped && s.pend == []
    ensures InPlace(Tape(s.files)) <==> forall i, p :: CountsAt(bufSize, acts, i, p) ==> Waiting(p) == []
    ensures GapIds(Tape(s.files)) == [] <==> forall i, p :: !CountsAt(bufSize, acts, i, p)
  {
    hide GapIds, Reaches, Projected, CountsAt, Waiting, InPlace, Inv, EventIds;
    EveryRun(bufSize, acts, s);
    StoppedProjected(s);
    MarkNone();
    assert Tape(s.files) + [] == Tape(s.files);
    InPlaceIff(bufSize, acts, s);
    var t := Tape(s.files);
    if i, p :| CountsAt(bufSize, acts, i, p) {
      CountedAt(bufSize, acts, i, p);
      var g := ExactPlace(bufSize, acts, i, p, s);
      MarkedIsGap(t, g, p.offered);
    } else if GapIds(t) != [] {
      var i, p := LossMoment(bufSize, acts, s, GapIds(t)[0]);
    }
  }

  // ---------- Every run can be finished ----------

  /** Steps the drain still has to make once the channel is shut. */
  function StepsLeft(s: Cap): nat {
    4 * |s.queue| + match s.hand
                    case Idle => 2
                    case Got(_) => 5
                    case Counted(_, _) => 4
                    case Marked(_) => 3
                    case Final(_) => 1
                    case Stopped => 0
  }

  /** The drain's next step. */
  function Next(s: Cap): Action {
    match s.hand
    case Idle => if s.queue != [] then Receive else CountDrops
    case Got(_) => CountDrops
    case Counted(_, _) => WriteMark(false)
    case Marked(_) => WriteEvent(false)
    case Final(_) => WriteMark(false)
    case Stopped => Close
  }

  /** No loss was counted since the last swap. */
  predicate AllSwapped(s: Cap) {
    s.hand.Final? || s.hand.Stopped? ==> s.pend == []
  }

  lemma NextCloser(s: Cap)
    requires Inv(s) && s.hand != Stopped && (s.shut || s.hand != Idle || s.queue != []) && AllSwapped(s)
    ensures Enabled(s, Next(s)) && s.files != [] && !Adds(s, Next(s))
    ensures var n := Do(s, Next(s));
      && n.shut == s.shut && n.closed == s.closed && n.offered == s.offered && n.prod == s.prod && AllSwapped(n)
      && StepsLeft(n) < StepsLeft(s) && (s.pend == [] ==> n.pend == [])
  {
    hide Accounts, Placed, Tape;
  }

  lemma {:induction false} DrainOut(bufSize: nat, acts: seq<Action>, s: Cap) returns (more: seq<Action>, e: Cap)
    requires bufSize > 0 && Reaches(bufSize, acts, s) && s.shut && AllSwapped(s)
    ensures acts <= more && Reaches(bufSize, more, e) && e.hand == Stopped && e.pend == []
    ensures e.offered == s.offered && e.prod == s.prod && Tape(e.files) == Projected(s)
    decreases StepsLeft(s)
  {
    EveryRun(bufSize, acts, s);
    hide Inv, Accounts, Placed, Reaches, Next, StepsLeft, Do, Projected, Enabled, Adds;
    if s.hand == Stopped {
      more, e := acts, s;
      StoppedProjected(s);
      MarkNone();
      assert Tape(s.files) + [] == Tape(s.files);
    } else {
      NextCloser(s);
      var n := Do(s, Next(s));
      OtherKeeps(s, Next(s));
      Step(bufSize, acts, s, Next(s));
      more, e := DrainOut(bufSize, acts + [Next(s)], n);
    }
  }

  lemma CloseSteps(s: Cap)
    requires Inv(s) && !s.shut
    ensures s.files != [] && Do(s, Close).files != [] && Enabled(Do(s, Close), Shut)
    ensures var d := Do(Do(s, Close), Shut);
      d.shut && AllSwapped(d) && d.offered == s.offered && Projected(d) == Projected(s)
  {
    hide Accounts, Placed, Projected;
    OtherKeeps(s, Close);
    OtherKeeps(Do(s, Close), Shut);
  }

  /** From every reachable state in which the producer is between two offers and the channel is not yet shut, the recorder
      can be closed and drained, and the tape is then the projected one. */
  lemma {:induction false} Finish(bufSize: nat, acts: seq<Action>, s: Cap) returns (more: seq<Action>, e: Cap)
    requires bufSize > 0 && Reaches(bufSize, acts, s) && s.prod == Free && !s.shut
    ensures acts <= more && Reaches(bufSize, more, e) && e.hand == Stopped && e.pend == []
    ensures e.offered == s.offered && Tape(e.files) == Projected(s)
  {
    EveryRun(bufSize, acts, s);
    CloseSteps(s);
    hide Reaches, Projected, Inv, Do;
    var c := Do(s, Close);
    Step(bufSize, acts, s, Close);
    Step(bufSize, acts + [Close], c, Shut);
    more, e := DrainOut(bufSize, acts + [Close] + [Shut], Do(c, Shut));
  }

  // ---------- Closing while the producer offers ----------

  /** Once the channel is shut, the producer stays about to send on it, and then panics, exactly when it was when it was
      shut; and unless a loss was pending then, the last swap takes every loss there is. */
  lemma {:induction false} AfterShut(bufSize: nat, acts: seq<Action>, i: nat, p: Cap, s: Cap)
    requires bufSize > 0 && i < |acts| && acts[i] == Shut && Reaches(bufSize, acts[..i], p) && !p.shut
    requires Reaches(bufSize, acts, s)
    ensures s.shut && (s.prod == Checked <==> p.prod == Checked)
    ensures p.prod != Late ==> s.prod != Late && AllSwapped(s)
    decreases |acts|
  {
    hide Reaches, Accounts, Placed, Projected;
    var n := |acts| - 1;
    var r := Predecessor(bufSize, acts, s);
    if i == n {
      OneState(bufSize, acts[..i], p, r);
    } else {
      assert acts[..n][..i] == acts[..i];
      AfterShut(bufSize, acts[..n], i, p, r);
    }
  }

  /** Whatever the drain and the producer do after the channel is shut, the finished tape accounts for every offer, if and
      only if no loss was pending when it was shut. */
  lemma {:induction false} CloseIff(bufSize: nat, acts: seq<Action>, p: Cap)
    requires bufSize > 0 && Reaches(bufSize, acts, p) && p.closed && !p.shut
    ensures p.prod != Late <==>
      forall more, e :: acts + [Shut] <= more && Reaches(bufSize, more, e) && e.hand == Stopped ==>
        Accounts(Tape(e.files), e.offered)
  {
    hide Reaches, Accounts;
    if p.prod != Late {
      forall more, e | acts + [Shut] <= more && Reaches(bufSize, more, e) && e.hand == Stopped
        ensures Accounts(Tape(e.files), e.offered)
      {
        assert more[..|acts|] == acts && more[|acts|] == Shut;
        AfterShut(bufSize, more, |acts|, p, e);
        StoppedTape(bufSize, more, e);
      }
    } else {
      var more, e := ClosedLate(bufSize, acts, p);
    }
  }

  /** The failing run: the loss is counted after the drain has stopped, and is on no tape. */
  lemma {:induction false} ClosedLate(bufSize: nat, acts: seq<Action>, p: Cap) returns (more: seq<Action>, e: Cap)
    requires bufSize > 0 && Reaches(bufSize, acts, p) && p.closed && !p.shut && p.prod == Late
    ensures acts + [Shut] <= more && Reaches(bufSize, more, e) && e.hand == Stopped && e.prod == Free
    ensures !Accounts(Tape(e.files), e.offered)
  {
    EveryRun(bufSize, acts, p);
    hide Reaches, Accounts, Placed, Projected;
    Step(bufSize, acts, p, Shut);
    var run, d := DrainOut(bufSize, acts + [Shut], Do(p, Shut));
    EveryRun(bufSize, run, d);
    Step(bufSize, run, d, Add);
    more, e := run + [Add], Do(d, Add);
    StoppedTape(bufSize, more, e);
  }

  /** A recorder closed while the producer is between two offers never panics and accounts for every offer. */
  lemma {:induction false} AfterClose(bufSize: nat, acts: seq<Action>, i: nat, p: Cap, s: Cap)
    requires bufSize > 0 && i < |acts| && acts[i] == Close && Reaches(bufSize, acts[..i], p) && p.prod == Free && !p.shut
    requires Reaches(bufSize, acts, s)
    ensures s.closed && s.prod == Free && AllSwapped(s)
    ensures s.hand == Stopped ==> Accounts(Tape(s.files), s.offered)
    decreases |acts|
  {
    hide Reaches, Accounts, Placed, Projected;
    var n := |acts| - 1;
    var r := Predecessor(bufSize, acts, s);
    if i == n {
      OneState(bufSize, acts[..i], p, r);
    } else {
      assert acts[..n][..i] == acts[..i];
      AfterClose(bufSize, acts[..n], i, p, r);
    }
    StoppedTape(bufSize, acts, s);
  }

  // ---------- Both bounds are met, for every buffer size ----------

  function UpTo(k: nat): seq<nat> {
    if k == 0 then [] else UpTo(k - 1) + [k]
  }

  lemma {:induction false} UpToSize(k: nat)
    ensures |UpTo(k)| == k && forall x :: x in UpTo(k) ==> x <= k
  {
    if k > 0 { UpToSize(k - 1); }
  }

  /** The drain holds offer 0 while k more offers are queued. */
  function Filling(bufSize: nat, k: nat): Cap {
    Cap(bufSize, k + 1, UpTo(k), [], Free, Got(0), [[]], false, false)
  }

  function FillActions(k: nat): seq<Action> {
    if k == 0 then [Check, Send, Receive] else FillActions(k - 1) + [Check] + [Send]
  }

  /** A whole offer, up to the send. */
  lemma OfferStep(bufSize: nat, acts: seq<Action>, s: Cap)
    requires Reaches(bufSize, acts, s) && s.files != [] && s.prod == Free && !s.closed && !s.shut
    ensures Reaches(bufSize, acts + [Check] + [Send], Do(s.(prod := Checked), Send))
  {
    hide Reaches;
    Step(bufSize, acts, s, Check);
    Step(bufSize, acts + [Check], s.(prod := Checked), Send);
  }

  lemma FirstOffer(bufSize: nat)
    requires 0 < bufSize
    ensures var one := Cap(bufSize, 1, [0], [], Free, Idle, [[]], false, false);
      Do(Start(bufSize).(prod := Checked), Send) == one && Do(one, Receive) == Filling(bufSize, 0)
  {
    assert [] + [0] == [0] && [0][1..] == [] == UpTo(0);
  }

  lemma FillNone(bufSize: nat)
    requires 0 < bufSize
    ensures Reaches(bufSize, [Check, Send, Receive], Filling(bufSize, 0))
  {
    var none, one := Start(bufSize), Cap(bufSize, 1, [0], [], Free, Idle, [[]], false, false);
    FirstOffer(bufSize);
    assert Reaches(bufSize, [], none);
    hide Reaches, Do;
    OfferStep(bufSize, [], none);
    Step(bufSize, [] + [Check] + [Send], one, Receive);
    assert [] + [Check] + [Send] + [Receive] == [Check, Send, Receive];
  }

  lemma {:induction false} Fill(bufSize: nat, k: nat)
    requires 0 < bufSize && k <= bufSize
    ensures Reaches(bufSize, FillActions(k), Filling(bufSize, k))
  {
    hide Reaches;
    if k == 0 {
      FillNone(bufSize);
    } else {
      Fill(bufSize, k - 1);
      UpToSize(k - 1);
      OfferStep(bufSize, FillActions(k - 1), Filling(bufSize, k - 1));
    }
  }

  /** The drain holds offer 0, the channel is full, and the send of the next offer has failed. */
  function Missed(bufSize: nat): Cap {
    Filling(bufSize, bufSize).(prod := Late)
  }

  lemma {:induction false} Miss(bufSize: nat)
    requires 0 < bufSize
    ensures Reaches(bufSize, FillActions(bufSize) + [Check] + [Send], Missed(bufSize))
    ensures Projected(Missed(bufSize)) == [Ev(0)] + Evs(UpTo(bufSize)) && Before(Missed(bufSize)) == []
  {
    Fill(bufSize, bufSize);
    UpToSize(bufSize);
    hide Reaches;
    OfferStep(bufSize, FillActions(bufSize), Filling(bufSize, bufSize));
    NoFilesNoTape();
    MarkNone();
  }

  /** For every buffer size some finished run has its marker bufSize + 1 events before the loss it counts. */
  lemma {:induction false} MarkerCanBeEarly(bufSize: nat) returns (acts: seq<Action>, s: Cap)
    requires bufSize > 0
    ensures Reaches(bufSize, acts, s) && s.hand == Stopped && s.pend == [] && s.offered == bufSize + 2
    ensures Tape(s.files) == [Gap([bufSize + 1]), Ev(0)] + Evs(UpTo(bufSize)) && |UpTo(bufSize)| == bufSize
  {
    hide Reaches, Do, Missed, Projected, Evs, UpTo, FillActions;
    Miss(bufSize);
    UpToSize(bufSize);
    MissCounted(bufSize);
    var m, run := Missed(bufSize), FillActions(bufSize) + [Check] + [Send];
    Step(bufSize, run, m, Add);
    acts, s := Finish(bufSize, run + [Add], Do(m, Add));
  }

  lemma {:induction false} MissCounted(bufSize: nat)
    ensures var m := Missed(bufSize); Enabled(m, Add) && m.files != []
    ensures var p := Do(Missed(bufSize), Add);
      && p.prod == Free && !p.shut && p.offered == bufSize + 2
      && Projected(p) == [Gap([bufSize + 1]), Ev(0)] + Evs(UpTo(bufSize))
  {
    hide Evs, UpTo, Tape;
    var m := Missed(bufSize);
    ProjectedDropped(m);
    NoFilesNoTape();
    assert Waiting(m) == [0] + UpTo(bufSize);
    EvsCons(Waiting(m));
    assert m.pend + [bufSize + 1] == [bufSize + 1] && Waiting(m)[1..] == UpTo(bufSize);
  }

  /** The drain writes what is queued while the producer makes no step. */
  lemma {:induction false} EmptyOut(bufSize: nat, acts: seq<Action>, s: Cap) returns (more: seq<Action>, e: Cap)
    requires bufSize > 0 && Reaches(bufSize, acts, s) && !s.closed && !s.shut && s.pend == []
    ensures acts <= more && Reaches(bufSize, more, e) && e.hand == Idle && e.queue == [] && e.pend == []
    ensures e.offered == s.offered && e.prod == s.prod && !e.closed && !e.shut && Projected(e) == Projected(s)
    decreases StepsLeft(s)
  {
    EveryRun(bufSize, acts, s);
    if s.hand == Idle && s.queue == [] {
      more, e := acts, s;
    } else {
      NextCloser(s);
      hide Inv, Accounts, Placed, Reaches, Next, StepsLeft, Do, Projected, Enabled, Adds;
      var n := Do(s, Next(s));
      OtherKeeps(s, Next(s));
      Step(bufSize, acts, s, Next(s));
      more, e := EmptyOut(bufSize, acts + [Next(s)], n);
    }
  }

  /** And some finished run with a loss has its marker exactly where the loss happened: the drain wrote everything that
      was waiting between the failed send and its count. */
  lemma {:induction false} MarkerCanBeInPlace(bufSize: nat) returns (acts: seq<Action>, s: Cap)
    requires bufSize > 0
    ensures Reaches(bufSize, acts, s) && s.hand == Stopped && s.pend == [] && s.offered == bufSize + 2
    ensures Tape(s.files) == [Ev(0)] + Evs(UpTo(bufSize)) + [Gap([bufSize + 1])] && InPlace(Tape(s.files))
  {
    hide Reaches, InPlace, Inv, Do, Projected, Evs, UpTo, FillActions;
    Miss(bufSize);
    MissedIs(bufSize);
    var run, e := EmptyOut(bufSize, FillActions(bufSize) + [Check] + [Send], Missed(bufSize));
    EveryRun(bufSize, run, e);
    EmptyCounted(e);
    Step(bufSize, run, e, Add);
    acts, s := Finish(bufSize, run + [Add], Do(e, Add));
    LastInPlace(bufSize);
  }

  lemma MissedIs(bufSize: nat)
    ensures var m := Missed(bufSize); m.prod == Late && !m.closed && !m.shut && m.pend == [] && m.offered == bufSize + 1
  {
  }

  /** A loss counted when nothing waits is marked at the end. */
  lemma {:induction false} EmptyCounted(e: Cap)
    requires Inv(e) && e.prod == Late && e.hand == Idle && e.queue == [] && e.pend == []
    ensures e.files != [] && Enabled(e, Add)
    ensures var p := Do(e, Add);
      && p.prod == Free && p.shut == e.shut && p.offered == e.offered + 1
      && Projected(p) == Projected(e) + [Gap([e.offered])]
  {
    hide Accounts, Placed, Tape;
    ProjectedDropped(e);
    MarkNone();
    assert e.pend + [e.offered] == [e.offered];
  }

  lemma {:induction false} LastInPlace(bufSize: nat)
    ensures InPlace([Ev(0)] + Evs(UpTo(bufSize)) + [Gap([bufSize + 1])])
  {
    hide EventIds, Evs, UpTo;
    var ids := [0] + UpTo(bufSize);
    var t := [Ev(0)] + Evs(UpTo(bufSize)) + [Gap([bufSize + 1])];
    UpToSize(bufSize);
    EvsIds(UpTo(bufSize));
    EvsCons(ids);
    EvsIds(ids);
    assert ids[1..] == UpTo(bufSize) && t == Evs(ids) + [Gap([bufSize + 1])];
    NoIds();
    forall g | 0 <= g < |t| && t[g].Gap? ensures Splits(t[g].ids, EventIds(t[..g]), EventIds(t[g + 1..])) {
      assert g == |ids| && t[..g] == Evs(ids) && t[g + 1..] == [];
    }
  }

  lemma NoFilesNoTape()
    ensures Tape([[]]) == []
  {
    var files: seq<seq<Item>> := [[]];
    assert files[..0] == [];
  }
}
