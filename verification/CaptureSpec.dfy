/** The tape recorder as interleaved steps of a producer, which never blocks, and a drain, which writes. */
module CaptureSpec {
  /** What a record stands for: an offered event, or the offers it counts as lost. Offers are numbered in order. */
  datatype Item = Ev(id: nat) | Gap(ids: seq<nat>)

  /** Where the drain is: it takes an event, then swaps the drop counter, then writes the marker, then the event.
      After the channel is closed and empty it swaps and writes once more. */
  datatype Hand = Idle | Got(id: nat) | Counted(id: nat, ids: seq<nat>) | Marked(id: nat) | Final(ids: seq<nat>) | Stopped

  /** Where the producer is: it looks whether the recorder was closed, then tries to send, and if the channel was full it
      counts the loss. */
  datatype Producer = Free | Checked | Late

  /** `offered` is how many offers were queued or counted; the drop counter is the length of `pend`, the offers it counts.
      The last file is the open one. Closing sets a flag, then shuts the channel. */
  datatype Cap = Cap(
    bufSize: nat, offered: nat, queue: seq<nat>, pend: seq<nat>, prod: Producer, hand: Hand, files: seq<seq<Item>>,
    closed: bool, shut: bool)

  datatype Action =
    Check | Send | Add | Receive | CountDrops | WriteMark(rotate: bool) | WriteEvent(rotate: bool) | Close | Shut

  function Start(bufSize: nat): Cap {
    Cap(bufSize, 0, [], [], Free, Idle, [[]], false, false)
  }

  /** A send on a shut channel is no step: it panics. */
  predicate Enabled(s: Cap, a: Action) {
    match a
    case Check => s.prod == Free
    case Send => s.prod == Checked && !s.shut
    case Add => s.prod == Late
    case Receive => s.hand == Idle && s.queue != []
    case CountDrops => s.hand.Got? || (s.hand == Idle && s.shut && s.queue == [])
    case WriteMark(_) => s.hand.Counted? || s.hand.Final?
    case WriteEvent(_) => s.hand.Marked?
    case Close => true
    case Shut => s.closed
  }

  /** Appends one record, in a new file when the hour turned or the file is full. */
  function Put(files: seq<seq<Item>>, rotate: bool, it: Item): seq<seq<Item>>
    requires files != []
  {
    if rotate then files + [[it]] else files[|files| - 1 := files[|files| - 1] + [it]]
  }

  function Do(s: Cap, a: Action): Cap
    requires Enabled(s, a) && s.files != []
  {
    match a
    case Check => if s.closed then s else s.(prod := Checked)
    case Send =>
      if |s.queue| < s.bufSize then s.(queue := s.queue + [s.offered], offered := s.offered + 1, prod := Free)
      else s.(prod := Late)
    case Add => s.(pend := s.pend + [s.offered], offered := s.offered + 1, prod := Free)
    case Receive => s.(hand := Got(s.queue[0]), queue := s.queue[1..])
    case CountDrops =>
      if s.hand.Got? then
        s.(hand := if s.pend == [] then Marked(s.hand.id) else Counted(s.hand.id, s.pend), pend := [])
      else s.(hand := if s.pend == [] then Stopped else Final(s.pend), pend := [])
    case WriteMark(rotate) =>
      s.(files := Put(s.files, rotate, Gap(s.hand.ids)), hand := if s.hand.Counted? then Marked(s.hand.id) else Stopped)
    case WriteEvent(rotate) => s.(files := Put(s.files, rotate, Ev(s.hand.id)), hand := Idle)
    case Close => s.(closed := true)
    case Shut => s.(shut := true)
  }

  predicate StepsTo(s: Cap, a: Action, t: Cap) {
    s.files != [] && Enabled(s, a) && t == Do(s, a)
  }

  /** s is reached from a new writer by acts, in any order the steps allow. */
  ghost predicate Reaches(bufSize: nat, acts: seq<Action>, s: Cap) {
    if acts == [] then s == Start(bufSize)
    else
      var n := |acts| - 1;
      exists p :: Reaches(bufSize, acts[..n], p) && p.files != [] && Enabled(p, acts[n]) && s == Do(p, acts[n])
  }

  /** All records, file after file. */
  function Tape(files: seq<seq<Item>>): seq<Item> {
    if files == [] then [] else Tape(files[..|files| - 1]) + files[|files| - 1]
  }

  function EventIds(t: seq<Item>): seq<nat> {
    if t == [] then []
    else EventIds(t[..|t| - 1]) + if t[|t| - 1].Ev? then [t[|t| - 1].id] else []
  }

  function GapIds(t: seq<Item>): seq<nat> {
    if t == [] then []
    else GapIds(t[..|t| - 1]) + if t[|t| - 1].Gap? then t[|t| - 1].ids else []
  }

  ghost predicate Increasing(s: seq<nat>) {
    forall i, j :: 0 <= i < j < |s| ==> s[i] < s[j]
  }

  /** The marker that counts a dropped offer comes before every event offered after it, and of the events offered
      before it at most bufSize + 1 come after the marker. */
  ghost predicate Placed(t: seq<Item>, bufSize: nat) {
    forall g :: 0 <= g < |t| && t[g].Gap? ==>
      t[g].ids != [] && Localizes(t[g].ids, EventIds(t[..g]), EventIds(t[g + 1..]), bufSize)
  }

  ghost predicate Localizes(ids: seq<nat>, before: seq<nat>, after: seq<nat>, bufSize: nat) {
    forall d :: d in ids ==>
      && (forall x :: x in before ==> x < d)
      && (forall k :: bufSize < k < |after| ==> d < after[k])
  }

  /** The first n offers are each on the tape once, as an event or counted by a marker, in order. */
  ghost predicate Accounts(t: seq<Item>, n: nat) {
    Tally(EventIds(t), GapIds(t), n)
  }

  ghost predicate Tally(events: seq<nat>, gaps: seq<nat>, n: nat) {
    && Increasing(events) && Increasing(gaps) && |events| + |gaps| == n
    && (forall i :: i in events ==> i < n)
    && (forall i :: i in gaps ==> i < n)
    && (forall i :: 0 <= i < n ==> (i in events <==> i !in gaps))
  }

  // ---------- The tape the drain would complete if the producer stopped now ----------

  function Mark(ids: seq<nat>): seq<Item> {
    if ids == [] then [] else [Gap(ids)]
  }

  function Evs(q: seq<nat>): seq<Item> {
    if q == [] then [] else Evs(q[..|q| - 1]) + [Ev(q[|q| - 1])]
  }

  /** What is before the marker a drop now would go to, and what is after it. */
  function Before(s: Cap): seq<Item> {
    match s.hand
    case Counted(id, ids) => Tape(s.files) + Mark(ids) + [Ev(id)]
    case Marked(id) => Tape(s.files) + [Ev(id)]
    case Final(ids) => Tape(s.files) + Mark(ids)
    case _ => Tape(s.files)
  }

  function After(s: Cap): seq<Item> {
    (if s.hand.Got? then [Ev(s.hand.id)] else []) + Evs(s.queue)
  }

  function Projected(s: Cap): seq<Item> {
    Before(s) + Mark(s.pend) + After(s)
  }

  ghost predicate Inv(s: Cap) {
    && s.files != [] && 0 < s.bufSize && |s.queue| <= s.bufSize
    && (s.hand.Counted? || s.hand.Final? ==> s.hand.ids != [])
    && (s.shut ==> s.closed) && (s.hand.Final? || s.hand.Stopped? ==> s.shut && s.queue == [])
    && Accounts(Projected(s), s.offered) && Placed(Projected(s), s.bufSize)
  }

  // ---------- Sequences of items ----------

  lemma {:induction false} IdsAppend(a: seq<Item>, b: seq<Item>)
    ensures EventIds(a + b) == EventIds(a) + EventIds(b)
    ensures GapIds(a + b) == GapIds(a) + GapIds(b)
  {
    hide EventIds, GapIds;
    NoIds();
    if b == [] {
      assert a + b == a && EventIds(a) + [] == EventIds(a) && GapIds(a) + [] == GapIds(a);
    } else {
      var n := |b| - 1;
      IdsAppend(a, b[..n]);
      assert a + b == (a + b[..n]) + [b[n]] && b == b[..n] + [b[n]];
      IdsSnoc(a + b[..n], b[n]);
      IdsSnoc(b[..n], b[n]);
    }
  }

  lemma NoIds()
    ensures EventIds([]) == [] && GapIds([]) == []
  {
  }

  lemma {:induction false} IdsSnoc(t: seq<Item>, it: Item)
    ensures EventIds(t + [it]) == EventIds(t) + if it.Ev? then [it.id] else []
    ensures GapIds(t + [it]) == GapIds(t) + if it.Gap? then it.ids else []
  {
    assert (t + [it])[..|t|] == t;
  }

  lemma {:induction false} EvsIds(q: seq<nat>)
    ensures EventIds(Evs(q)) == q && GapIds(Evs(q)) == [] && |Evs(q)| == |q|
    ensures forall i :: 0 <= i < |q| ==> Evs(q)[i] == Ev(q[i])
  {
    if q != [] {
      EvsIds(q[..|q| - 1]);
      assert Evs(q)[..|q| - 1] == Evs(q[..|q| - 1]);
    }
  }

  lemma {:induction false} EvsCons(q: seq<nat>)
    requires q != []
    ensures Evs(q) == [Ev(q[0])] + Evs(q[1..])
  {
    EvsIds(q);
    EvsIds(q[1..]);
  }

  lemma {:induction false} TapePut(files: seq<seq<Item>>, rotate: bool, it: Item)
    requires files != []
    ensures Put(files, rotate, it) != [] && Tape(Put(files, rotate, it)) == Tape(files) + [it]
  {
    var n, put := |files| - 1, Put(files, rotate, it);
    if rotate {
      assert put == files + [[it]] && put[..n + 1] == files;
    } else {
      assert put[..n] == files[..n] && put[n] == files[n] + [it];
    }
  }

  // ---------- An offer that is queued goes to the end; one that is dropped, to the marker ----------

  lemma IncreasingSnoc(s: seq<nat>, n: nat)
    requires Increasing(s) && forall i :: i in s ==> i < n
    ensures Increasing(s + [n])
  {
    assert forall i :: 0 <= i < |s| ==> s[i] in s;
  }

  lemma TallyEvent(events: seq<nat>, gaps: seq<nat>, n: nat)
    requires Tally(events, gaps, n)
    ensures Tally(events + [n], gaps, n + 1)
  {
    IncreasingSnoc(events, n);
  }

  lemma TallyGap(events: seq<nat>, gaps: seq<nat>, n: nat)
    requires Tally(events, gaps, n)
    ensures Tally(events, gaps + [n], n + 1)
  {
    IncreasingSnoc(gaps, n);
  }

  lemma {:induction false} EventSnoc(t: seq<Item>, n: nat)
    ensures EventIds(t + [Ev(n)]) == EventIds(t) + [n] && GapIds(t + [Ev(n)]) == GapIds(t)
  {
  }

  lemma {:induction false} MarkedIsGap(t: seq<Item>, g: nat, d: nat)
    requires g < |t| && t[g].Gap? && d in t[g].ids
    ensures d in GapIds(t)
  {
    if g < |t| - 1 {
      MarkedIsGap(t[..|t| - 1], g, d);
    }
  }

  lemma {:induction false} QueuedKeeps(t: seq<Item>, n: nat, bufSize: nat)
    requires Accounts(t, n) && Placed(t, bufSize)
    ensures Accounts(t + [Ev(n)], n + 1) && Placed(t + [Ev(n)], bufSize)
  {
    hide EventIds, GapIds;
    var u := t + [Ev(n)];
    EventSnoc(t, n);
    TallyEvent(EventIds(t), GapIds(t), n);
    forall g | 0 <= g < |u| && u[g].Gap?
      ensures u[g].ids != [] && Localizes(u[g].ids, EventIds(u[..g]), EventIds(u[g + 1..]), bufSize)
    {
      assert u[..g] == t[..g] && u[g + 1..] == t[g + 1..] + [Ev(n)];
      EventSnoc(t[g + 1..], n);
      forall d | d in t[g].ids ensures d < n {
        MarkedIsGap(t, g, d);
      }
    }
  }

  lemma MarkIds(ids: seq<nat>)
    ensures EventIds(Mark(ids)) == [] && GapIds(Mark(ids)) == ids
  {
  }

  lemma {:induction false} MarkedIds(x: seq<Item>, pend: seq<nat>, q: seq<nat>)
    ensures EventIds(x + Mark(pend) + Evs(q)) == EventIds(x) + q
    ensures GapIds(x + Mark(pend) + Evs(q)) == GapIds(x) + pend
  {
    hide EventIds, GapIds, Evs, Mark;
    EvsIds(q);
    MarkIds(pend);
    IdsAppend(x + Mark(pend), Evs(q));
    IdsAppend(x, Mark(pend));
  }

  /** Counting one more drop leaves what is around every marker as it was. */
  lemma {:induction false} DroppedAround(x: seq<Item>, pend: seq<nat>, q: seq<nat>, n: nat, g: nat)
    requires var t := x + Mark(pend) + Evs(q); g < |t| && t[g].Gap?
    ensures var t, u := x + Mark(pend) + Evs(q), x + Mark(pend + [n]) + Evs(q);
      && g < |u| && u[g] == (if g < |x| then t[g] else Gap(pend + [n])) && (g >= |x| ==> g == |x| && t[g] == Gap(pend))
      && EventIds(u[..g]) == EventIds(t[..g]) && EventIds(u[g + 1..]) == EventIds(t[g + 1..])
  {
    hide EventIds, GapIds, Evs;
    var t, u := x + Mark(pend) + Evs(q), x + Mark(pend + [n]) + Evs(q);
    EvsIds(q);
    if g < |x| {
      assert t[g] == u[g] == x[g];
      assert u[..g] == t[..g];
      assert t[g + 1..] == x[g + 1..] + Mark(pend) + Evs(q);
      assert u[g + 1..] == x[g + 1..] + Mark(pend + [n]) + Evs(q);
      MarkedIds(x[g + 1..], pend, q);
      MarkedIds(x[g + 1..], pend + [n], q);
    } else {
      assert g == |x|;
      assert u[..g] == x == t[..g] && u[g + 1..] == Evs(q) == t[g + 1..];
    }
  }

  lemma {:induction false} DroppedKeeps(x: seq<Item>, pend: seq<nat>, q: seq<nat>, n: nat, bufSize: nat)
    requires Accounts(x + Mark(pend) + Evs(q), n) && Placed(x + Mark(pend) + Evs(q), bufSize)
    requires |q| <= bufSize + 1
    ensures Accounts(x + Mark(pend + [n]) + Evs(q), n + 1) && Placed(x + Mark(pend + [n]) + Evs(q), bufSize)
  {
    hide EventIds, GapIds, Evs;
    var t, u := x + Mark(pend) + Evs(q), x + Mark(pend + [n]) + Evs(q);
    MarkedIds(x, pend, q);
    MarkedIds(x, pend + [n], q);
    assert GapIds(x) + (pend + [n]) == GapIds(x) + pend + [n];
    TallyGap(EventIds(t), GapIds(t), n);
    EvsIds(q);
    forall g | 0 <= g < |u| && u[g].Gap?
      ensures u[g].ids != [] && Localizes(u[g].ids, EventIds(u[..g]), EventIds(u[g + 1..]), bufSize)
    {
      hide Localizes, Accounts;
      if g < |x| {
        assert t[g] == u[g] == x[g];
        DroppedAround(x, pend, q, n, g);
      } else {
        assert g == |x|;
        DroppedMark(x, pend, q, n, bufSize);
        assert u[..g] == x && u[g + 1..] == Evs(q);
      }
    }
  }

  lemma {:induction false} DroppedMark(x: seq<Item>, pend: seq<nat>, q: seq<nat>, n: nat, bufSize: nat)
    requires Accounts(x + Mark(pend) + Evs(q), n) && Placed(x + Mark(pend) + Evs(q), bufSize)
    requires |q| <= bufSize + 1
    ensures Localizes(pend + [n], EventIds(x), EventIds(Evs(q)), bufSize)
  {
    hide EventIds, GapIds, Evs;
    var t := x + Mark(pend) + Evs(q);
    MarkedIds(x, pend, q);
    EvsIds(q);
    assert forall i :: i in EventIds(x) ==> i in EventIds(t);
    forall k | 0 <= k < |q| ensures q[k] < n {
      assert (EventIds(x) + q)[|EventIds(x)| + k] == q[k];
      assert q[k] in EventIds(t);
    }
    if pend != [] {
      assert t[|x|] == Gap(pend) && t[..|x|] == x && t[|x| + 1..] == Evs(q);
    }
  }

  /** The events after the marker. */
  function Waiting(s: Cap): seq<nat> {
    if s.hand.Got? then [s.hand.id] + s.queue else s.queue
  }

  lemma {:induction false} ProjectedQueued(s: Cap)
    requires s.files != [] && Enabled(s, Send) && |s.queue| < s.bufSize
    ensures Projected(Do(s, Send)) == Projected(s) + [Ev(s.offered)]
  {
  }

  lemma {:induction false} ProjectedDropped(s: Cap)
    requires s.files != [] && Enabled(s, Add)
    ensures Projected(s) == Before(s) + Mark(s.pend) + Evs(Waiting(s))
    ensures Projected(Do(s, Add)) == Before(s) + Mark(s.pend + [s.offered]) + Evs(Waiting(s))
  {
    hide Tape, Mark;
    assert After(s) == Evs(Waiting(s)) by { if s.hand.Got? { EvsCons(Waiting(s)); } }
    assert Before(Do(s, Add)) == Before(s) && After(Do(s, Add)) == After(s);
  }

  /** The steps that add an offer to what the tape will be. */
  predicate Adds(s: Cap, a: Action) {
    a == Add || (a == Send && |s.queue| < s.bufSize)
  }

  lemma {:induction false} OfferKeeps(s: Cap, a: Action)
    requires Inv(s) && Enabled(s, a) && Adds(s, a)
    ensures Inv(Do(s, a))
  {
    hide Accounts, Placed;
    if a == Send {
      ProjectedQueued(s);
      QueuedKeeps(Projected(s), s.offered, s.bufSize);
    } else {
      ProjectedDropped(s);
      DroppedKeeps(Before(s), s.pend, Waiting(s), s.offered, s.bufSize);
    }
  }

  lemma {:induction false} TakenProjected(s: Cap)
    requires Enabled(s, Receive) && s.files != []
    ensures Projected(Do(s, Receive)) == Projected(s)
  {
    hide Tape, Mark, Evs;
    EvsCons(s.queue);
  }

  lemma {:induction false} CountedProjected(s: Cap)
    requires Enabled(s, CountDrops) && s.files != [] && (s.hand == Idle ==> s.queue == [])
    ensures Projected(Do(s, CountDrops)) == Projected(s)
  {
    hide Tape;
    MarkNone();
    var n := Do(s, CountDrops);
    if s.hand.Got? {
      assert Before(n) == Before(s) + Mark(s.pend) + [Ev(s.hand.id)];
      assert After(s) == [Ev(s.hand.id)] + After(n);
    } else {
      assert Before(n) == Before(s) + Mark(s.pend) && After(n) == After(s) == [];
    }
  }

  lemma MarkNone()
    ensures Mark([]) == [] && Evs([]) == []
  {
  }

  lemma {:induction false} WrittenProjected(s: Cap, a: Action)
    requires (a.WriteMark? || a.WriteEvent?) && Enabled(s, a) && s.files != []
    requires s.hand.Counted? || s.hand.Final? ==> s.hand.ids != []
    requires s.hand.Final? ==> s.queue == []
    ensures Projected(Do(s, a)) == Projected(s) && Do(s, a).files != []
  {
    hide Tape, Evs;
    MarkNone();
    TapePut(s.files, a.rotate, if a.WriteMark? then Gap(s.hand.ids) else Ev(s.hand.id));
    assert Before(Do(s, a)) == Before(s) && After(Do(s, a)) == After(s);
  }

  lemma StoppedProjected(s: Cap)
    requires Inv(s) && s.hand == Stopped
    ensures Projected(s) == Tape(s.files) + Mark(s.pend)
  {
    hide Accounts, Placed, Tape;
  }

  /** Steps that add no offer do not change what the tape will be. */
  lemma {:induction false} OtherKeeps(s: Cap, a: Action)
    requires Inv(s) && Enabled(s, a) && !Adds(s, a)
    ensures Projected(Do(s, a)) == Projected(s) && Inv(Do(s, a))
  {
    hide Accounts, Placed;
    match a
    case Receive => TakenProjected(s);
    case CountDrops => CountedProjected(s);
    case WriteMark(rotate) => WrittenProjected(s, a);
    case WriteEvent(rotate) => WrittenProjected(s, a);
    case Check =>
    case Send =>
    case Close =>
    case Shut =>
  }

  lemma {:induction false} StepKeeps(s: Cap, a: Action)
    requires Inv(s) && Enabled(s, a)
    ensures s.files != [] && Inv(Do(s, a)) && Do(s, a).bufSize == s.bufSize
  {
    hide Accounts, Placed, Projected;
    if Adds(s, a) { OfferKeeps(s, a); } else { OtherKeeps(s, a); }
  }

  lemma StartKeeps(bufSize: nat)
    requires bufSize > 0
    ensures Inv(Start(bufSize))
  {
    assert Projected(Start(bufSize)) == [];
  }

  /** Whatever the interleaving, the tape that is being completed accounts for every offer and places every marker. */
  lemma {:induction false} EveryRun(bufSize: nat, acts: seq<Action>, s: Cap)
    requires bufSize > 0 && Reaches(bufSize, acts, s)
    ensures Inv(s) && s.bufSize == bufSize
  {
    hide Inv, Do, Enabled, Projected;
    if acts == [] {
      StartKeeps(bufSize);
    } else {
      var n := |acts| - 1;
      var p :| Reaches(bufSize, acts[..n], p) && p.files != [] && Enabled(p, acts[n]) && s == Do(p, acts[n]);
      EveryRun(bufSize, acts[..n], p);
      StepKeeps(p, acts[n]);
    }
  }

  /** Once the writer has stopped, the tape itself places every marker, and accounts for every offer exactly when no loss
      was counted after the last swap; and what is on the tape at any earlier moment is its beginning. */
  lemma {:induction false} StoppedTape(bufSize: nat, acts: seq<Action>, s: Cap)
    requires bufSize > 0 && Reaches(bufSize, acts, s)
    ensures Tape(s.files) <= Projected(s)
    ensures s.hand == Stopped ==>
      Placed(Tape(s.files), bufSize) && (Accounts(Tape(s.files), s.offered) <==> s.pend == [])
  {
    hide Accounts, Placed;
    EveryRun(bufSize, acts, s);
    if s.hand == Stopped {
      StoppedProjected(s);
      MarkedLast(Tape(s.files), s.pend, s.offered, bufSize);
    }
  }

  /** A last marker is placed whatever it counts, but the tape before it does not account for what it counts. */
  lemma {:induction false} MarkedLast(t: seq<Item>, pend: seq<nat>, n: nat, bufSize: nat)
    requires Accounts(t + Mark(pend), n) && Placed(t + Mark(pend), bufSize)
    ensures Placed(t, bufSize) && (Accounts(t, n) <==> pend == [])
  {
    hide EventIds, GapIds, Localizes;
    var u := t + Mark(pend);
    if pend == [] {
      assert u == t;
    } else {
      IdsSnoc(t, Gap(pend));
      assert EventIds(t) + [] == EventIds(t);
      forall g | 0 <= g < |t| && t[g].Gap?
        ensures t[g].ids != [] && Localizes(t[g].ids, EventIds(t[..g]), EventIds(t[g + 1..]), bufSize)
      {
        assert u[g] == t[g] && u[..g] == t[..g] && u[g + 1..] == t[g + 1..] + [Gap(pend)];
        IdsSnoc(t[g + 1..], Gap(pend));
        assert EventIds(t[g + 1..]) + [] == EventIds(t[g + 1..]);
      }
    }
  }
}
