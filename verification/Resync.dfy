/** The hand-off from the feeds to the engine, and how a suspect book is rebuilt: drop, one-slot restart token,
    session cancel, redial, snapshot. All interleavings of the feeds' and the engine's steps. */
module Resync {
  import opened Common
  import opened EngineSpec
  import opened Replica

  /** A session is up, cancelled but not yet torn down, or there is none. */
  datatype Conn = Up | Cancelled | Down

  /** One feed. `session` counts its sessions; `sent` is what the venue delivered in this one, `dropped` whether the
      hand-off lost any of it, and `done` what of it the engine has consumed. A restart is owed by the read loop when it
      has lost a frame, by the engine when it has lost the book, until each has put the token. */
  datatype Link = Link(
    conn: Conn, token: bool, session: nat, sent: seq<Event>, dropped: bool, done: seq<Event>,
    feedOwes: bool, engineOwes: bool)

  /** An event on the shared channel, with the session it is from. */
  datatype Queued = Queued(ev: Event, session: nat)

  datatype Sys = Sys(capacity: nat, queue: seq<Queued>, links: map<Venue, Link>, books: Books)

  datatype Action =
    | Dial(v: Venue) | Deliver(ev: Event) | FeedAsks(v: Venue) | Watch(v: Venue) | End(v: Venue)
    | Consume | EngineAsks(v: Venue)

  function Start(capacity: nat, venues: set<Venue>): Sys {
    Sys(capacity, [], map v | v in venues :: Link(Down, false, 0, [], false, [], false, false), map v | v in venues :: EMPTY_BOOK)
  }

  predicate Enabled(s: Sys, a: Action) {
    match a
    case Dial(v) => v in s.links && s.links[v].conn == Down
    case Deliver(ev) => ev.venue in s.links && s.links[ev.venue].conn != Down && !s.links[ev.venue].feedOwes
    case FeedAsks(v) => v in s.links && s.links[v].feedOwes
    case Watch(v) => v in s.links && s.links[v].token
    case End(v) => v in s.links && s.links[v].conn != Down && !s.links[v].feedOwes
    case Consume => s.queue != [] && forall v :: v in s.links ==> !s.links[v].engineOwes
    case EngineAsks(v) => v in s.links && s.links[v].engineOwes
  }

  /** The read loop's hand-off: it never blocks; a full channel drops the frame, and a restart is owed. */
  function Delivered(s: Sys, ev: Event): Sys
    requires ev.venue in s.links
  {
    var l := s.links[ev.venue];
    if |s.queue| < s.capacity then
      s.(queue := s.queue + [Queued(ev, l.session)], links := s.links[ev.venue := l.(sent := l.sent + [ev])])
    else
      s.(links := s.links[ev.venue := l.(sent := l.sent + [ev], dropped := true, feedOwes := true)])
  }

  /** The engine's step: it applies the event, and owes a restart when the book had to be invalidated. */
  ghost function Consumed(cfg: Config, s: Sys): Sys
    requires s.queue != []
  {
    var q := s.queue[0];
    var v := q.ev.venue;
    var t := s.(queue := s.queue[1..], books := StepBooks(cfg, s.books, q.ev));
    if v !in s.links || v !in s.books then t
    else
      var l := s.links[v];
      t.(links := s.links[v := l.(
        engineOwes := l.engineOwes || Resyncs(cfg, v, s.books[v], q.ev),
        done := if q.session == l.session then l.done + [q.ev] else l.done)])
  }

  /** A new session. A token left over from the last one is still there. */
  function Dialed(l: Link): Link {
    l.(conn := Up, session := l.session + 1, sent := [], dropped := false, done := [])
  }

  /** The restart watcher takes the token and cancels its session, unless that is already over. */
  function Watched(l: Link): Link {
    l.(conn := if l.conn == Up then Cancelled else l.conn, token := false)
  }

  ghost function Do(cfg: Config, s: Sys, a: Action): Sys
    requires Enabled(s, a)
  {
    match a
    case Dial(v) => s.(links := s.links[v := Dialed(s.links[v])])
    case Deliver(ev) => Delivered(s, ev)
    case FeedAsks(v) => s.(links := s.links[v := s.links[v].(token := true, feedOwes := false)])
    case Watch(v) => s.(links := s.links[v := Watched(s.links[v])])
    case End(v) => s.(links := s.links[v := s.links[v].(conn := Down)])
    case Consume => Consumed(cfg, s)
    case EngineAsks(v) => s.(links := s.links[v := s.links[v].(token := true, engineOwes := false)])
  }

  ghost predicate Reaches(cfg: Config, s0: Sys, acts: seq<Action>, s: Sys) {
    if acts == [] then s == s0
    else
      var n := |acts| - 1;
      exists p :: Reaches(cfg, s0, acts[..n], p) && Enabled(p, acts[n]) && s == Do(cfg, p, acts[n])
  }

  // ---------- Recovery is always in flight ----------

  /** A snapshot of this session is on the channel. */
  predicate SnapshotQueued(queue: seq<Queued>, v: Venue, session: nat) {
    exists i ::
      0 <= i < |queue| && queue[i].ev.venue == v && queue[i].session == session && queue[i].ev.kind == KindSnapshot
  }

  /** A restart is pending or owed, the session is being torn down or is gone, its snapshot is still to come, or it is
      on the channel. */
  predicate Recovering(l: Link, queue: seq<Queued>, v: Venue) {
    l.token || l.feedOwes || l.engineOwes || l.conn != Up || !HasSnapshot(l.sent) || SnapshotQueued(queue, v, l.session)
  }

  /** Of one venue's events on the channel, those of the session. */
  function QueuedOf(queue: seq<Queued>, v: Venue, session: nat): seq<Event> {
    if queue == [] then []
    else
      var last := queue[|queue| - 1];
      QueuedOf(queue[..|queue| - 1], v, session) + if last.ev.venue == v && last.session == session then [last.ev] else []
  }

  /** The venue's events on the channel come session by session, and none is from an earlier one once an event of this
      session was consumed. */
  ghost predicate InSessions(queue: seq<Queued>, v: Venue, session: nat, earlierToo: bool) {
    && (forall i :: 0 <= i < |queue| && queue[i].ev.venue == v ==>
          queue[i].session <= session && (earlierToo || queue[i].session == session))
    && (forall i, j :: 0 <= i < j < |queue| && queue[i].ev.venue == v && queue[j].ev.venue == v ==>
          queue[i].session <= queue[j].session)
  }

  ghost predicate LinkInv(cfg: Config, v: Venue, l: Link, queue: seq<Queued>, b: BookVal) {
    && (!b.ready ==> Recovering(l, queue, v))
    && (l.conn == Up && l.dropped ==> l.token || l.feedOwes) && (l.conn == Down ==> !l.feedOwes)
    && (l.conn == Up && !l.token && !l.engineOwes && HasSnapshot(l.done) ==> b.ready)
    && InSessions(queue, v, l.session, l.done == [])
    && (l.dropped || l.sent == l.done + QueuedOf(queue, v, l.session))
    && (HasSnapshot(l.done) ==> b == RunBook(cfg, v, EMPTY_BOOK, l.done))
  }

  ghost predicate Inv(cfg: Config, s: Sys) {
    && |s.queue| <= s.capacity && s.links.Keys == s.books.Keys
    && forall v :: v in s.links ==> LinkInv(cfg, v, s.links[v], s.queue, s.books[v])
  }

  lemma {:induction false} QueuedSnoc(queue: seq<Queued>, q: Queued, v: Venue, session: nat)
    ensures QueuedOf(queue + [q], v, session)
      == QueuedOf(queue, v, session) + if q.ev.venue == v && q.session == session then [q.ev] else []
  {
  }

  lemma {:induction false} QueuedCons(queue: seq<Queued>, v: Venue, session: nat)
    requires queue != []
    ensures QueuedOf(queue, v, session)
      == (if queue[0].ev.venue == v && queue[0].session == session then [queue[0].ev] else [])
         + QueuedOf(queue[1..], v, session)
  {
    var n := |queue| - 1;
    if n > 0 {
      QueuedCons(queue[..n], v, session);
      assert queue[..n][1..] == queue[1..][..n - 1];
    } else {
      assert queue[..0] == [] && queue[1..] == [];
    }
  }

  lemma {:induction false} NoneQueued(queue: seq<Queued>, v: Venue, session: nat)
    requires forall i :: 0 <= i < |queue| && queue[i].ev.venue == v ==> queue[i].session != session
    ensures QueuedOf(queue, v, session) == []
  {
    if queue != [] {
      NoneQueued(queue[..|queue| - 1], v, session);
    }
  }

  lemma {:induction false} SnapshotStays(sent: seq<Event>, ev: Event)
    ensures HasSnapshot(sent + [ev]) <==> HasSnapshot(sent) || ev.kind == KindSnapshot
  {
    var all := sent + [ev];
    if HasSnapshot(sent) {
      var i :| 0 <= i < |sent| && sent[i].kind == KindSnapshot;
      assert all[i].kind == KindSnapshot;
    }
    if ev.kind == KindSnapshot {
      assert all[|sent|].kind == KindSnapshot;
    }
  }

  lemma {:induction false} StillQueued(queue: seq<Queued>, q: Queued, v: Venue, session: nat)
    ensures SnapshotQueued(queue, v, session) ==> SnapshotQueued(queue + [q], v, session)
    ensures q.ev.venue == v && q.session == session && q.ev.kind == KindSnapshot ==>
      SnapshotQueued(queue + [q], v, session)
  {
    var all := queue + [q];
    if SnapshotQueued(queue, v, session) {
      var i :| 0 <= i < |queue| && queue[i].ev.venue == v && queue[i].session == session
               && queue[i].ev.kind == KindSnapshot;
      assert all[i] == queue[i];
    }
    assert all[|queue|] == q;
  }

  lemma {:induction false} TakenQueued(queue: seq<Queued>, v: Venue, session: nat)
    requires queue != []
    ensures SnapshotQueued(queue, v, session) ==>
      || SnapshotQueued(queue[1..], v, session)
      || (queue[0].ev.venue == v && queue[0].session == session && queue[0].ev.kind == KindSnapshot)
  {
  }

  /** A frame of this venue, or of another, is queued. */
  lemma {:induction false} QueueKeeps(cfg: Config, v: Venue, l: Link, queue: seq<Queued>, b: BookVal, q: Queued)
    requires LinkInv(cfg, v, l, queue, b)
    requires q.ev.venue == v ==> q.session == l.session
    ensures LinkInv(cfg, v, if q.ev.venue == v then l.(sent := l.sent + [q.ev]) else l, queue + [q], b)
  {
    hide RunBook, HasSnapshot, SnapshotQueued, QueuedOf;
    SnapshotStays(l.sent, q.ev);
    StillQueued(queue, q, v, l.session);
    QueuedSnoc(queue, q, v, l.session);
    var mine := QueuedOf(queue, v, l.session);
    if q.ev.venue == v {
      assert l.done + mine + [q.ev] == l.done + (mine + [q.ev]);
    } else {
      assert mine + [] == mine;
    }
  }

  lemma {:induction false} DropKeeps(cfg: Config, v: Venue, l: Link, queue: seq<Queued>, b: BookVal, ev: Event)
    requires LinkInv(cfg, v, l, queue, b)
    ensures l.conn != Down ==> LinkInv(cfg, v, l.(sent := l.sent + [ev], dropped := true, feedOwes := true), queue, b)
  {
  }

  lemma {:induction false} DeliverKeeps(cfg: Config, s: Sys, ev: Event)
    requires Inv(cfg, s) && Enabled(s, Deliver(ev))
    ensures Inv(cfg, Delivered(s, ev))
  {
    hide LinkInv;
    var t := Delivered(s, ev);
    forall v | v in t.links ensures LinkInv(cfg, v, t.links[v], t.queue, t.books[v]) {
      if |s.queue| < s.capacity {
        QueueKeeps(cfg, v, s.links[v], s.queue, s.books[v], Queued(ev, s.links[ev.venue].session));
      } else {
        DropKeeps(cfg, v, s.links[v], s.queue, s.books[v], ev);
      }
    }
  }

  lemma {:induction false} TakenInSessions(queue: seq<Queued>, v: Venue, session: nat, earlierToo: bool)
    requires queue != [] && InSessions(queue, v, session, earlierToo)
    ensures InSessions(queue[1..], v, session, earlierToo)
    ensures queue[0].ev.venue == v && queue[0].session == session ==> InSessions(queue[1..], v, session, false)
    ensures queue[0].ev.venue == v && queue[0].session != session ==> earlierToo
  {
  }

  /** The events of the session consumed so far, and the next, lead to the book the engine then holds. */
  lemma {:induction false} DoneFollows(cfg: Config, v: Venue, b: BookVal, done: seq<Event>, ev: Event)
    requires HasSnapshot(done) ==> b == RunBook(cfg, v, EMPTY_BOOK, done)
    ensures HasSnapshot(done + [ev]) ==> StepBook(cfg, v, b, ev) == RunBook(cfg, v, EMPTY_BOOK, done + [ev])
  {
  }

  /** Whatever the event: the book is then ready, or a resync is asked for, or nothing changed and it was no snapshot. */
  lemma {:induction false} StepOutcome(cfg: Config, v: Venue, b: BookVal, ev: Event)
    ensures var n := StepBook(cfg, v, b, ev);
      n.ready || Resyncs(cfg, v, b, ev) || (n == b && ev.kind != KindSnapshot)
  {
  }

  /** The engine takes an event of this venue. */
  lemma {:induction false} TakeKeeps(cfg: Config, v: Venue, l: Link, queue: seq<Queued>, b: BookVal)
    requires LinkInv(cfg, v, l, queue, b) && queue != [] && queue[0].ev.venue == v
    ensures var q := queue[0];
      LinkInv(cfg, v, l.(engineOwes := l.engineOwes || Resyncs(cfg, v, b, q.ev),
                         done := if q.session == l.session then l.done + [q.ev] else l.done),
              queue[1..], StepBook(cfg, v, b, q.ev))
  {
    hide RunBook, SnapshotQueued, QueuedOf, StepBook, Resyncs, InSessions, HasSnapshot;
    var q, rest := queue[0], QueuedOf(queue[1..], v, l.session);
    TakenQueued(queue, v, l.session);
    QueuedCons(queue, v, l.session);
    TakenInSessions(queue, v, l.session, l.done == []);
    StepOutcome(cfg, v, b, q.ev);
    NoSnapshot();
    DoneFollows(cfg, v, b, l.done, q.ev);
    SnapshotStays(l.done, q.ev);
    if q.session == l.session {
      assert l.done + ([q.ev] + rest) == (l.done + [q.ev]) + rest;
    } else {
      assert [] + rest == rest;
    }
  }

  /** The engine takes an event of another venue. */
  lemma {:induction false} PassKeeps(cfg: Config, v: Venue, l: Link, queue: seq<Queued>, b: BookVal)
    requires LinkInv(cfg, v, l, queue, b) && queue != [] && queue[0].ev.venue != v
    ensures LinkInv(cfg, v, l, queue[1..], b)
  {
    hide RunBook, SnapshotQueued, QueuedOf, InSessions, HasSnapshot;
    TakenQueued(queue, v, l.session);
    QueuedCons(queue, v, l.session);
    TakenInSessions(queue, v, l.session, l.done == []);
    var rest := QueuedOf(queue[1..], v, l.session);
    assert [] + rest == rest;
  }

  lemma {:induction false} ConsumeKeeps(cfg: Config, s: Sys)
    requires Inv(cfg, s) && s.queue != []
    ensures Inv(cfg, Consumed(cfg, s))
  {
    hide LinkInv, StepBook, Resyncs;
    var t := Consumed(cfg, s);
    forall v | v in t.links ensures LinkInv(cfg, v, t.links[v], t.queue, t.books[v]) {
      if s.queue[0].ev.venue == v {
        TakeKeeps(cfg, v, s.links[v], s.queue, s.books[v]);
      } else {
        PassKeeps(cfg, v, s.links[v], s.queue, s.books[v]);
      }
    }
  }

  lemma NoSnapshot()
    ensures !HasSnapshot([])
  {
  }

  lemma {:induction false} DialKeeps(cfg: Config, v: Venue, l: Link, queue: seq<Queued>, b: BookVal)
    requires LinkInv(cfg, v, l, queue, b)
    ensures LinkInv(cfg, v, l.(conn := Up, session := l.session + 1, sent := [], dropped := false, done := []), queue, b)
  {
    hide RunBook, SnapshotQueued, HasSnapshot;
    NoSnapshot();
    NoneQueued(queue, v, l.session + 1);
  }

  lemma {:induction false} TeardownKeeps(cfg: Config, v: Venue, l: Link, queue: seq<Queued>, b: BookVal)
    requires LinkInv(cfg, v, l, queue, b)
    ensures LinkInv(cfg, v, Watched(l), queue, b)
    ensures !l.feedOwes ==> LinkInv(cfg, v, l.(conn := Down), queue, b)
  {
  }

  /** A restart that was owed is asked for. */
  lemma AskKeeps(cfg: Config, v: Venue, l: Link, queue: seq<Queued>, b: BookVal)
    requires LinkInv(cfg, v, l, queue, b)
    ensures LinkInv(cfg, v, l.(token := true, feedOwes := false), queue, b)
    ensures LinkInv(cfg, v, l.(token := true, engineOwes := false), queue, b)
  {
  }

  /** Every step of every feed and of the engine keeps the invariant. */
  lemma {:induction false} StepKeeps(cfg: Config, s: Sys, a: Action)
    requires Inv(cfg, s) && Enabled(s, a)
    ensures Inv(cfg, Do(cfg, s, a))
  {
    hide LinkInv;
    match a
    case Dial(v) => DialKeeps(cfg, v, s.links[v], s.queue, s.books[v]);
    case Deliver(ev) => DeliverKeeps(cfg, s, ev);
    case FeedAsks(v) => AskKeeps(cfg, v, s.links[v], s.queue, s.books[v]);
    case Watch(v) => TeardownKeeps(cfg, v, s.links[v], s.queue, s.books[v]);
    case End(v) => TeardownKeeps(cfg, v, s.links[v], s.queue, s.books[v]);
    case Consume => ConsumeKeeps(cfg, s);
    case EngineAsks(v) => AskKeeps(cfg, v, s.links[v], s.queue, s.books[v]);
  }

  lemma {:induction false} EveryRun(cfg: Config, capacity: nat, venues: set<Venue>, acts: seq<Action>, s: Sys)
    requires Reaches(cfg, Start(capacity, venues), acts, s)
    ensures Inv(cfg, s)
  {
    if acts != [] {
      var n := |acts| - 1;
      var p :| Reaches(cfg, Start(capacity, venues), acts[..n], p) && Enabled(p, acts[n]) && s == Do(cfg, p, acts[n]);
      EveryRun(cfg, capacity, venues, acts[..n], p);
      StepKeeps(cfg, p, acts[n]);
    }
  }

  /** In every reachable state the channel is within its capacity, and a book that is not ready, or a session that lost
      a frame, has recovery in flight. */
  lemma {:induction false} RecoveryAlwaysInFlight(cfg: Config, capacity: nat, venues: set<Venue>, acts: seq<Action>, s: Sys,
                                                  v: Venue)
    requires Reaches(cfg, Start(capacity, venues), acts, s) && v in venues
    ensures |s.queue| <= s.capacity
    ensures v in s.links && v in s.books
    ensures !s.books[v].ready || s.links[v].dropped ==> Recovering(s.links[v], s.queue, v)
  {
    EveryRun(cfg, capacity, venues, acts, s);
    VenuesStay(cfg, capacity, venues, acts, s);
    assert LinkInv(cfg, v, s.links[v], s.queue, s.books[v]);
  }

  lemma {:induction false} VenuesStay(cfg: Config, capacity: nat, venues: set<Venue>, acts: seq<Action>, s: Sys)
    requires Reaches(cfg, Start(capacity, venues), acts, s)
    ensures s.links.Keys == venues && s.capacity == capacity
  {
    if acts != [] {
      var n := |acts| - 1;
      var p :| Reaches(cfg, Start(capacity, venues), acts[..n], p) && Enabled(p, acts[n]) && s == Do(cfg, p, acts[n]);
      VenuesStay(cfg, capacity, venues, acts[..n], p);
    }
  }

  /** Nothing is left to recover or to consume for a venue whose session is up. */
  ghost predicate Settled(s: Sys, v: Venue)
    requires v in s.links
  {
    var l := s.links[v];
    && l.conn == Up && !l.token && !l.feedOwes && !l.engineOwes && HasSnapshot(l.sent)
    && forall i :: 0 <= i < |s.queue| ==> s.queue[i].ev.venue != v
  }

  /** However many frames were lost and sessions restarted: once settled, the book is ready and is the book of exactly
      what the venue sent in this session. */
  lemma {:induction false} SettledIsWhole(cfg: Config, capacity: nat, venues: set<Venue>, acts: seq<Action>, s: Sys, v: Venue)
    requires Reaches(cfg, Start(capacity, venues), acts, s) && v in venues
    ensures v in s.links && v in s.books
    ensures Settled(s, v) ==> s.books[v].ready && s.books[v] == RunBook(cfg, v, EMPTY_BOOK, s.links[v].sent)
  {
    EveryRun(cfg, capacity, venues, acts, s);
    VenuesStay(cfg, capacity, venues, acts, s);
    assert LinkInv(cfg, v, s.links[v], s.queue, s.books[v]);
    if Settled(s, v) {
      NoneQueued(s.queue, v, s.links[v].session);
      assert s.links[v].done + [] == s.links[v].done;
    }
  }

  /** And when the venue tells the truth, that is the venue's own book. */
  lemma {:induction false} SettledIsMarket(cfg: Config, capacity: nat, venues: set<Venue>, acts: seq<Action>, s: Sys, v: Venue,
                                           markets: seq<Market>)
    requires Reaches(cfg, Start(capacity, venues), acts, s) && v in venues && v in s.links && Settled(s, v)
    requires HonestSession(cfg, v, markets, s.links[v].sent)
    ensures v in s.books && s.links[v].sent != []
    ensures s.books[v] == ViewOf(cfg, v, markets[|s.links[v].sent| - 1])
  {
    SettledIsWhole(cfg, capacity, venues, acts, s, v);
    SessionFollows(cfg, v, EMPTY_BOOK, markets, s.links[v].sent);
  }

  lemma {:induction false} HonestPrefix(cfg: Config, v: Venue, markets: seq<Market>, evs: seq<Event>, k: nat)
    requires HonestSession(cfg, v, markets, evs) && k <= |evs|
    ensures HonestSession(cfg, v, markets[..k], evs[..k])
    decreases |evs|
  {
    if k == |evs| {
      assert markets[..k] == markets && evs[..k] == evs;
    } else {
      var n := |evs| - 1;
      HonestPrefix(cfg, v, markets[..n], evs[..n], k);
      assert markets[..n][..k] == markets[..k] && evs[..n][..k] == evs[..k];
    }
  }

  /** The next event of an honest session, whatever came before it, is consumed quietly. */
  lemma {:induction false} NextIsQuiet(cfg: Config, v: Venue, b: BookVal, done: seq<Event>, sent: seq<Event>, ev: Event,
                                       markets: seq<Market>)
    requires done + [ev] <= sent && HonestSession(cfg, v, markets, sent)
    requires HasSnapshot(done) ==> b == RunBook(cfg, v, EMPTY_BOOK, done)
    ensures !Resyncs(cfg, v, b, ev)
  {
    hide RunBook, StepBook, HasSnapshot;
    var k := |done|;
    assert sent[..k + 1] == done + [ev] && (done + [ev])[..k] == done;
    HonestPrefix(cfg, v, markets, sent, k + 1);
    SessionFollows(cfg, v, EMPTY_BOOK, markets[..k + 1], done + [ev]);
    QuietFromAny(cfg, v, b, EMPTY_BOOK, done, ev, markets[..k + 1]);
  }

  /** Before its first snapshot an honest session sends no update, and what is consumed then does not depend on the book. */
  lemma {:induction false} QuietFromAny(cfg: Config, v: Venue, b: BookVal, start: BookVal, done: seq<Event>, ev: Event,
                                          markets: seq<Market>)
    requires HonestSession(cfg, v, markets, done + [ev])
    requires HasSnapshot(done) ==> b == RunBook(cfg, v, start, done)
    requires !Resyncs(cfg, v, RunBook(cfg, v, start, done), ev)
    ensures !Resyncs(cfg, v, b, ev)
  {
    hide RunBook, HasSnapshot, Checked, Applied, Tells;
    assert (done + [ev])[..|done|] == done;
  }

  /** A session that tells the truth and loses nothing never makes the engine ask for another. */
  lemma {:induction false} HonestSessionIsQuiet(cfg: Config, s: Sys, markets: seq<Market>)
    requires Inv(cfg, s) && s.queue != [] && s.queue[0].ev.venue in s.links
    requires var l := s.links[s.queue[0].ev.venue];
      s.queue[0].session == l.session && !l.dropped && HonestSession(cfg, s.queue[0].ev.venue, markets, l.sent)
    ensures !Resyncs(cfg, s.queue[0].ev.venue, s.books[s.queue[0].ev.venue], s.queue[0].ev)
  {
    hide RunBook, HasSnapshot, HonestSession, Resyncs, InSessions, SnapshotQueued;
    var ev := s.queue[0].ev;
    var v := ev.venue;
    var l, b := s.links[v], s.books[v];
    assert LinkInv(cfg, v, l, s.queue, b);
    QueuedCons(s.queue, v, l.session);
    assert l.done + [ev] <= l.sent;
    NextIsQuiet(cfg, v, b, l.done, l.sent, ev, markets);
  }
}
