/** A venue's feed: the non-blocking hand-off, the restart token, and the session that obeys it. */
module Feed {
  import opened Common
  import opened Resync

  /** The bounded channel to the engine, shared by the feeds. */
  class Channel {
    const capacity: nat
    var items: seq<Event>
    /** The same events, each with the session it is from. */
    ghost var tagged: seq<Queued>
    /** Everything ever sent; what is on the channel is its end. */
    ghost var history: seq<Queued>

    ghost predicate Valid()
      reads this
    {
      && |items| == |tagged| <= capacity && (forall i :: 0 <= i < |items| ==> items[i] == tagged[i].ev)
      && |tagged| <= |history| && tagged == history[|history| - |tagged|..]
    }

    constructor (capacity: nat)
      ensures Valid() && items == [] && history == [] && this.capacity == capacity
    {
      this.capacity := capacity;
      items, tagged, history := [], [], [];
    }

    /** Sends unless the buffer is full; never blocks. */
    method TrySend(ev: Event, ghost session: nat) returns (sent: bool)
      requires Valid()
      modifies this
      ensures Valid() && (sent <==> |old(items)| < capacity)
      ensures tagged == if sent then old(tagged) + [Queued(ev, session)] else old(tagged)
      ensures history == if sent then old(history) + [Queued(ev, session)] else old(history)
    {
      if |items| < capacity {
        items, tagged, history := items + [ev], tagged + [Queued(ev, session)], history + [Queued(ev, session)];
        return true;
      }
      return false;
    }

    /** The engine's receive. */
    method Receive() returns (ev: Event)
      requires Valid() && items != []
      modifies this
      ensures Valid() && ev == old(items)[0] == old(tagged)[0].ev && tagged == old(tagged)[1..] && history == old(history)
    {
      ev := items[0];
      items, tagged := items[1..], tagged[1..];
    }
  }

  class Feed {
    const venue: Venue
    const out: Channel
    /** The one-slot restart channel. */
    var resync: bool
    var conn: Conn
    ghost var session: nat
    ghost var sent: seq<Event>
    ghost var lost: bool
    /** A frame was lost whose restart is not asked for yet. */
    ghost var owes: bool

    /** The feed as the protocol sees it; what the engine consumed is not the feed's to know. */
    ghost function State(): Sys
      reads this, out
    {
      Sys(out.capacity, out.tagged, map[venue := Link(conn, resync, session, sent, lost, [], owes, false)], map[])
    }

    ghost predicate Valid()
      reads this, out
    {
      && out.Valid() && (lost && conn == Up ==> resync || owes) && (conn == Down ==> !owes)
      && forall i :: 0 <= i < |out.history| && out.history[i].ev.venue == venue ==> out.history[i].session <= session
    }

    constructor (venue: Venue, out: Channel)
      requires out.Valid() && forall i :: 0 <= i < |out.history| ==> out.history[i].ev.venue != venue
      ensures Valid() && !resync && conn == Down && this.venue == venue && this.out == out
    {
      this.venue, this.out := venue, out;
      resync, conn := false, Down;
      session, sent, lost, owes := 0, [], false, false;
    }

    /** Asks for a restart; asking again while one is pending changes nothing. */
    method RequestResync()
      modifies this`resync
      ensures resync
    {
      if !resync {
        resync := true;
      }
    }

    /** One frame of the session. A frame that does not decode, or says nothing about books or trades, is skipped. Before
        the restart for a lost one is asked for the others may run, and the restart watcher may fire. */
    method OnMessage(frame: Option<Event>)
      requires Valid() && conn == Up && !owes && (frame.Some? ==> frame.value.venue == venue)
      modifies this`resync, this`conn, this`sent, this`lost, this`owes, out
      ensures Valid() && !owes && (old(resync) ==> resync) && (old(lost) ==> lost)
      ensures sent == old(sent) + if frame.Some? then [frame.value] else []
      ensures frame == None ==> State() == old(State()) && out.history == old(out.history)
      ensures frame.Some? && |old(out.items)| < out.capacity ==>
        && State() == Delivered(old(State()), frame.value) && lost == old(lost)
        && out.history == old(out.history) + [Queued(frame.value, session)]
      ensures frame.Some? && |old(out.items)| >= out.capacity ==> lost && resync
      ensures conn == Up || (conn == Cancelled && lost)
    {
      if frame == None {
        return;
      }
      var ok := Deliver(frame.value);
      if !ok {
        Lose();
      }
    }

    /** Hands an event on, unless the channel is full. */
    method Deliver(ev: Event) returns (ok: bool)
      requires Valid() && conn == Up && !owes && ev.venue == venue
      modifies this`sent, this`lost, this`owes, out
      ensures Valid() && (ok <==> |old(out.items)| < out.capacity) && owes == !ok && lost == (old(lost) || !ok)
      ensures State() == Delivered(old(State()), ev) && sent == old(sent) + [ev]
      ensures ok ==> out.history == old(out.history) + [Queued(ev, session)]
    {
      DeliveredAlone(State(), ev, State().links[venue]);
      hide Delivered;
      sent := sent + [ev];
      ok := out.TrySend(ev, session);
      if !ok {
        lost, owes := true, true;
      }
    }

    /** What follows a failed send. */
    method Lose()
      requires Valid() && conn == Up && owes && lost
      modifies this`resync, this`conn, this`owes, out
      ensures Valid() && !owes && resync && (conn == Up || conn == Cancelled)
    {
      hide State;
      Meanwhile();
      var fires: bool := *;
      if fires && resync {
        Restart();
      }
      Ask();
    }

    /** The restart owed is asked for. */
    method Ask()
      requires Valid() && owes
      modifies this`resync, this`owes
      ensures Valid() && !owes && resync
      ensures State().links[venue] == old(State()).links[venue].(token := true, feedOwes := false)
    {
      RequestResync();
      owes := false;
    }

    /** The restart watcher fires: it takes the token and cancels the session. */
    method Restart()
      requires Valid() && conn == Up && resync
      modifies this`conn, this`resync
      ensures Valid() && conn == Cancelled && State().links[venue] == Watched(old(State()).links[venue])
    {
      resync := false;
      conn := Cancelled;
    }

    /** Any number of steps the others may make between two frames. */
    method Meanwhile()
      requires Valid()
      modifies this`resync, out
      ensures Valid() && (old(resync) ==> resync)
      ensures QueuedOf(out.history, venue, session) == old(QueuedOf(out.history, venue, session))
    {
      hide QueuedOf, Valid;
      var rounds: int := *;
      while rounds > 0
        invariant Valid() && (old(resync) ==> resync)
        invariant QueuedOf(out.history, venue, session) == old(QueuedOf(out.history, venue, session))
      {
        var receives: bool, asks: bool, other: Event := *, *, *;
        if receives {
          EngineReceives();
        }
        if other.venue != venue {
          OtherSends(other);
        }
        if asks {
          EngineAsks();
        }
        rounds := rounds - 1;
      }
    }

    /** The engine takes an event off the channel. */
    method EngineReceives()
      requires Valid()
      modifies out
      ensures Valid() && out.history == old(out.history)
    {
      if |out.items| > 0 {
        var ev := out.Receive();
      }
    }

    /** Another feed hands an event on, or finds the channel full. */
    method OtherSends(ev: Event)
      requires Valid() && ev.venue != venue
      modifies out
      ensures Valid() && QueuedOf(out.history, venue, session) == old(QueuedOf(out.history, venue, session))
    {
      hide QueuedOf;
      ghost var itsSession: nat :| true;
      SentByOther(out.history, Queued(ev, itsSession), venue, session);
      var ok := out.TrySend(ev, itsSession);
    }

    /** The engine lost this venue's book. */
    method EngineAsks()
      requires Valid()
      modifies this`resync
      ensures Valid() && resync
    {
      RequestResync();
    }

    /** A new session. A request left over from the last one is still there. */
    method Dial()
      requires Valid() && conn == Down
      modifies this`conn, this`session, this`sent, this`lost
      ensures Valid() && conn == Up && session == old(session) + 1 && sent == [] && !lost && !owes
      ensures State().links[venue] == Dialed(old(State()).links[venue])
      ensures QueuedOf(out.history, venue, session) == []
    {
      NoneQueued(out.history, venue, session + 1);
      conn, session, sent, lost := Up, session + 1, [], false;
    }

    /** The session is over. */
    method HangUp()
      requires Valid() && !owes
      modifies this`conn
      ensures Valid() && conn == Down && (old(conn) == Up && lost ==> resync)
    {
      conn := Down;
    }

    /** One session, from dialling to its end, the engine and the other feeds going on meanwhile. A session that lost
        nothing handed on all its frames in order; unless it was restarted, one that did leaves the restart pending. */
    method DialAndRun(dials: bool, frames: seq<Option<Event>>) returns (restarted: bool)
      requires Valid() && conn == Down
      requires forall i :: 0 <= i < |frames| && frames[i].Some? ==> frames[i].value.venue == venue
      modifies this`resync, this`conn, this`session, this`sent, this`lost, this`owes, out
      ensures Valid() && conn == Down
      ensures !dials ==> !restarted && State() == old(State())
      ensures dials ==> session == old(session) + 1 && (lost && !restarted ==> resync)
      ensures !restarted && old(resync) ==> resync
      ensures dials && !lost ==> QueuedOf(out.history, venue, session) == sent
      ensures dials && !restarted ==> sent == Decoded(frames)
    {
      if !dials {
        return false;
      }
      Dial();
      hide Valid, State, QueuedOf, Decoded, Dialed, Watched;
      NoneDecoded();
      for i := 0 to |frames|
        invariant Valid() && conn == Up && !owes && session == old(session) + 1 && (old(resync) ==> resync)
        invariant !lost ==> QueuedOf(out.history, venue, session) == sent
        invariant sent == Decoded(frames[..i])
      {
        DecodedSnoc(frames, i);
        var goesOn := Turn(frames[i]);
        if !goesOn {
          HangUp();
          return true;
        }
      }
      assert frames[..|frames|] == frames;
      HangUp();
      return false;
    }

    /** One turn of the read loop: the others run, the restart watcher may fire, and a frame is handed on. */
    method Turn(frame: Option<Event>) returns (goesOn: bool)
      requires Valid() && conn == Up && !owes && (frame.Some? ==> frame.value.venue == venue)
      modifies this`resync, this`conn, this`sent, this`lost, this`owes, out
      ensures Valid() && !owes && (old(lost) ==> lost) && conn == if goesOn then Up else Cancelled
      ensures goesOn ==> (old(resync) ==> resync) && sent == old(sent) + if frame.Some? then [frame.value] else []
      ensures !lost && old(QueuedOf(out.history, venue, session)) == old(sent) ==>
        QueuedOf(out.history, venue, session) == sent
    {
      hide Valid, State, QueuedOf;
      Meanwhile();
      var fires: bool := *;
      if fires && resync {
        Restart();
        return false;
      }
      HandOn(frame);
      return conn == Up;
    }

    /** A frame and its place in what this session has sent. */
    method HandOn(frame: Option<Event>)
      requires Valid() && conn == Up && !owes && (frame.Some? ==> frame.value.venue == venue)
      modifies this`resync, this`conn, this`sent, this`lost, this`owes, out
      ensures Valid() && !owes && (old(resync) ==> resync) && (old(lost) ==> lost)
      ensures conn == Up || (conn == Cancelled && lost)
      ensures sent == old(sent) + if frame.Some? then [frame.value] else []
      ensures !lost && old(QueuedOf(out.history, venue, session)) == old(sent) ==>
        QueuedOf(out.history, venue, session) == sent
    {
      hide Delivered, QueuedOf;
      if frame.Some? {
        QueuedSnoc(out.history, Queued(frame.value, session), venue, session);
      }
      OnMessage(frame);
    }
  }

  /** A delivery as one feed alone sees it. */
  lemma DeliveredAlone(s: Sys, ev: Event, l: Link)
    requires s.links == map[ev.venue := l]
    ensures Delivered(s, ev) ==
      if |s.queue| < s.capacity then
        s.(queue := s.queue + [Queued(ev, l.session)], links := map[ev.venue := l.(sent := l.sent + [ev])])
      else
        s.(links := map[ev.venue := l.(sent := l.sent + [ev], dropped := true, feedOwes := true)])
  {
  }

  /** The frames that decode to something of interest. */
  function Decoded(frames: seq<Option<Event>>): seq<Event> {
    if frames == [] then []
    else
      var last := frames[|frames| - 1];
      Decoded(frames[..|frames| - 1]) + if last.Some? then [last.value] else []
  }

  lemma NoneDecoded()
    ensures Decoded([]) == []
  {
  }

  lemma DecodedSnoc(frames: seq<Option<Event>>, i: nat)
    requires i < |frames|
    ensures Decoded(frames[..i + 1]) == Decoded(frames[..i]) + if frames[i].Some? then [frames[i].value] else []
  {
    assert frames[..i + 1][..i] == frames[..i];
  }

  lemma {:induction false} SentByOther(history: seq<Queued>, q: Queued, v: Venue, session: nat)
    requires q.ev.venue != v
    ensures QueuedOf(history + [q], v, session) == QueuedOf(history, v, session)
  {
    QueuedSnoc(history, q, v, session);
  }
}
