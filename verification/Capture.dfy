/** The tape recorder: a producer that never blocks, a drain that writes, files that rotate. */
module Capture {
  import opened Common
  import opened CaptureSpec
  import opened TapeTheory

  const FORMAT_VERSION: int := 1

  datatype Header = Header(format: int, runID: string, number: int)
  datatype File = File(header: Header, records: seq<Record>)

  /** The event of a marker is the zero value. */
  const NO_EVENT := Event(0, KindSnapshot, [], [], 0)

  /** What goes wrong, if anything, while a record is written. */
  datatype Fault = NoFault | FinishFault | CreateFault | EncodeFault

  /** One write as the world decides it: whether the hour turned or the file is full, what fails, and the time. */
  datatype Write = Write(rotate: bool, fault: Fault, wall: int)

  /** What other goroutines do: the producer offers, or counts the offer whose send has failed, or the daemon closes. */
  datatype Outside = Offers(ev: Event) | CountsLoss | Closes

  /** What they do while the drain is between two of its steps. */
  datatype Meanwhile = Meanwhile(beforeCount: seq<Outside>, beforeMark: seq<Outside>, beforeEvent: seq<Outside>)

  /** What of it is offered before it closes. */
  function Heard(acts: seq<Outside>): seq<Event> {
    if acts == [] then []
    else
      var n := |acts| - 1;
      Heard(acts[..n]) + if acts[n].Offers? && Closes !in acts[..n] then [acts[n].ev] else []
  }

  lemma HeardStep(acts: seq<Outside>, a: Outside)
    ensures Heard([]) == []
    ensures Heard(acts + [a]) == Heard(acts) + if a.Offers? && Closes !in acts then [a.ev] else []
    ensures Closes in acts + [a] <==> Closes in acts || a == Closes
  {
    assert (acts + [a])[..|acts|] == acts;
  }

  lemma {:induction false} HeardAppend(a: seq<Outside>, b: seq<Outside>)
    ensures Heard(a + b) == Heard(a) + if Closes in a then [] else Heard(b)
  {
    hide Heard;
    if b == [] {
      HeardStep([], Closes);
      assert a + b == a;
    } else {
      var n := |b| - 1;
      HeardAppend(a, b[..n]);
      HeardStep(a + b[..n], b[n]);
      HeardStep(b[..n], b[n]);
      assert a + b == (a + b[..n]) + [b[n]] && b == b[..n] + [b[n]];
    }
  }

  /** All that happens while one event is written. */
  function During(m: Meanwhile): seq<Outside> {
    m.beforeCount + m.beforeMark + m.beforeEvent
  }

  /** What is offered until a writer, closed or not, has let the others run three times. */
  lemma HeardDuring(log: seq<Event>, closed: bool, m: Meanwhile)
    ensures
      var early := closed || Closes in m.beforeCount;
      var a := log + if closed then [] else Heard(m.beforeCount);
      var b := a + if early then [] else Heard(m.beforeMark);
      var c := b + if early || Closes in m.beforeMark then [] else Heard(m.beforeEvent);
      c == log + if closed then [] else Heard(During(m))
    ensures Closes in During(m) <==> Closes in m.beforeCount || Closes in m.beforeMark || Closes in m.beforeEvent
  {
    hide Heard;
    HeardAppend(m.beforeCount + m.beforeMark, m.beforeEvent);
    HeardAppend(m.beforeCount, m.beforeMark);
  }

  function AllRecords(files: seq<File>): seq<Record> {
    if files == [] then [] else AllRecords(files[..|files| - 1]) + files[|files| - 1].records
  }

  /** Files are numbered from 0 without a hole, and carry the run and the format. */
  ghost predicate Numbered(files: seq<File>, runID: string) {
    files != [] && forall i :: 0 <= i < |files| ==> files[i].header == Header(FORMAT_VERSION, runID, i)
  }

  ghost predicate FilesTranscribe(files: seq<File>, items: seq<seq<Item>>, log: seq<Event>) {
    |files| == |items| && forall i :: 0 <= i < |files| ==> Transcribes(files[i].records, items[i], log)
  }

  ghost predicate QueueHolds(queue: seq<Event>, ids: seq<nat>, log: seq<Event>) {
    |queue| == |ids| && forall i :: 0 <= i < |ids| ==> ids[i] < |log| && queue[i] == log[ids[i]]
  }

  /** An event written goes to the end of the last file. */
  function Appended(files: seq<File>, r: Record): seq<File>
    requires files != []
  {
    var last := files[|files| - 1];
    files[|files| - 1 := last.(records := last.records + [r])]
  }

  lemma {:induction false} FilesTranscribeAll(files: seq<File>, items: seq<seq<Item>>, log: seq<Event>)
    requires FilesTranscribe(files, items, log)
    ensures Transcribes(AllRecords(files), Tape(items), log)
  {
    if files != [] {
      var n := |files| - 1;
      FilesTranscribeAll(files[..n], items[..n], log);
      assert Transcribes(files[n].records, items[n], log);
    }
  }

  lemma {:induction false} PutTranscribes(files: seq<File>, items: seq<seq<Item>>, log: seq<Event>, added: File, rotate: bool,
                                    r: Record, it: Item)
    requires FilesTranscribe(files, items, log) && TranscribesOne(r, it, log) && files != [] && added.records == []
    ensures FilesTranscribe(Appended(if rotate then files + [added] else files, r), Put(items, rotate, it), log)
  {
    var n := |files| - 1;
    assert Transcribes(files[n].records, items[n], log);
  }

  lemma {:induction false} AppendedRecords(files: seq<File>, r: Record)
    requires files != []
    ensures AllRecords(Appended(files, r)) == AllRecords(files) + [r]
  {
  }

  class Writer {
    const runID: string
    const bufSize: nat
    var drainCh: seq<Event>
    var dropCnt: nat
    var closed: bool
    var files: seq<File>
    var fileSeq: nat
    /** Whether an encoder is open on the last file. */
    var open: bool
    /** Whether an error was recorded; the first one is sticky. */
    var failed: bool
    /** The offer whose send has failed, until the producer counts it. */
    var late: Option<Event>
    /** Everything queued or counted. */
    ghost var log: seq<Event>
    /** The writer as a state of the interleaved steps. */
    ghost var cap: Cap

    ghost predicate Synced()
      reads this
    {
      && cap.files != [] && Inv(cap) && cap.bufSize == bufSize && cap.offered == |log| && cap.closed == closed
      && QueueHolds(drainCh, cap.queue, log) && dropCnt == |cap.pend|
      && FilesTranscribe(files, cap.files, log)
      && fileSeq == |files| - 1 && (cap.hand != Stopped ==> open)
      && cap.shut == closed && cap.prod == (if late.Some? then Late else Free)
    }

    /** Everything offered before the writer was closed. */
    ghost function Made(): seq<Event>
      reads this`log, this`late
    {
      log + if late.Some? then [late.value] else []
    }

    /** Until an error is recorded, the fields and the steps agree. */
    ghost predicate Valid()
      reads this
    {
      Numbered(files, runID) && (!failed ==> Synced())
    }

    constructor (runID: string, bufSize: int)
      ensures Valid() && log == [] && late == None && !failed && !closed && cap.hand == Idle && this.runID == runID
      ensures this.bufSize == if bufSize <= 0 then 65536 else bufSize
    {
      this.runID := runID;
      this.bufSize := if bufSize <= 0 then 65536 else bufSize;
      drainCh, dropCnt, late, closed := [], 0, None, false;
      files, fileSeq, open, failed := [File(Header(FORMAT_VERSION, runID, 0), [])], 0, true, false;
      log := [];
      cap := Start(if bufSize <= 0 then 65536 else bufSize);
      new;
      StartKeeps(this.bufSize);
    }

    /** Enqueues an event without ever blocking: when the buffer is full it is left to be counted. */
    method Offer(ev: Event)
      requires Valid() && late == None
      modifies this`drainCh, this`late, this`log, this`cap
      ensures Valid() && old(log) <= log && Made() == if closed then old(Made()) else old(Made()) + [ev]
      ensures !closed ==> (late == None <==> |old(drainCh)| < bufSize)
      ensures !failed ==> var checked := Do(old(cap), Check);
        cap == if closed then checked else Do(checked, Send)
      ensures cap.hand == old(cap.hand) && cap.files == old(cap.files)
      ensures closed ==> drainCh == old(drainCh) && late == None
    {
      hide Inv, FilesTranscribe, Transcribes;
      if closed {
        return;
      }
      ghost var was := log;
      if !failed {
        StepKeeps(cap, Check);
        InvFiles(cap);
        StepKeeps(Do(cap, Check), Send);
        cap := Do(Do(cap, Check), Send);
      }
      if |drainCh| < bufSize {
        log := log + [ev];
        if !failed { LogGrows(files, cap.files, was, ev); }
        drainCh := drainCh + [ev];
      } else {
        late := Some(ev);
      }
    }

    /** The rest of an offer that found the buffer full: the loss is counted. */
    method CountLoss()
      requires Valid() && late.Some?
      modifies this`dropCnt, this`late, this`log, this`cap
      ensures Valid() && old(log) <= log && late == None && Made() == old(Made()) && dropCnt == old(dropCnt) + 1
      ensures !failed ==> StepsTo(old(cap), Add, cap)
      ensures cap.hand == old(cap.hand) && cap.files == old(cap.files)
    {
      hide Inv, FilesTranscribe, Transcribes;
      ghost var was, ev := log, late.value;
      log := log + [ev];
      if !failed {
        StepKeeps(cap, Add);
        InvFiles(cap);
        cap := Do(cap, Add);
        LogGrows(files, cap.files, was, ev);
      }
      late, dropCnt := None, dropCnt + 1;
    }

    /** Other goroutines run for a while. The producer counts a failed send before it offers again, also after the close;
        offers after the close are ignored. */
    method Others(acts: seq<Outside>)
      requires Valid()
      modifies this`drainCh, this`dropCnt, this`late, this`log, this`cap, this`closed
      ensures Valid() && (closed <==> old(closed) || Closes in acts) && old(log) <= log
      ensures Made() == old(Made()) + if old(closed) then [] else Heard(acts)
      ensures cap.hand == old(cap.hand) && cap.files == old(cap.files)
      ensures old(closed) ==> drainCh == old(drainCh)
      ensures old(closed) && old(late) == None ==> late == None && dropCnt == old(dropCnt)
    {
      hide Inv, Valid, Heard, Made;
      HeardStep([], Closes);
      for i := 0 to |acts|
        invariant Valid() && (closed <==> old(closed) || Closes in acts[..i]) && old(log) <= log
        invariant Made() == old(Made()) + if old(closed) then [] else Heard(acts[..i])
        invariant cap.hand == old(cap.hand) && cap.files == old(cap.files)
        invariant old(closed) ==> drainCh == old(drainCh)
        invariant old(closed) && old(late) == None ==> late == None && dropCnt == old(dropCnt)
      {
        assert acts[..i + 1] == acts[..i] + [acts[i]];
        HeardStep(acts[..i], acts[i]);
        OneOther(acts[i]);
      }
      assert acts[..|acts|] == acts;
    }

    method OneOther(act: Outside)
      requires Valid()
      modifies this`drainCh, this`dropCnt, this`late, this`log, this`cap, this`closed
      ensures Valid() && (closed <==> old(closed) || act == Closes) && old(log) <= log
      ensures Made() == old(Made()) + if !old(closed) && act.Offers? then [act.ev] else []
      ensures cap.hand == old(cap.hand) && cap.files == old(cap.files)
      ensures old(closed) ==> drainCh == old(drainCh)
      ensures old(closed) && old(late) == None ==> late == None && dropCnt == old(dropCnt)
    {
      hide Inv, Valid;
      if late.Some? && act != Closes {
        CountLoss();
      }
      match act
      case Offers(ev) => Offer(ev);
      case CountsLoss =>
      case Closes => CloseChannel();
    }

    /** Writes one record, in the next file when it is time to rotate. Nothing is written after an error. */
    method PutRecord(r: Record, ghost it: Item, w: Write) returns (ok: bool)
      requires Valid() && (!failed ==> cap.hand != Stopped && TranscribesOne(r, it, log))
      modifies this`files, this`fileSeq, this`open, this`failed
      ensures Numbered(files, runID)
      ensures !failed ==> ok && old(!failed) && fileSeq == |files| - 1 && open
      ensures !failed ==> FilesTranscribe(files, Put(cap.files, w.rotate, it), log)
      ensures AllRecords(files) == old(AllRecords(files)) + if ok then [r] else []
      ensures old(failed) ==> files == old(files)
    {
      hide Inv, Transcribes, FilesTranscribe, AllRecords;
      if failed {
        return false;
      }
      if w.rotate {
        var ready := Rotate(w);
        if !ready {
          return false;
        }
      }
      if w.fault == EncodeFault {
        failed := true;
        return false;
      }
      AppendedRecords(files, r);
      PutTranscribes(old(files), cap.files, log, File(Header(FORMAT_VERSION, runID, |old(files)|), []), w.rotate, r, it);
      files := Appended(files, r);
      return true;
    }

    /** Finishes the current file and opens the next. */
    method Rotate(w: Write) returns (ready: bool)
      requires Numbered(files, runID) && fileSeq == |files| - 1 && !failed
      modifies this`files, this`fileSeq, this`open, this`failed
      ensures Numbered(files, runID) && AllRecords(files) == old(AllRecords(files))
      ensures failed <==> w.fault == FinishFault || w.fault == CreateFault
      ensures ready <==> w.fault != CreateFault
      ensures ready ==> open && fileSeq == |files| - 1
      ensures ready ==> files == old(files) + [File(Header(FORMAT_VERSION, runID, |old(files)|), [])]
    {
      open := false;
      if w.fault == FinishFault {
        failed := true;
      }
      fileSeq := fileSeq + 1;
      if w.fault == CreateFault {
        failed := true;
        return false;
      }
      assert (files + [File(Header(FORMAT_VERSION, runID, fileSeq), [])])[..|files|] == files;
      files := files + [File(Header(FORMAT_VERSION, runID, fileSeq), [])];
      open := true;
      return true;
    }

    /** Takes the next event off the channel. */
    method Receive() returns (ev: Event)
      requires Valid() && drainCh != [] && (!failed ==> cap.hand == Idle)
      modifies this`drainCh, this`cap
      ensures Valid() && drainCh == old(drainCh)[1..] && ev == old(drainCh)[0]
      ensures !failed ==> StepsTo(old(cap), Action.Receive, cap) && cap.hand.id < |log| && log[cap.hand.id] == ev
    {
      hide Inv, FilesTranscribe;
      ev := drainCh[0];
      if !failed {
        StepKeeps(cap, Action.Receive);
        InvFiles(cap);
        cap := Do(cap, Action.Receive);
      }
      drainCh := drainCh[1..];
    }

    /** Swaps the drop counter to zero. */
    method CountDropped() returns (dropped: nat)
      requires Valid() && (!failed ==> Enabled(cap, CountDrops))
      modifies this`dropCnt, this`cap
      ensures dropped == old(dropCnt) && dropCnt == 0
      ensures Valid() && (!failed ==> StepsTo(old(cap), CountDrops, cap) && dropped == |old(cap).pend|)
    {
      hide Inv, FilesTranscribe;
      if !failed {
        StepKeeps(cap, CountDrops);
        InvFiles(cap);
        cap := Do(cap, CountDrops);
      }
      dropped := dropCnt;
      dropCnt := 0;
    }

    /** Writes the marker for what was counted. */
    method WriteGap(dropped: nat, w: Write) returns (ok: bool)
      requires Valid() && dropped > 0
      requires !failed ==> (cap.hand.Counted? || cap.hand.Final?) && dropped == |cap.hand.ids|
      modifies this`files, this`fileSeq, this`open, this`failed, this`cap
      ensures Valid() && (!failed ==> ok && old(!failed) && StepsTo(old(cap), CaptureSpec.WriteMark(w.rotate), cap))
      ensures old(AllRecords(files)) <= AllRecords(files)
    {
      hide Inv, FilesTranscribe, AllRecords, Transcribes;
      var r := Record(w.wall, dropped, NO_EVENT);
      ghost var it := if failed then Gap([]) else Gap(cap.hand.ids);
      ok := PutRecord(r, it, w);
      if !failed {
        StepKeeps(cap, CaptureSpec.WriteMark(w.rotate));
        InvFiles(cap);
        cap := Do(cap, CaptureSpec.WriteMark(w.rotate));
      }
    }

    /** Writes the event in hand. */
    method WriteTaken(ev: Event, ghost id: nat, w: Write)
      requires Valid() && (!failed ==> cap.hand == Marked(id) && id < |log| && log[id] == ev)
      modifies this`files, this`fileSeq, this`open, this`failed, this`cap
      ensures Valid() && (!failed ==> old(!failed) && StepsTo(old(cap), CaptureSpec.WriteEvent(w.rotate), cap))
      ensures !failed ==> AllRecords(files) == old(AllRecords(files)) + [Record(w.wall, 0, ev)]
      ensures old(AllRecords(files)) <= AllRecords(files)
    {
      hide Inv, FilesTranscribe, AllRecords, Transcribes;
      var ok := PutRecord(Record(w.wall, 0, ev), Ev(id), w);
      if !failed {
        StepKeeps(cap, CaptureSpec.WriteEvent(w.rotate));
        InvFiles(cap);
        cap := Do(cap, CaptureSpec.WriteEvent(w.rotate));
      }
    }

    /** Marks what was dropped until the counter is read. The producer goes on offering in between, and the daemon may
        close. */
    method MarkDropped(m: Meanwhile, marker: Write) returns (ok: bool)
      requires Valid() && (!failed ==> cap.hand.Got?)
      modifies this
      ensures Valid() && (!failed ==> ok && old(!failed) && cap.hand == Marked(old(cap.hand.id)))
      ensures closed <==> old(closed) || Closes in During(m)
      ensures Made() == old(Made()) + (if old(closed) then [] else Heard(During(m))) && old(log) <= log
      ensures old(closed) ==> drainCh == old(drainCh)
      ensures old(closed) && old(late) == None ==> late == None
      ensures old(AllRecords(files)) <= AllRecords(files)
    {
      hide Inv, FilesTranscribe, AllRecords, Valid, Heard, During, Made;
      HeardDuring(Made(), closed, m);
      Others(m.beforeCount);
      var dropped := CountDropped();
      Others(m.beforeMark);
      ok := true;
      if dropped > 0 {
        ok := WriteGap(dropped, marker);
      }
      Others(m.beforeEvent);
    }

    /** Writes an event, after a marker for what was dropped; not if the marker could not be written. */
    method WriteEvent(ev: Event, m: Meanwhile, marker: Write, event: Write)
      requires Valid() && (!failed ==> cap.hand.Got? && cap.hand.id < |log| && log[cap.hand.id] == ev)
      modifies this
      ensures Valid() && (!failed ==> cap.hand == Idle && old(!failed))
      ensures closed <==> old(closed) || Closes in During(m)
      ensures Made() == old(Made()) + (if old(closed) then [] else Heard(During(m))) && old(log) <= log
      ensures old(closed) ==> drainCh == old(drainCh)
      ensures old(closed) && old(late) == None ==> late == None
      ensures !failed ==> AllRecords(files) != [] && AllRecords(files)[|AllRecords(files)| - 1] == Record(event.wall, 0, ev)
      ensures old(AllRecords(files)) <= AllRecords(files)
    {
      hide Inv, FilesTranscribe, AllRecords, Valid, Heard, During, Made;
      ghost var id := if failed then 0 else cap.hand.id;
      var ok := MarkDropped(m, marker);
      if ok {
        WriteTaken(ev, id, event);
      }
    }

    /** After the channel is closed and empty: a last marker, then the file is closed. The producer may still count. */
    method WriteFinalGap(others: seq<Outside>, w: Write, finishFault: bool)
      requires Valid() && closed && drainCh == [] && (!failed ==> cap.hand == Idle)
      modifies this
      ensures Valid() && (!failed ==> cap.hand == Stopped && old(!failed)) && !open && closed && drainCh == []
      ensures Made() == old(Made())
      ensures old(late) == None ==> late == None && dropCnt == 0
      ensures old(AllRecords(files)) <= AllRecords(files)
    {
      hide Inv, FilesTranscribe, AllRecords, Transcribes, Made;
      var dropped := CountDropped();
      Others(others);
      if dropped > 0 {
        var ok := WriteGap(dropped, w);
        if !ok {
          failed := true;
        }
      }
      CloseCurrent(finishFault);
    }

    /** Finishes the last file. */
    method CloseCurrent(finishFault: bool)
      requires Valid() && (!failed ==> cap.hand == Stopped)
      modifies this`open, this`failed
      ensures Valid() && !open && (!failed ==> old(!failed))
    {
      hide Inv, FilesTranscribe;
      open := false;
      if finishFault {
        failed := true;
      }
    }

    /** The drain has stopped: every offer is on the tape, as an event or counted by a marker that is placed as close as
        the buffer allows, in files numbered from 0; and a tape without a marker is exactly what was offered. */
    ghost predicate AllOnTape()
      reads this
    {
      && cap.hand == Stopped && cap.pend == [] && cap.bufSize == bufSize && Made() == log
      && Transcribes(AllRecords(files), Tape(cap.files), log)
      && Accounts(Tape(cap.files), |log|) && Placed(Tape(cap.files), bufSize)
      && |EventsOf(AllRecords(files))| + GapSum(AllRecords(files)) == |log|
      && (GapSum(AllRecords(files)) == 0 ==> EventsOf(AllRecords(files)) == log)
    }

    lemma StoppedOnTape()
      requires Valid() && !failed && cap.hand == Stopped && late == None && dropCnt == 0
      ensures AllOnTape()
    {
      hide Inv, FilesTranscribe, AllRecords, Transcribes, EventsOf, GapSum, Accounts, Placed, Tape;
      StoppedRecords(files, cap, log);
    }

    /** After the close the drain takes what is queued, then closes the file. When no offer is left uncounted everything is
        on the tape; only an offer whose send had failed before the close can be. */
    method DrainRest()
      requires Valid() && closed && (!failed ==> cap.hand == Idle)
      modifies this
      ensures Valid() && closed && drainCh == [] && Made() == old(Made())
      ensures !failed && late == None && dropCnt == 0 ==> AllOnTape()
      ensures old(late) == None ==> late == None && dropCnt == 0
      ensures old(AllRecords(files)) <= AllRecords(files)
    {
      hide Inv, FilesTranscribe, AllRecords, Transcribes, Made, AllOnTape;
      while |drainCh| > 0
        invariant Valid() && closed && Made() == old(Made()) && (!failed ==> cap.hand == Idle)
        invariant old(late) == None ==> late == None
        invariant old(AllRecords(files)) <= AllRecords(files)
      {
        var m: Meanwhile, marker: Write, event: Write := *, *, *;
        var ev := Receive();
        WriteEvent(ev, m, marker, event);
      }
      var before: seq<Outside>, amid: seq<Outside>, after: seq<Outside> := *, *, *;
      var w: Write, fault: bool := *, *;
      Others(before);
      WriteFinalGap(amid, w, fault);
      Others(after);
      if !failed && late == None && dropCnt == 0 {
        StoppedOnTape();
      }
    }

    /** Drains what is queued and closes the file; reports the first error, and nothing when called again. When the
        producer was between two offers everything is then on the tape. */
    method Close() returns (err: bool)
      requires Valid() && (!closed && !failed ==> cap.hand == Idle)
      modifies this
      ensures Valid() && closed
      ensures old(closed) ==> !err && files == old(files)
      ensures !old(closed) ==> err == failed && drainCh == [] && Made() == old(Made())
      ensures !old(closed) && !err && late == None && dropCnt == 0 ==> AllOnTape()
      ensures !old(closed) && old(late) == None ==> late == None && dropCnt == 0
      ensures old(AllRecords(files)) <= AllRecords(files)
    {
      hide AllOnTape, Valid, AllRecords, Made;
      if closed {
        return false;
      }
      CloseChannel();
      DrainRest();
      return failed;
    }

    /** The same when the close arrives while the drain is writing an event, whose write it then finishes first. */
    method CloseAmid(ev: Event, m: Meanwhile, marker: Write, event: Write) returns (err: bool)
      requires Valid() && !closed && (!failed ==> cap.hand.Got? && cap.hand.id < |log| && log[cap.hand.id] == ev)
      requires Closes in During(m)
      modifies this
      ensures Valid() && closed && drainCh == [] && err == failed && Made() == old(Made()) + Heard(During(m))
      ensures !err && late == None && dropCnt == 0 ==> AllOnTape()
      ensures old(AllRecords(files)) <= AllRecords(files)
    {
      hide AllOnTape, Valid, AllRecords, Heard, During, Made;
      WriteEvent(ev, m, marker, event);
      DrainRest();
      return failed;
    }

    method CloseChannel()
      requires Valid()
      modifies this`closed, this`cap
      ensures Valid() && closed && cap.hand == old(cap.hand) && cap.files == old(cap.files)
      ensures !failed ==> cap == Do(Do(old(cap), Action.Close), Shut)
    {
      hide Inv, FilesTranscribe;
      if !failed {
        StepKeeps(cap, Action.Close);
        InvFiles(cap);
        StepKeeps(Do(cap, Action.Close), Shut);
        cap := Do(Do(cap, Action.Close), Shut);
      }
      closed := true;
    }
  }

  /** Opens a recorder: refused without a directory, or when the first file cannot be created or its header written. A
      missing run id is generated. */
  method NewWriter(dir: string, runID: string, generated: string, bufSize: int, opens: bool) returns (w: Writer?)
    ensures w != null <==> dir != "" && opens
    ensures w != null ==> fresh(w) && w.Valid() && w.Made() == [] && !w.failed && !w.closed && w.cap.hand == Idle
    ensures w != null ==> w.runID == (if runID == "" then generated else runID)
    ensures w != null ==> w.bufSize == if bufSize <= 0 then 65536 else bufSize
  {
    if dir == "" || !opens {
      return null;
    }
    w := new Writer(if runID == "" then generated else runID, bufSize);
  }

  /** The tape of a closed, drained writer that left no loss uncounted accounts for every offer; without a gap it is the
      log. */
  lemma {:induction false} StoppedRecords(files: seq<File>, s: Cap, log: seq<Event>)
    requires Inv(s) && s.hand == Stopped && s.pend == [] && s.offered == |log| && FilesTranscribe(files, s.files, log)
    ensures Transcribes(AllRecords(files), Tape(s.files), log)
    ensures Accounts(Tape(s.files), |log|) && Placed(Tape(s.files), s.bufSize)
    ensures |EventsOf(AllRecords(files))| + GapSum(AllRecords(files)) == |log|
    ensures GapSum(AllRecords(files)) == 0 ==> EventsOf(AllRecords(files)) == log
  {
    hide AllRecords, Tape;
    FilesTranscribeAll(files, s.files, log);
    StoppedProjected(s);
    MarkNone();
    assert Tape(s.files) + [] == Tape(s.files);
    NothingUncounted(AllRecords(files), Tape(s.files), log);
    if GapSum(AllRecords(files)) == 0 {
      GapFreeIsLog(AllRecords(files), Tape(s.files), log);
    }
  }

  lemma InvFiles(s: Cap)
    requires Inv(s)
    ensures s.files != [] && s.bufSize > 0
  {
  }

  lemma {:induction false} LogGrows(files: seq<File>, items: seq<seq<Item>>, log: seq<Event>, ev: Event)
    requires FilesTranscribe(files, items, log)
    ensures FilesTranscribe(files, items, log + [ev])
  {
  }
}
