/** The two nodes wired together: every frame the replay node publishes lands
    in the detection node's empty slot and is taken by its next poll, whose
    published result is the replay node's next callback. The detection
    services are fixed functions, so one replay of a folder is a deterministic
    trace, and `RunMatchesSessions` states what that trace is: for each
    recording in listing order, its frames in replay order, then its session
    file with one record per frame in that order, and at the end the
    "all processed" message. */
module Pipeline {
  import opened Wrappers
  import opened Listing
  import opened Messages
  import opened JsonValues
  import Records
  import opened Replay
  import Dispatch

  datatype Trace = Trace(events: seq<Event>, fault: Option<Fault>)

  /** The replay node's outputs from a state with `frame` in flight, until no
      frame is left in flight. Its stop-or-continue test is `Continue`'s,
      repeated so that the recursion stays inside `Drive`, where the
      controller's queue measure decreases. */
  function Drive(c: Controller, bags: Bags, det: Dispatch.Detectors, frame: Image): (t: Trace)
    decreases |c.filenames|, |c.messages|
  {
    var s := OnResult(c, bags, Dispatch.Annotate(det, frame));
    if s.fault.Some? || |s.events| == 0 || !s.events[|s.events| - 1].Publish? then Trace(s.events, s.fault)
    else
      var rest := Drive(s.next, bags, det, s.events[|s.events| - 1].frame);
      Trace(s.events + rest.events, rest.fault)
  }

  /** The outputs of a handler step, followed, if it left a frame in flight,
      by the outputs of driving the loop from there. */
  function Continue(s: Step, bags: Bags, det: Dispatch.Detectors): Trace
  {
    if s.fault.Some? || |s.events| == 0 || !s.events[|s.events| - 1].Publish? then Trace(s.events, s.fault)
    else
      var rest := Drive(s.next, bags, det, s.events[|s.events| - 1].frame);
      Trace(s.events + rest.events, rest.fault)
  }

  /** The whole replay: list the folder, load the first recording, then
      answer every published frame. */
  function Run(listing: seq<Entry>, bags: Bags, det: Dispatch.Detectors): Trace
  {
    Continue(ReadNext(Start(listing), bags), bags, det)
  }

  // ---- the reference: what a replay should produce, session by session ------

  function Publishes(frames: seq<Image>): seq<Event>
  {
    seq(|frames|, i requires 0 <= i < |frames| => Publish(frames[i]))
  }

  /** The records of a session: the answer to each frame, in replay order. */
  function SessionRecords(det: Dispatch.Detectors, frames: seq<Image>): seq<Json>
  {
    seq(|frames|, i requires 0 <= i < |frames| => Records.Record(Dispatch.Annotate(det, frames[i])))
  }

  /** Session by session: each recording's frames are published in replay
      order and then its file is written with the records of exactly those
      frames; an unreadable or empty recording stops the replay. */
  function Expected(names: seq<string>, bags: Bags, det: Dispatch.Detectors): Trace
    decreases |names|
  {
    if |names| == 0 then Trace([AllProcessed], None)
    else if names[0] !in bags then Trace([], Some(UnreadableBag(names[0])))
    else if |bags[names[0]]| == 0 then Trace([], Some(EmptyBag(names[0])))
    else
      var frames := SortFrames(bags[names[0]]);
      var rest := Expected(names[1..], bags, det);
      Trace(Publishes(frames) + [Save(OutputName(names[0]), SessionRecords(det, frames))] + rest.events, rest.fault)
  }

  // ---- proof ----------------------------------------------------------------

  /** The controller is mid-session and its records are the answers to the
      frames already replayed. */
  predicate OnTrack(c: Controller, bags: Bags, det: Dispatch.Detectors)
  {
    && Streaming(c, bags)
    && var frames := SortFrames(bags[c.filenames[0]]);
       c.data == SessionRecords(det, frames[..|c.data|])
  }

  lemma SessionRecordsSnoc(det: Dispatch.Detectors, frames: seq<Image>, k: nat)
    requires k < |frames|
    ensures SessionRecords(det, frames[..k + 1]) == SessionRecords(det, frames[..k]) + [Records.Record(Dispatch.Annotate(det, frames[k]))]
  {
  }

  lemma PublishesCons(frames: seq<Image>, k: nat)
    requires k < |frames|
    ensures Publishes(frames[k..]) == [Publish(frames[k])] + Publishes(frames[k + 1..])
  {
  }

  /** Loading the next recording and driving the loop from there is the
      reference replay of the remaining recordings. */
  lemma {:induction false} LoadThenDrive(c: Controller, bags: Bags, det: Dispatch.Detectors)
    ensures Continue(ReadNext(c, bags), bags, det) == Expected(c.filenames, bags, det)
    decreases |c.filenames|, 1, 0, 0
  {
    var s := ReadNext(c, bags);
    if |c.filenames| > 0 && s.fault.None? {
      var n := s.next;
      var frames := SortFrames(bags[c.filenames[0]]);
      var save := Save(OutputName(c.filenames[0]), SessionRecords(det, frames));
      var later := Expected(c.filenames[1..], bags, det);
      assert s.events == [Publish(frames[0])];
      assert OnTrack(n, bags, det) by {
        assert n.data == [] == SessionRecords(det, frames[..0]);
      }
      DriveOnTrack(n, bags, det);
      PublishesCons(frames, 0);
      assert frames[0..] == frames;
      var rest := Drive(n, bags, det, frames[0]);
      assert rest == Trace(Publishes(frames[1..]) + [save] + later.events, later.fault);
      ContinuePublish(s, bags, det, frames[0]);
      assert Expected(c.filenames, bags, det) == Trace(Publishes(frames) + [save] + later.events, later.fault);
      PrependPublish(Publish(frames[0]), Publishes(frames[1..]), save, later.events);
    }
  }

  /** Sequence identities, stated apart so that the proofs below can use them
      without unfolding the concatenations in their own large contexts. */
  lemma ConcatAssoc<T>(a: seq<T>, b: seq<T>, c: seq<T>)
    ensures a + (b + c) == (a + b) + c
  {
  }

  lemma EmptyPrefix<T>(a: seq<T>, b: seq<T>)
    requires |a| == 0
    ensures a + b == b
  {
  }

  lemma PrependPublish(p: Event, xs: seq<Event>, save: Event, later: seq<Event>)
    ensures [p] + (xs + [save] + later) == ([p] + xs) + [save] + later
  {
  }

  lemma ContinuePublish(s: Step, bags: Bags, det: Dispatch.Detectors, f: Image)
    requires s.fault.None? && |s.events| > 0 && s.events[|s.events| - 1] == Publish(f)
    ensures Continue(s, bags, det) == Trace(s.events + Drive(s.next, bags, det, f).events, Drive(s.next, bags, det, f).fault)
  {
  }

  lemma ContinueStop(s: Step, bags: Bags, det: Dispatch.Detectors)
    requires s.fault.Some? || |s.events| == 0 || !s.events[|s.events| - 1].Publish?
    ensures Continue(s, bags, det) == Trace(s.events, s.fault)
  {
  }

  /** Answering the in-flight frame while frames remain queued keeps the
      session on track and publishes the next frame in replay order. */
  lemma AdvanceStep(c: Controller, bags: Bags, det: Dispatch.Detectors)
    requires OnTrack(c, bags, det) && |c.messages| > 0
    ensures var s := OnResult(c, bags, Dispatch.Annotate(det, InFlight(c, bags)));
      var frames := SortFrames(bags[c.filenames[0]]);
      && s.fault.None? && OnTrack(s.next, bags, det)
      && s.next.filenames == c.filenames && |s.next.data| == |c.data| + 1
      && |s.next.messages| < |c.messages|
      && s.events == [Publish(frames[|c.data| + 1])]
  {
    var frames := SortFrames(bags[c.filenames[0]]);
    SessionRecordsSnoc(det, frames, |c.data|);
  }

  /** Answering the last frame of a session writes the session's file with a
      record for every frame of it, then loads the next recording. */
  lemma FlushStep(c: Controller, bags: Bags, det: Dispatch.Detectors)
    requires OnTrack(c, bags, det) && |c.messages| == 0
    ensures var s := OnResult(c, bags, Dispatch.Annotate(det, InFlight(c, bags)));
      var frames := SortFrames(bags[c.filenames[0]]);
      var load := ReadNext(c.(data := SessionRecords(det, frames), filenames := c.filenames[1..]), bags);
      s == Step(load.next, [Save(OutputName(c.filenames[0]), SessionRecords(det, frames))] + load.events, load.fault)
  {
    var frames := SortFrames(bags[c.filenames[0]]);
    SessionRecordsSnoc(det, frames, |c.data|);
    assert frames[..|c.data| + 1] == frames;
    assert c.data + [Records.Record(Dispatch.Annotate(det, InFlight(c, bags)))] == SessionRecords(det, frames);
  }

  /** From a session on track, driving the loop publishes the remaining frames
      of the session, writes its file with all of its records, then continues
      as the reference does with the remaining recordings. */
  lemma {:induction false} DriveOnTrack(c: Controller, bags: Bags, det: Dispatch.Detectors)
    requires OnTrack(c, bags, det)
    ensures var frames := SortFrames(bags[c.filenames[0]]);
      var later := Expected(c.filenames[1..], bags, det);
      Drive(c, bags, det, InFlight(c, bags))
        == Trace(Publishes(frames[|c.data| + 1..]) + [Save(OutputName(c.filenames[0]), SessionRecords(det, frames))] + later.events, later.fault)
    decreases |c.filenames|, 0, |c.messages|, 1
  {
    if |c.messages| > 0 {
      DriveAdvance(c, bags, det);
    } else {
      DriveFlush(c, bags, det);
    }
  }

  lemma {:induction false} DriveAdvance(c: Controller, bags: Bags, det: Dispatch.Detectors)
    requires OnTrack(c, bags, det) && |c.messages| > 0
    ensures var frames := SortFrames(bags[c.filenames[0]]);
      var later := Expected(c.filenames[1..], bags, det);
      Drive(c, bags, det, InFlight(c, bags))
        == Trace(Publishes(frames[|c.data| + 1..]) + [Save(OutputName(c.filenames[0]), SessionRecords(det, frames))] + later.events, later.fault)
    decreases |c.filenames|, 0, |c.messages|, 0
  {
    var frames := SortFrames(bags[c.filenames[0]]);
    var k := |c.data|;
    var s := OnResult(c, bags, Dispatch.Annotate(det, InFlight(c, bags)));
    var later := Expected(c.filenames[1..], bags, det);
    var save := Save(OutputName(c.filenames[0]), SessionRecords(det, frames));
    assert Drive(c, bags, det, InFlight(c, bags)) == Continue(s, bags, det);
    AdvanceStep(c, bags, det);
    var n := s.next;
    assert InFlight(n, bags) == frames[k + 1];
    DriveOnTrack(n, bags, det);
    PublishesCons(frames, k + 1);
    var rest := Drive(n, bags, det, frames[k + 1]);
    assert rest == Trace(Publishes(frames[k + 2..]) + [save] + later.events, later.fault);
    ContinuePublish(s, bags, det, frames[k + 1]);
    PrependPublish(Publish(frames[k + 1]), Publishes(frames[k + 2..]), save, later.events);
  }

  lemma {:induction false} DriveFlush(c: Controller, bags: Bags, det: Dispatch.Detectors)
    requires OnTrack(c, bags, det) && |c.messages| == 0
    ensures var frames := SortFrames(bags[c.filenames[0]]);
      var later := Expected(c.filenames[1..], bags, det);
      Drive(c, bags, det, InFlight(c, bags))
        == Trace(Publishes(frames[|c.data| + 1..]) + [Save(OutputName(c.filenames[0]), SessionRecords(det, frames))] + later.events, later.fault)
    decreases |c.filenames|, 0, |c.messages|, 0
  {
    var frames := SortFrames(bags[c.filenames[0]]);
    var k := |c.data|;
    var s := OnResult(c, bags, Dispatch.Annotate(det, InFlight(c, bags)));
    var later := Expected(c.filenames[1..], bags, det);
    var save := Save(OutputName(c.filenames[0]), SessionRecords(det, frames));
    assert Drive(c, bags, det, InFlight(c, bags)) == Continue(s, bags, det);
    FlushStep(c, bags, det);
    var flushed := c.(data := SessionRecords(det, frames), filenames := c.filenames[1..]);
    var load := ReadNext(flushed, bags);
    LoadThenDrive(flushed, bags, det);
    assert Continue(load, bags, det) == later;
    assert s.events == [save] + load.events && s.next == load.next && s.fault == load.fault;
    if load.fault.None? && |load.events| > 0 && load.events[|load.events| - 1].Publish? {
      var last := load.events[|load.events| - 1];
      assert s.events[|s.events| - 1] == last;
      var rest := Drive(load.next, bags, det, last.frame);
      ContinuePublish(load, bags, det, last.frame);
      ContinuePublish(s, bags, det, last.frame);
      assert later == Trace(load.events + rest.events, rest.fault);
      assert Continue(s, bags, det) == Trace(s.events + rest.events, rest.fault);
      ConcatAssoc([save], load.events, rest.events);
      assert s.events + rest.events == [save] + later.events;
    } else {
      ContinueStop(load, bags, det);
      ContinueStop(s, bags, det);
      assert later == Trace(load.events, load.fault);
    }
    EmptyPrefix(Publishes(frames[k + 1..]), [save]);
  }

  /** The whole replay of a folder is the reference trace of its ".bag" files
      in listing order: every session is written exactly once, after all of its
      frames, with one record per frame in stamp order and nothing carried over
      from another session. */
  lemma {:induction false} RunMatchesSessions(listing: seq<Entry>, bags: Bags, det: Dispatch.Detectors)
    ensures Run(listing, bags, det) == Expected(FilesWithSuffix(listing, ".bag"), bags, det)
  {
    LoadThenDrive(Start(listing), bags, det);
  }

  // ---- consequences -----------------------------------------------------------

  /** The session files among a trace's events, in order. */
  function Saves(events: seq<Event>): seq<Event>
    decreases |events|
  {
    if |events| == 0 then []
    else (if events[0].Save? then [events[0]] else []) + Saves(events[1..])
  }

  lemma {:induction false} SavesAppend(a: seq<Event>, b: seq<Event>)
    ensures Saves(a + b) == Saves(a) + Saves(b)
    decreases |a|
  {
    if |a| == 0 {
      assert a + b == b;
    } else {
      assert (a + b)[0] == a[0];
      assert (a + b)[1..] == a[1..] + b;
      SavesAppend(a[1..], b);
    }
  }

  lemma {:induction false} SavesOfPublishes(frames: seq<Image>)
    ensures Saves(Publishes(frames)) == []
    decreases |frames|
  {
    if |frames| > 0 {
      assert Publishes(frames)[1..] == Publishes(frames[1..]);
      SavesOfPublishes(frames[1..]);
    }
  }

  predicate Replayable(names: seq<string>, bags: Bags)
  {
    forall i :: 0 <= i < |names| ==> names[i] in bags && |bags[names[i]]| > 0
  }

  /** One session file per recording, in order, each holding the records of
      all of that recording's frames. */
  function SessionFiles(names: seq<string>, bags: Bags, det: Dispatch.Detectors): seq<Event>
    requires Replayable(names, bags)
    decreases |names|
  {
    if |names| == 0 then []
    else
      assert Replayable(names[1..], bags) by {
        forall i | 0 <= i < |names| - 1
          ensures names[1..][i] in bags && |bags[names[1..][i]]| > 0
        {
          assert names[1..][i] == names[i + 1];
        }
      }
      [Save(OutputName(names[0]), SessionRecords(det, SortFrames(bags[names[0]])))] + SessionFiles(names[1..], bags, det)
  }

  lemma ReplayableCons(names: seq<string>, bags: Bags)
    requires |names| > 0
    ensures Replayable(names, bags) <==> names[0] in bags && |bags[names[0]]| > 0 && Replayable(names[1..], bags)
  {
    if names[0] in bags && |bags[names[0]]| > 0 && Replayable(names[1..], bags) {
      forall i | 0 <= i < |names|
        ensures names[i] in bags && |bags[names[i]]| > 0
      {
        if i > 0 { assert names[i] == names[1..][i - 1]; }
      }
    }
  }

  /** The reference replay ends without an exception exactly when every
      recording is readable and non-empty. */
  lemma {:induction false} ExpectedSucceeds(names: seq<string>, bags: Bags, det: Dispatch.Detectors)
    ensures Expected(names, bags, det).fault.None? <==> Replayable(names, bags)
    decreases |names|
  {
    if |names| > 0 {
      ExpectedSucceeds(names[1..], bags, det);
      ReplayableCons(names, bags);
    }
  }

  lemma SavesOfSession(frames: seq<Image>, save: Event, later: seq<Event>)
    requires save.Save?
    ensures Saves(Publishes(frames) + [save] + later) == [save] + Saves(later)
  {
    SavesAppend(Publishes(frames) + [save], later);
    SavesAppend(Publishes(frames), [save]);
    SavesOfPublishes(frames);
    assert Saves([save]) == [save];
  }

  lemma SessionFilesCons(names: seq<string>, bags: Bags, det: Dispatch.Detectors)
    requires |names| > 0 && Replayable(names, bags)
    ensures Replayable(names[1..], bags)
    ensures SessionFiles(names, bags, det)
         == [Save(OutputName(names[0]), SessionRecords(det, SortFrames(bags[names[0]])))] + SessionFiles(names[1..], bags, det)
  {
    ReplayableCons(names, bags);
  }

  /** A complete reference replay writes every session file once, in order,
      and ends with the "all processed" message. */
  lemma {:induction false} ExpectedSaves(names: seq<string>, bags: Bags, det: Dispatch.Detectors)
    requires Replayable(names, bags)
    ensures var t := Expected(names, bags, det);
      && |t.events| > 0 && t.events[|t.events| - 1] == AllProcessed
      && Saves(t.events) == SessionFiles(names, bags, det)
    decreases |names|
  {
    if |names| > 0 {
      SessionFilesCons(names, bags, det);
      var rest := Expected(names[1..], bags, det);
      ExpectedSaves(names[1..], bags, det);
      var frames := SortFrames(bags[names[0]]);
      var save := Save(OutputName(names[0]), SessionRecords(det, frames));
      var events := Publishes(frames) + [save] + rest.events;
      assert Expected(names, bags, det).events == events;
      SavesOfSession(frames, save, rest.events);
      assert events[|events| - 1] == rest.events[|rest.events| - 1];
    }
  }

  /** A folder whose ".bag" recordings are all readable and non-empty is
      replayed to the end, with one session file per recording in listing
      order; any other folder ends with an exception. */
  lemma {:induction false} RunWritesEverySession(listing: seq<Entry>, bags: Bags, det: Dispatch.Detectors)
    ensures var names := FilesWithSuffix(listing, ".bag");
      var t := Run(listing, bags, det);
      && (t.fault.None? <==> Replayable(names, bags))
      && (Replayable(names, bags) ==>
            t.events[|t.events| - 1] == AllProcessed && Saves(t.events) == SessionFiles(names, bags, det))
  {
    var names := FilesWithSuffix(listing, ".bag");
    RunMatchesSessions(listing, bags, det);
    ExpectedSucceeds(names, bags, det);
    if Replayable(names, bags) {
      ExpectedSaves(names, bags, det);
    }
  }
}
