/** The session replay node (`DatasetMediaPipePreprocessing`): it replays the
    recordings of a folder one frame at a time and writes one JSON file of
    per-frame records per recording.

    The node's mutable fields become a `Controller` value and its two handlers
    become pure step functions returning the next state, the outputs in the
    order they happen (published frames, written files, the final message) and
    the exception, if one is raised, together with the state at that point. */
module Replay {
  import opened Wrappers
  import opened Strings
  import opened Listing
  import opened Messages
  import opened JsonValues
  import Records
  import StableSort

  /** The messages of each recording, in the order the bag reader yields them;
      a name with no entry is a recording that cannot be opened. */
  type Bags = map<string, seq<Image>>

  /** The node's fields. `data` and `messages` are not created by the
      constructor: `hasData` records that `read_next_bag_file` has assigned
      `self.data`, and `hasMessages` that it has assigned `self.messages`,
      which a load that fails to open its bag does not do. */
  datatype Controller = Controller(filenames: seq<string>, hasData: bool, data: seq<Json>,
                                   hasMessages: bool, messages: seq<Image>)

  datatype Event =
    | Publish(frame: Image)                      // a frame sent to the detection node
    | Save(path: string, records: seq<Json>)     // a session file written to the output folder
    | AllProcessed                               // the "All bag files processed" message

  /** The exceptions the two handlers can raise. */
  datatype Fault =
    | NotStarted              // a result arrives while `self.data` does not exist
    | NoFrameQueue            // a result arrives while `self.messages` does not exist
    | NoActiveSession         // a result arrives after the last recording was flushed
    | UnreadableBag(name: string)
    | EmptyBag(name: string)  // `pop(0)` on an empty frame list

  datatype Step = Step(next: Controller, events: seq<Event>, fault: Option<Fault>)

  /** The exact-integer form of the sort key `secs * 1e9 + nsecs`. */
  function StampKey(img: Image): int
  {
    img.header.stamp.secs * 1_000_000_000 + img.header.stamp.nsecs
  }

  /** A recording's messages in replay order: a permutation of the bag, by
      ascending stamp, messages with equal stamps in the order they were read. */
  function SortFrames(bag: seq<Image>): (frames: seq<Image>)
    ensures |frames| == |bag| && multiset(frames) == multiset(bag)
    ensures StableSort.SortedBy(frames, StampKey)
    ensures StableSort.StablePermutation(frames, bag, StampKey)
  {
    StableSort.Sort(bag, StampKey)
  }

  /** The constructor: the recordings to replay are the listed files ending
      in ".bag", in listing order (`StartKeepsListingOrder`); neither `data`
      nor `messages` exists yet. */
  function Start(listing: seq<Entry>): (c: Controller)
    ensures !c.hasData && !c.hasMessages
    ensures forall i :: 0 <= i < |listing| && Wanted(listing[i], ".bag") ==> listing[i].name in c.filenames
    ensures forall n :: n in c.filenames ==> Entry(n, true) in listing && EndsWith(n, ".bag")
  {
    Controller(FilesWithSuffix(listing, ".bag"), false, [], false, [])
  }

  /** The recording list keeps listing order: a listing split in two yields
      the first part's recordings followed by the second part's. */
  lemma StartKeepsListingOrder(l1: seq<Entry>, l2: seq<Entry>)
    ensures Start(l1 + l2).filenames == Start(l1).filenames + Start(l2).filenames
  {
    FilesWithSuffixAppend(l1, l2, ".bag");
  }

  /** The output file of a recording: the name without its last four
      characters, followed by ".json". For a ".bag" name the ".bag" suffix is
      replaced, so the input name can be recovered from the output name. */
  function OutputName(bagName: string): (out: string)
    ensures EndsWith(out, ".json")
    ensures EndsWith(bagName, ".bag") ==> out[..|out| - 5] + ".bag" == bagName
  {
    var out := DropLast(bagName, 4) + ".json";
    assert out[|out| - 5..] == ".json";
    out
  }

  /** Distinct recordings never share an output file. */
  lemma OutputNameInjective(f: string, g: string)
    requires EndsWith(f, ".bag") && EndsWith(g, ".bag")
    requires OutputName(f) == OutputName(g)
    ensures f == g
  {
  }

  /** The controller is replaying its first recording: the frames before the
      in-flight one have produced the records in `data`, the in-flight frame is
      the next one in replay order, and `messages` holds the rest. */
  predicate Streaming(c: Controller, bags: Bags)
  {
    && c.hasData && c.hasMessages
    && |c.filenames| > 0
    && c.filenames[0] in bags
    && var frames := SortFrames(bags[c.filenames[0]]);
       |c.data| < |frames| && c.messages == frames[|c.data| + 1..]
  }

  /** The frame published last and not yet answered. */
  function InFlight(c: Controller, bags: Bags): Image
    requires Streaming(c, bags)
  {
    SortFrames(bags[c.filenames[0]])[|c.data|]
  }

  /** Records so far, the queued frames and the in-flight frame account for
      every message of the recording. */
  lemma StreamingCount(c: Controller, bags: Bags)
    requires Streaming(c, bags)
    ensures |c.data| + |c.messages| + 1 == |bags[c.filenames[0]]|
  {
  }

  function PublishCount(events: seq<Event>): nat
    decreases |events|
  {
    if |events| == 0 then 0
    else (if events[0].Publish? then 1 else 0) + PublishCount(events[1..])
  }

  /** `read_next_bag_file`: with no recording left it only reports that all
      are processed; otherwise it resets the records, loads the first
      recording in replay order and publishes its first frame. */
  function ReadNext(c: Controller, bags: Bags): (s: Step)
    ensures |c.filenames| == 0 ==> s == Step(c, [AllProcessed], None)
    ensures |c.filenames| > 0 ==>
      && s.next.filenames == c.filenames && s.next.hasData && s.next.data == []
      && (s.fault.None? <==> c.filenames[0] in bags && |bags[c.filenames[0]]| > 0)
    ensures |c.filenames| > 0 && s.fault.None? ==>
      Streaming(s.next, bags) && s.events == [Publish(InFlight(s.next, bags))]
    ensures |c.filenames| > 0 && s.fault.Some? ==> s.events == []
    ensures PublishCount(s.events) <= 1
    // loading never writes a session file
    ensures forall i :: 0 <= i < |s.events| ==> !s.events[i].Save?
  {
    if |c.filenames| == 0 then Step(c, [AllProcessed], None)
    else
      var name := c.filenames[0];
      var reset := c.(hasData := true, data := []);
      if name !in bags then Step(reset, [], Some(UnreadableBag(name)))
      else
        var frames := SortFrames(bags[name]);
        if |frames| == 0 then Step(reset.(hasMessages := true, messages := []), [], Some(EmptyBag(name)))
        else Step(reset.(hasMessages := true, messages := frames[1..]), [Publish(frames[0])], None)
  }

  /** `mediapipe_results_callback`: appends the message's record, then either
      publishes the next queued frame or, when the queue is empty, writes the
      session's records, drops the recording and loads the next one. */
  function OnResult(c: Controller, bags: Bags, msg: MpResults): (s: Step)
    ensures !c.hasData ==> s == Step(c, [], Some(NotStarted))
    ensures c.hasData && !c.hasMessages ==>
      s == Step(c.(data := c.data + [Records.Record(msg)]), [], Some(NoFrameQueue))
    ensures Streaming(c, bags) && |c.messages| > 0 ==>
      && s.fault.None? && Streaming(s.next, bags) && s.next.filenames == c.filenames
      && s.next.data == c.data + [Records.Record(msg)]
      && s.events == [Publish(InFlight(s.next, bags))]
    // any queued frame is published next, whether or not it belongs to the head recording
    ensures c.hasData && c.hasMessages && |c.messages| > 0 ==>
      s.fault.None? && s.events == [Publish(c.messages[0])] && s.next.messages == c.messages[1..]
    ensures Streaming(c, bags) && |c.messages| == 0 ==> |c.data| + 1 == |bags[c.filenames[0]]|
    // an empty queue writes the head recording's file, whether or not that
    // recording was ever opened
    ensures c.hasData && c.hasMessages && |c.messages| == 0 && |c.filenames| > 0 ==>
      && |s.events| > 0
      && s.events[0] == Save(OutputName(c.filenames[0]), c.data + [Records.Record(msg)])
      && s.next.filenames == c.filenames[1..]
    // a result after the last recording was written: appended, then `filenames[0]` raises
    ensures c.hasData && c.hasMessages && |c.messages| == 0 && |c.filenames| == 0 ==>
      s == Step(c.(data := c.data + [Records.Record(msg)]), [], Some(NoActiveSession))
    // a file is written only once the queue is empty, at most once, and first
    ensures forall i :: 0 <= i < |s.events| && s.events[i].Save? ==> i == 0 && |c.messages| == 0
    ensures PublishCount(s.events) <= 1
    // progress: each handled result shortens the queue or the recording list
    ensures s.fault.None? ==>
      || (|s.next.filenames| == |c.filenames| && |s.next.messages| < |c.messages|)
      || |s.next.filenames| < |c.filenames|
  {
    if !c.hasData then Step(c, [], Some(NotStarted))
    else
      var data := c.data + [Records.Record(msg)];
      if !c.hasMessages then Step(c.(data := data), [], Some(NoFrameQueue))
      else if |c.messages| > 0 then
        var next := c.(data := data, messages := c.messages[1..]);
        assert Streaming(c, bags) ==> Streaming(next, bags) && InFlight(next, bags) == c.messages[0] by {
          if Streaming(c, bags) {
            var frames := SortFrames(bags[c.filenames[0]]);
            assert c.messages[0] == frames[|data|];
            assert c.messages[1..] == frames[|data| + 1..];
          }
        }
        Step(next, [Publish(c.messages[0])], None)
      else if |c.filenames| == 0 then
        Step(c.(data := data), [], Some(NoActiveSession))
      else
        assert Streaming(c, bags) ==> |c.data| + 1 == |bags[c.filenames[0]]|;
        var load := ReadNext(c.(data := data, filenames := c.filenames[1..]), bags);
        assert PublishCount([Save(OutputName(c.filenames[0]), data)] + load.events) == PublishCount(load.events) by {
          assert ([Save(OutputName(c.filenames[0]), data)] + load.events)[1..] == load.events;
        }
        Step(load.next, [Save(OutputName(c.filenames[0]), data)] + load.events, load.fault)
  }

  /** When the first recording cannot be opened, `self.data` exists but
      `self.messages` was never assigned: a result arriving afterwards has its
      record appended and then raises, writing nothing. */
  lemma ResultAfterUnreadableFirstBag(listing: seq<Entry>, bags: Bags, msg: MpResults)
    requires |Start(listing).filenames| > 0 && Start(listing).filenames[0] !in bags
    ensures var load := ReadNext(Start(listing), bags);
      && load.fault == Some(UnreadableBag(Start(listing).filenames[0]))
      && OnResult(load.next, bags, msg) == Step(load.next.(data := [Records.Record(msg)]), [], Some(NoFrameQueue))
  {
  }

  /** When a later recording cannot be opened, `self.messages` is still the
      empty queue the previous session left behind: the next result is taken
      for that recording's only frame, and its one record is written under the
      unreadable recording's output name. Loading the recording after it may
      still raise. */
  lemma ResultAfterUnreadableLaterBag(c: Controller, bags: Bags, last: MpResults, stray: MpResults)
    requires Streaming(c, bags) && |c.messages| == 0
    requires |c.filenames| > 1 && c.filenames[1] !in bags
    ensures var s := OnResult(c, bags, last);
      && s.fault == Some(UnreadableBag(c.filenames[1]))
      && var r := OnResult(s.next, bags, stray);
         && |r.events| > 0
         && r.events[0] == Save(OutputName(c.filenames[1]), [Records.Record(stray)])
         && r.next.filenames == c.filenames[2..]
         // loading the recording after it may still raise
         && (r.fault.None? <==> |c.filenames| == 2 || (c.filenames[2] in bags && |bags[c.filenames[2]]| > 0))
  {
    var s := OnResult(c, bags, last);
    var load := ReadNext(c.(data := c.data + [Records.Record(last)], filenames := c.filenames[1..]), bags);
    assert load.next == c.(data := [], filenames := c.filenames[1..]);
    assert s == Step(load.next, [Save(OutputName(c.filenames[0]), c.data + [Records.Record(last)])], load.fault);
    assert s.next.hasData && s.next.hasMessages && s.next.messages == [] && s.next.data == [];
    var d := s.next;
    assert d.filenames == c.filenames[1..];
    assert d.filenames[1..] == c.filenames[2..];
    assert |d.filenames| == |c.filenames| - 1;
    assert |d.filenames| > 1 ==> d.filenames[1] == c.filenames[2];
    ResultOnEmptyQueue(d, bags, stray);
  }

  /** A result arriving with no records and an empty queue is taken for the
      head recording's only frame: one record is written under its name, and
      the next recording is loaded. */
  lemma ResultOnEmptyQueue(c: Controller, bags: Bags, msg: MpResults)
    requires c.hasData && c.hasMessages && c.data == [] && c.messages == [] && |c.filenames| > 0
    ensures var r := OnResult(c, bags, msg);
      && |r.events| > 0
      && r.events[0] == Save(OutputName(c.filenames[0]), [Records.Record(msg)])
      && r.next.filenames == c.filenames[1..]
      && (r.fault.None? <==> |c.filenames| == 1 || (c.filenames[1] in bags && |bags[c.filenames[1]]| > 0))
  {
    assert [] + [Records.Record(msg)] == [Records.Record(msg)];
  }

  /** With no recording left, reading the next one changes nothing and
      publishes nothing, however often it is repeated. */
  lemma {:induction false} ReadNextIdle(c: Controller, bags: Bags, n: nat)
    requires |c.filenames| == 0
    ensures Repeat(c, bags, n) == Step(c, seq(n, _ => AllProcessed), None)
    decreases n
  {
    if n > 0 {
      ReadNextIdle(c, bags, n - 1);
      assert seq(n, _ => AllProcessed) == [AllProcessed] + seq(n - 1, _ => AllProcessed);
    }
  }

  /** `n` calls of `read_next_bag_file` in a row, outputs concatenated,
      stopping at the first exception. */
  function Repeat(c: Controller, bags: Bags, n: nat): Step
    decreases n
  {
    if n == 0 then Step(c, [], None)
    else
      var first := ReadNext(c, bags);
      if first.fault.Some? then first
      else
        var rest := Repeat(first.next, bags, n - 1);
        Step(rest.next, first.events + rest.events, rest.fault)
  }
}
