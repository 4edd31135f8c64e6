/** The detection node (`MediaPipeProcessing`): a one-frame holding slot that
    the image subscription overwrites, and a polling loop that takes the frame
    out of the slot, runs both detectors on it and publishes the paired result.

    The subscription callback and one iteration of the polling loop are
    events applied one after the other; the two detection services are
    functions from an image to their result. */
module Dispatch {
  import opened Wrappers
  import opened Messages

  /** `self.image`: the newest frame not yet taken, if any. */
  datatype Dispatcher = Dispatcher(slot: Option<Image>)

  /** The slot is empty when the node starts. */
  const Initial: Dispatcher := Dispatcher(None)

  /** What the hands and pose services answer for an image. */
  datatype Detectors = Detectors(hands: Image -> seq<Hand>, pose: Image -> Option<Pose>)

  datatype Service = HandsModel | PoseModel

  /** The node's interactions with the services and the results topic, in order. */
  datatype Action =
    | SendGoal(service: Service, image: Image)
    | AwaitResult(service: Service)
    | PublishResults(results: MpResults)

  datatype Input = Arrival(frame: Image) | Poll

  datatype Outcome = Outcome(next: Dispatcher, actions: seq<Action>)

  /** `image_callback`: the arriving frame replaces whatever the slot held. */
  function ImageCallback(d: Dispatcher, msg: Image): (d': Dispatcher)
    ensures d'.slot == Some(msg)
  {
    Dispatcher(Some(msg))
  }

  /** Last write wins: a second arrival erases every trace of the first. */
  lemma CallbackOverwrites(d: Dispatcher, a: Image, b: Image)
    ensures ImageCallback(ImageCallback(d, a), b) == ImageCallback(d, b)
  {
  }

  /** The message published for a frame: the hands service's hands, the pose
      service's pose, and the frame's header sequence number. */
  function Annotate(det: Detectors, img: Image): MpResults
  {
    MpResults(det.hands(img), det.pose(img), img.header.sequence)
  }

  /** One dispatch of a taken frame: both goals sent, both results awaited
      (hands first), then the paired result published. */
  function Round(det: Detectors, img: Image): seq<Action>
  {
    [SendGoal(HandsModel, img), SendGoal(PoseModel, img),
     AwaitResult(HandsModel), AwaitResult(PoseModel),
     PublishResults(Annotate(det, img))]
  }

  function Published(actions: seq<Action>): seq<MpResults>
    decreases |actions|
  {
    if |actions| == 0 then []
    else (if actions[0].PublishResults? then [actions[0].results] else []) + Published(actions[1..])
  }

  lemma PublishedCons(a: Action, rest: seq<Action>)
    ensures Published([a] + rest) == (if a.PublishResults? then [a.results] else []) + Published(rest)
  {
    assert ([a] + rest)[1..] == rest;
  }

  lemma PublishedOfRound(det: Detectors, img: Image)
    ensures Published(Round(det, img)) == [Annotate(det, img)]
  {
    var p := PublishResults(Annotate(det, img));
    var w2 := AwaitResult(PoseModel);
    var w1 := AwaitResult(HandsModel);
    var s2 := SendGoal(PoseModel, img);
    var s1 := SendGoal(HandsModel, img);
    PublishedCons(p, []);
    PublishedCons(w2, [p]);
    PublishedCons(w1, [w2, p]);
    PublishedCons(s2, [w1, w2, p]);
    PublishedCons(s1, [s2, w1, w2, p]);
    assert [s2] + [w1, w2, p] == [s2, w1, w2, p];
    assert [s1] + [s2, w1, w2, p] == Round(det, img);
  }

  /** Every publication comes after both services' results were awaited. */
  ghost predicate PublishesAfterBothResults(actions: seq<Action>)
  {
    forall i :: 0 <= i < |actions| && actions[i].PublishResults? ==>
      exists j, k :: 0 <= j < i && 0 <= k < i && actions[j] == AwaitResult(HandsModel) && actions[k] == AwaitResult(PoseModel)
  }

  /** One iteration of the polling loop: with an empty slot nothing happens;
      otherwise the frame is taken out of the slot and dispatched. Either way
      the slot is empty afterwards. */
  function Tick(d: Dispatcher, det: Detectors): (o: Outcome)
    ensures d.slot.None? ==> o.actions == []
    ensures o.next.slot.None?
  {
    match d.slot
    case None => Outcome(d, [])
    case Some(img) => Outcome(Dispatcher(None), Round(det, img))
  }

  /** A poll that finds a frame clears the slot in the same step, sends that
      same frame to both services and to nothing else, and publishes exactly
      one result, after both results are in, pairing the hands service's
      hands and the pose service's pose with the frame's sequence number. */
  lemma TickDispatchesTakenFrame(d: Dispatcher, det: Detectors)
    requires d.slot.Some?
    ensures var o := Tick(d, det);
      && o.next.slot.None?
      && (forall a :: a in o.actions && a.SendGoal? ==> a.image == d.slot.value)
      && SendGoal(HandsModel, d.slot.value) in o.actions
      && SendGoal(PoseModel, d.slot.value) in o.actions
      && PublishesAfterBothResults(o.actions)
      && |Published(o.actions)| == 1
      && var r := Published(o.actions)[0];
         r.hands == det.hands(d.slot.value) && r.pose == det.pose(d.slot.value)
         && r.imageSeq == d.slot.value.header.sequence
  {
    var img := d.slot.value;
    var actions := Round(det, img);
    assert actions[2] == AwaitResult(HandsModel) && actions[3] == AwaitResult(PoseModel);
    PublishedOfRound(det, img);
  }

  function StepOn(d: Dispatcher, input: Input, det: Detectors): Outcome
  {
    match input
    case Arrival(img) => Outcome(ImageCallback(d, img), [])
    case Poll => Tick(d, det)
  }

  /** A sequence of callbacks and polls, actions concatenated. */
  function Run(d: Dispatcher, inputs: seq<Input>, det: Detectors): Outcome
    decreases |inputs|
  {
    if |inputs| == 0 then Outcome(d, [])
    else
      var first := StepOn(d, inputs[0], det);
      var rest := Run(first.next, inputs[1..], det);
      Outcome(rest.next, first.actions + rest.actions)
  }

  /** The frames that reach the services: exactly the arrivals immediately
      followed by a poll, in arrival order. */
  function Survivors(inputs: seq<Input>): seq<Image>
    decreases |inputs|
  {
    if |inputs| < 2 then []
    else (if inputs[0].Arrival? && inputs[1].Poll? then [inputs[0].frame] else []) + Survivors(inputs[1..])
  }

  function Rounds(det: Detectors, frames: seq<Image>): seq<Action>
    decreases |frames|
  {
    if |frames| == 0 then [] else Round(det, frames[0]) + Rounds(det, frames[1..])
  }

  lemma RoundsCons(det: Detectors, f: Image, rest: seq<Image>)
    ensures Rounds(det, [f] + rest) == Round(det, f) + Rounds(det, rest)
  {
    assert ([f] + rest)[1..] == rest;
  }

  /** An arrival passes its frame on exactly when a poll follows it. */
  lemma SurvivorsAfterArrival(f: Image, tail: seq<Input>, det: Detectors)
    ensures Rounds(det, Survivors([Arrival(f)] + tail))
         == (if |tail| > 0 && tail[0].Poll? then Round(det, f) else []) + Rounds(det, Survivors(tail))
  {
    var inputs := [Arrival(f)] + tail;
    assert inputs[1..] == tail;
    if |tail| == 0 {
      assert Survivors(inputs) == [];
    } else if tail[0].Poll? {
      assert Survivors(inputs) == [f] + Survivors(tail);
      RoundsCons(det, f, Survivors(tail));
    } else {
      assert Survivors(inputs) == Survivors(tail);
    }
  }

  lemma SurvivorsAfterPoll(tail: seq<Input>)
    ensures Survivors([Poll] + tail) == Survivors(tail)
  {
    assert ([Poll] + tail)[1..] == tail;
  }

  /** Running from a state: a frame already in the slot is dispatched if the
      first input is a poll; after that, exactly the survivors are
      dispatched, each once, in order. */
  lemma {:induction false} RunDispatchesSurvivors(d: Dispatcher, inputs: seq<Input>, det: Detectors)
    ensures Run(d, inputs, det).actions ==
      (if d.slot.Some? && |inputs| > 0 && inputs[0].Poll? then Round(det, d.slot.value) else [])
      + Rounds(det, Survivors(inputs))
    decreases |inputs|
  {
    if |inputs| > 0 {
      var first := StepOn(d, inputs[0], det);
      var tail := inputs[1..];
      var rest := Run(first.next, tail, det);
      assert Run(d, inputs, det).actions == first.actions + rest.actions;
      RunDispatchesSurvivors(first.next, tail, det);
      assert inputs == [inputs[0]] + tail;
      match inputs[0]
      case Arrival(f) =>
        assert first == Outcome(Dispatcher(Some(f)), []);
        SurvivorsAfterArrival(f, tail, det);
        assert rest.actions == Rounds(det, Survivors(inputs));
      case Poll =>
        assert first.next.slot.None?;
        assert rest.actions == Rounds(det, Survivors(tail));
        SurvivorsAfterPoll(tail);
        assert first.actions == if d.slot.Some? then Round(det, d.slot.value) else [];
    }
  }

  /** From the initial state, the published results are those of the survivors. */
  lemma RunFromInitial(inputs: seq<Input>, det: Detectors)
    ensures Run(Initial, inputs, det).actions == Rounds(det, Survivors(inputs))
  {
    RunDispatchesSurvivors(Initial, inputs, det);
  }

  lemma {:induction false} RunAppend(d: Dispatcher, a: seq<Input>, b: seq<Input>, det: Detectors)
    ensures Run(d, a + b, det).next == Run(Run(d, a, det).next, b, det).next
    ensures Run(d, a + b, det).actions == Run(d, a, det).actions + Run(Run(d, a, det).next, b, det).actions
    decreases |a|
  {
    if |a| == 0 {
      assert a + b == b;
    } else {
      var first := StepOn(d, a[0], det);
      assert (a + b)[0] == a[0];
      assert (a + b)[1..] == a[1..] + b;
      RunAppend(first.next, a[1..], b, det);
      var ra := Run(first.next, a[1..], det);
      var rb := Run(ra.next, b, det);
      assert Run(d, a, det).next == ra.next;
      assert Run(d, a, det).actions == first.actions + ra.actions;
      assert Run(d, a + b, det).actions == first.actions + (ra.actions + rb.actions);
    }
  }

  /** A frame followed directly by another arrival never reaches the services
      or the results topic: removing it changes nothing. */
  lemma OverwrittenFrameIsLost(d: Dispatcher, pre: seq<Input>, a: Image, b: Image, post: seq<Input>, det: Detectors)
    ensures Run(d, pre + [Arrival(a), Arrival(b)] + post, det) == Run(d, pre + [Arrival(b)] + post, det)
  {
    RunAppend(d, pre + [Arrival(a), Arrival(b)], post, det);
    RunAppend(d, pre, [Arrival(a), Arrival(b)], det);
    RunAppend(d, pre + [Arrival(b)], post, det);
    RunAppend(d, pre, [Arrival(b)], det);
    assert [Arrival(a), Arrival(b)][1..] == [Arrival(b)];
  }

  /** A poll right after a poll finds the slot empty: it is a no-op. */
  lemma RepeatedPollIsIdle(d: Dispatcher, pre: seq<Input>, post: seq<Input>, det: Detectors)
    ensures Run(d, pre + [Poll, Poll] + post, det) == Run(d, pre + [Poll] + post, det)
  {
    RunAppend(d, pre + [Poll, Poll], post, det);
    RunAppend(d, pre, [Poll, Poll], det);
    RunAppend(d, pre + [Poll], post, det);
    RunAppend(d, pre, [Poll], det);
    assert [Poll, Poll][1..] == [Poll];
  }

  /** A frame handed to an empty slot and polled once is published as exactly
      its own paired result, and the slot is empty again. */
  lemma TickAfterCallback(d: Dispatcher, img: Image, det: Detectors)
    ensures Tick(ImageCallback(d, img), det) == Outcome(Initial, Round(det, img))
    ensures Published(Tick(ImageCallback(d, img), det).actions) == [Annotate(det, img)]
  {
    PublishedOfRound(det, img);
  }
}
