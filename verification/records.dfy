/** The per-frame record the replay node builds from an `MpResults` message
    before appending it to the session's data, and a decoder that reads such a
    record back, as a consumer of the written JSON would. */
module Records {
  import opened Wrappers
  import opened Messages
  import opened JsonValues

  /** What a record carries: the message without its `imageSeq` tag. */
  datatype Annotation = Annotation(hands: seq<Hand>, pose: Option<Pose>)

  // ---- building a record ---------------------------------------------------

  /** `[p.x, p.y, p.z]` */
  function PointJson(p: Point): Json
  {
    JArray([JNumber(p.x), JNumber(p.y), JNumber(p.z)])
  }

  /** `[[p.x, p.y, p.z] for p in ps]` */
  function PointsJson(ps: seq<Point>): Json
  {
    JArray(PointItems(ps))
  }

  function PointItems(ps: seq<Point>): seq<Json>
    decreases |ps|
  {
    if |ps| == 0 then [] else [PointJson(ps[0])] + PointItems(ps[1..])
  }

  /** The dict built for one hand. */
  function HandJson(h: Hand): Json
  {
    JObject([("handedness", JString(h.handedness)),
             ("hand_landmarks", PointsJson(h.landmarks)),
             ("hand_world_landmarks", PointsJson(h.worldLandmarks))])
  }

  function HandItems(hs: seq<Hand>): seq<Json>
    decreases |hs|
  {
    if |hs| == 0 then [] else [HandJson(hs[0])] + HandItems(hs[1..])
  }

  /** The pose entry: a dict when a pose was detected, `None` (JSON null) otherwise. */
  function PoseJson(pose: Option<Pose>): (j: Json)
    ensures j == JNull <==> pose.None?
    ensures pose.Some? ==> j.JObject? && |j.members| == 2
  {
    match pose
    case None => JNull
    case Some(p) =>
      JObject([("pose_landmarks", PointsJson(p.landmarks)),
               ("pose_world_landmarks", PointsJson(p.worldLandmarks))])
  }

  /** The record `{'hands': ..., 'pose': ...}` for one results message. An
      absent pose is stored as null, a present one never is, and there is one
      hand entry per detected hand. */
  function Record(msg: MpResults): (j: Json)
    ensures j.JObject?
    ensures Get(j.members, "pose") == Some(JNull) <==> msg.pose.None?
    ensures Get(j.members, "hands").Some? && Get(j.members, "hands").value.JArray?
    ensures |Get(j.members, "hands").value.items| == |msg.hands|
  {
    HandItemsLength(msg.hands);
    var members := [("hands", JArray(HandItems(msg.hands))), ("pose", PoseJson(msg.pose))];
    GetUnique(members, 0, "hands");
    GetUnique(members, 1, "pose");
    JObject(members)
  }

  lemma {:induction false} HandItemsLength(hs: seq<Hand>)
    ensures |HandItems(hs)| == |hs|
    decreases |hs|
  {
    if |hs| > 0 {
      HandItemsLength(hs[1..]);
    }
  }

  // ---- reading a record back -----------------------------------------------

  function DecodePoint(j: Json): Option<Point>
  {
    if j.JArray? && |j.items| == 3 && j.items[0].JNumber? && j.items[1].JNumber? && j.items[2].JNumber?
    then Some(Point(j.items[0].n, j.items[1].n, j.items[2].n))
    else None
  }

  function DecodePointItems(items: seq<Json>): Option<seq<Point>>
    decreases |items|
  {
    if |items| == 0 then Some([])
    else
      match (DecodePoint(items[0]), DecodePointItems(items[1..]))
      case (Some(p), Some(ps)) => Some([p] + ps)
      case _ => None
  }

  function DecodePoints(j: Json): Option<seq<Point>>
  {
    if j.JArray? then DecodePointItems(j.items) else None
  }

  function DecodeHand(j: Json): Option<Hand>
  {
    if !j.JObject? then None
    else
      match (Get(j.members, "handedness"), Get(j.members, "hand_landmarks"), Get(j.members, "hand_world_landmarks"))
      case (Some(JString(side)), Some(lm), Some(wlm)) =>
        (match (DecodePoints(lm), DecodePoints(wlm))
         case (Some(ps), Some(ws)) => Some(Hand(side, ps, ws))
         case _ => None)
      case _ => None
  }

  function DecodeHandItems(items: seq<Json>): Option<seq<Hand>>
    decreases |items|
  {
    if |items| == 0 then Some([])
    else
      match (DecodeHand(items[0]), DecodeHandItems(items[1..]))
      case (Some(h), Some(hs)) => Some([h] + hs)
      case _ => None
  }

  /** Null reads back as "no pose"; only a well-formed dict reads back as a pose. */
  function DecodePose(j: Json): Option<Option<Pose>>
  {
    if j.JNull? then Some(None)
    else if !j.JObject? then None
    else
      match (Get(j.members, "pose_landmarks"), Get(j.members, "pose_world_landmarks"))
      case (Some(lm), Some(wlm)) =>
        (match (DecodePoints(lm), DecodePoints(wlm))
         case (Some(ps), Some(ws)) => Some(Some(Pose(ps, ws)))
         case _ => None)
      case _ => None
  }

  function DecodeRecord(j: Json): Option<Annotation>
  {
    if !j.JObject? then None
    else
      match (Get(j.members, "hands"), Get(j.members, "pose"))
      case (Some(JArray(items)), Some(p)) =>
        (match (DecodeHandItems(items), DecodePose(p))
         case (Some(hs), Some(pose)) => Some(Annotation(hs, pose))
         case _ => None)
      case _ => None
  }

  // ---- round trip ----------------------------------------------------------

  lemma {:induction false} PointsRoundTrip(ps: seq<Point>)
    ensures DecodePoints(PointsJson(ps)) == Some(ps)
    decreases |ps|
  {
    if |ps| > 0 {
      PointsRoundTrip(ps[1..]);
      assert PointItems(ps)[1..] == PointItems(ps[1..]);
      assert ps == [ps[0]] + ps[1..];
    }
  }

  lemma HandRoundTrip(h: Hand)
    ensures DecodeHand(HandJson(h)) == Some(h)
  {
    PointsRoundTrip(h.landmarks);
    PointsRoundTrip(h.worldLandmarks);
    var m := HandJson(h).members;
    GetUnique(m, 0, "handedness");
    GetUnique(m, 1, "hand_landmarks");
    GetUnique(m, 2, "hand_world_landmarks");
  }

  lemma {:induction false} HandsRoundTrip(hs: seq<Hand>)
    ensures DecodeHandItems(HandItems(hs)) == Some(hs)
    decreases |hs|
  {
    if |hs| > 0 {
      HandRoundTrip(hs[0]);
      HandsRoundTrip(hs[1..]);
      assert HandItems(hs)[1..] == HandItems(hs[1..]);
      assert hs == [hs[0]] + hs[1..];
    }
  }

  lemma PoseRoundTrip(pose: Option<Pose>)
    ensures DecodePose(PoseJson(pose)) == Some(pose)
  {
    if pose.Some? {
      var p := pose.value;
      PointsRoundTrip(p.landmarks);
      PointsRoundTrip(p.worldLandmarks);
      var m := PoseJson(pose).members;
      GetUnique(m, 0, "pose_landmarks");
      GetUnique(m, 1, "pose_world_landmarks");
    }
  }

  /** Reading a record back recovers every hand, in order, with its handedness
      and both landmark lists, and the pose exactly: an absent pose comes back
      absent and a present one, even with no landmarks, comes back present. */
  lemma {:induction false} RecordRoundTrip(msg: MpResults)
    ensures DecodeRecord(Record(msg)) == Some(Annotation(msg.hands, msg.pose))
  {
    HandsRoundTrip(msg.hands);
    PoseRoundTrip(msg.pose);
    var m := Record(msg).members;
    GetUnique(m, 0, "hands");
    GetUnique(m, 1, "pose");
  }
}
