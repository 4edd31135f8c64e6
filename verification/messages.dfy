/** The ROS messages exchanged by the two nodes, reduced to the fields the
    nodes read. Landmark coordinates are carried as opaque values: nothing
    in the model computes with them. */
module Messages {
  import opened Wrappers

  type uint8 = x: int | 0 <= x < 0x100
  type uint32 = x: int | 0 <= x < 0x1_0000_0000

  /** `std_msgs/Header.stamp`. */
  datatype Time = Time(secs: uint32, nsecs: uint32)

  /** `std_msgs/Header`; `sequence` is the message field `seq`. */
  datatype Header = Header(sequence: uint32, stamp: Time)

  /** `sensor_msgs/Image`; everything but the header is the opaque payload. */
  datatype Image = Image(header: Header, payload: seq<uint8>)

  /** `geometry_msgs/Point`. */
  datatype Point = Point(x: real, y: real, z: real)

  /** One detected hand; `handedness` is the `std_msgs/String` payload. */
  datatype Hand = Hand(handedness: string, landmarks: seq<Point>, worldLandmarks: seq<Point>)

  /** One detected body pose. */
  datatype Pose = Pose(landmarks: seq<Point>, worldLandmarks: seq<Point>)

  /** `MpResults`: the paired detections for one frame, tagged with the frame's header sequence number. */
  datatype MpResults = MpResults(hands: seq<Hand>, pose: Option<Pose>, imageSeq: uint32)
}
