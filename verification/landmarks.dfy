/**
 * One frame of keypoints as the landmark estimator delivers it to `onResults`
 * (main.js:436-445): an optional body pose of 33 points and an optional left
 * and right hand of 21 points each.
 */
module Landmarks {
  import opened Wrappers

  /** A keypoint: normalised image coordinates (y grows downwards), a depth proxy and a confidence. */
  datatype Point = Point(x: real, y: real, z: real, visibility: real)

  const PoseSize: nat := 33
  const HandSize: nat := 21

  type Pose = p: seq<Point> | |p| == PoseSize witness seq(33, _ => Point(0.0, 0.0, 0.0, 0.0))
  type Hand = h: seq<Point> | |h| == HandSize witness seq(21, _ => Point(0.0, 0.0, 0.0, 0.0))

  // Pose indices read by the detectors, named as the source names them.
  const Nose: nat := 0
  const LeftEar: nat := 3
  const RightEar: nat := 4
  const LeftShoulder: nat := 11
  const RightShoulder: nat := 12
  const LeftHip: nat := 23
  const RightHip: nat := 24
  const LeftKnee: nat := 25
  const RightKnee: nat := 26

  // Hand indices read by the detectors.
  const Wrist: nat := 0
  const ThumbIp: nat := 3
  const ThumbTip: nat := 4
  const IndexPip: nat := 6
  const IndexTip: nat := 8
  const MiddlePip: nat := 10
  const MiddleTip: nat := 12

  /** What the estimator reports for one frame; each part may be missing. */
  datatype Results = Results(pose: Option<Pose>, leftHand: Option<Hand>, rightHand: Option<Hand>)

  /** The error the source raises at main.js:445. */
  datatype FrameError = ReferenceError(name: string)

  /**
   * The hand list as intended: the left hand if present, then the right hand
   * if present.
   */
  function Hands(r: Results): (hands: seq<Hand>)
    ensures |hands| == (if r.leftHand.Some? then 1 else 0) + (if r.rightHand.Some? then 1 else 0)
    ensures r.leftHand.Some? ==> hands[0] == r.leftHand.value
    ensures r.rightHand.Some? ==> hands[|hands| - 1] == r.rightHand.value
    ensures forall i :: 0 <= i < |hands| ==> Some(hands[i]) in [r.leftHand, r.rightHand]
  {
    (if r.leftHand.Some? then [r.leftHand.value] else [])
      + (if r.rightHand.Some? then [r.rightHand.value] else [])
  }

  /**
   * The hand list as main.js:442-445 builds it: the right hand is pushed
   * through the undeclared name `rightHandmarks`, so any frame with a right
   * hand throws before a single detector runs.
   */
  function HandsAsWritten(r: Results): (res: Result<seq<Hand>, FrameError>)
    ensures res.Failure? <==> r.rightHand.Some?
    ensures res.Success? ==> res.value == Hands(r)
  {
    if r.rightHand.Some? then Failure(ReferenceError("rightHandmarks"))
    else Success(if r.leftHand.Some? then [r.leftHand.value] else [])
  }
}
