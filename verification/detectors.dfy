/**
 * The ten detector functions of main.js:168-291. Each is a read-only test of
 * one frame's keypoints against fixed thresholds; two of them also read the
 * exam session. None of them consults a point's visibility.
 */
module Detectors {
  import opened Wrappers
  import opened Landmarks
  import opened Session
  import opened Behaviors

  /**
   * `Math.atan2(y, x) * 180 / Math.PI`: the angle of the vector (x, y) in
   * degrees. It is transcendental, so the model takes it as a parameter and
   * assumes nothing about it.
   */
  type Atan2Degrees = (real, real) -> real

  function Abs(x: real): (r: real)
    ensures r >= 0.0 && (r == x || r == -x)
  {
    if x < 0.0 then -x else x
  }

  /**
   * The `for (let hand of handLandmarks)` loops with an early `return true`:
   * true when some hand passes the test.
   */
  function AnyHand(hands: seq<Hand>, test: Hand -> bool): (r: bool)
    ensures r <==> exists i :: 0 <= i < |hands| && test(hands[i])
  {
    if hands == [] then false
    else if test(hands[0]) then true
    else
      var rest := AnyHand(hands[1..], test);
      assert rest ==> exists i :: 0 <= i < |hands| && test(hands[i]) by {
        if rest {
          var j :| 0 <= j < |hands| - 1 && test(hands[1..][j]);
          assert test(hands[j + 1]);
        }
      }
      rest
  }

  /** Index and middle fingertips above their middle knuckles (smaller y is higher). */
  predicate FingersExtended(h: Hand)
  {
    h[IndexTip].y < h[IndexPip].y && h[MiddleTip].y < h[MiddlePip].y
  }

  /** Index and middle fingertips below their middle knuckles: a curled hand. */
  predicate FingersCurled(h: Hand)
  {
    h[IndexTip].y > h[IndexPip].y && h[MiddleTip].y > h[MiddlePip].y
  }

  /** Thumb tip above its joint and index tip above its knuckle. */
  predicate PhoneGrip(h: Hand)
  {
    h[ThumbTip].y < h[ThumbIp].y && h[IndexTip].y < h[IndexPip].y
  }

  function AvgHipY(p: Pose): real { (p[LeftHip].y + p[RightHip].y) / 2.0 }
  function AvgKneeY(p: Pose): real { (p[LeftKnee].y + p[RightKnee].y) / 2.0 }
  function AvgShoulderX(p: Pose): real { (p[LeftShoulder].x + p[RightShoulder].x) / 2.0 }

  /** `detectPreAnswering` (main.js:168-179). */
  function DetectPreAnswering(phase: Phase, hands: seq<Hand>): (r: bool)
    ensures r <==> !phase.isExamActive && phase.examStartTime.None?
                   && exists i :: 0 <= i < |hands| && FingersExtended(hands[i])
  {
    !phase.isExamActive && phase.examStartTime.None? && |hands| > 0 && AnyHand(hands, FingersExtended)
  }

  /** `detectHeadTilt` (main.js:181-188): the ear line is more than 15 degrees off horizontal. */
  function DetectHeadTilt(pose: Option<Pose>, atan2Degrees: Atan2Degrees): (r: bool)
    ensures pose.None? ==> !r
    ensures pose.Some? ==>
      var p := pose.value;
      (r <==> Abs(atan2Degrees(p[LeftEar].y - p[RightEar].y, p[LeftEar].x - p[RightEar].x)) > 15.0)
  {
    match pose
    case None => false
    case Some(p) =>
      Abs(atan2Degrees(p[LeftEar].y - p[RightEar].y, p[LeftEar].x - p[RightEar].x)) > 15.0
  }

  /** `detectStandingUp` (main.js:190-199): hips more than 0.1 below the knees on average. */
  function DetectStandingUp(pose: Option<Pose>): (r: bool)
    ensures r <==> pose.Some?
                   && pose.value[LeftHip].y + pose.value[RightHip].y
                      > pose.value[LeftKnee].y + pose.value[RightKnee].y + 0.2
  {
    pose.Some? && AvgHipY(pose.value) - AvgKneeY(pose.value) > 0.1
  }

  /** `detectPassingObjects` (main.js:201-212): a wrist more than 0.3 sideways from either shoulder. */
  function DetectPassingObjects(pose: Option<Pose>, hands: seq<Hand>): (r: bool)
    ensures r <==> pose.Some? && exists i :: 0 <= i < |hands| &&
                                       (Abs(hands[i][Wrist].x - pose.value[LeftShoulder].x) > 0.3 ||
                                        Abs(hands[i][Wrist].x - pose.value[RightShoulder].x) > 0.3)
  {
    match pose
    case None => false
    case Some(p) =>
      AnyHand(hands, (h: Hand) => Abs(h[Wrist].x - p[LeftShoulder].x) > 0.3 || Abs(h[Wrist].x - p[RightShoulder].x) > 0.3)
  }

  /**
   * `detectSuspiciousObjects` (main.js:214-226): a curled hand whose wrist is
   * below the left shoulder and within 0.2 of it sideways.
   */
  function DetectSuspiciousObjects(pose: Option<Pose>, hands: seq<Hand>): (r: bool)
    ensures r <==> pose.Some? && exists i :: 0 <= i < |hands| &&
                                       FingersCurled(hands[i]) &&
                                       hands[i][Wrist].y > pose.value[LeftShoulder].y &&
                                       Abs(hands[i][Wrist].x - pose.value[LeftShoulder].x) < 0.2
  {
    match pose
    case None => false
    case Some(p) =>
      AnyHand(hands, (h: Hand) => FingersCurled(h) && h[Wrist].y > p[LeftShoulder].y && Abs(h[Wrist].x - p[LeftShoulder].x) < 0.2)
  }

  /** `detectHandsUnderTable` (main.js:228-238): a wrist more than 0.1 below the average hip. */
  function DetectHandsUnderTable(pose: Option<Pose>, hands: seq<Hand>): (r: bool)
    ensures r <==> pose.Some? && exists i :: 0 <= i < |hands| &&
                                       2.0 * hands[i][Wrist].y > pose.value[LeftHip].y + pose.value[RightHip].y + 0.2
  {
    match pose
    case None => false
    case Some(p) => AnyHand(hands, (h: Hand) => h[Wrist].y > AvgHipY(p) + 0.1)
  }

  /**
   * `detectLeavingRoom` (main.js:240-247): the shoulders' midpoint outside
   * [0.1, 0.9] or the nose outside [0.05, 0.95] horizontally.
   */
  function DetectLeavingRoom(pose: Option<Pose>): (r: bool)
    ensures pose.None? ==> !r
    ensures pose.Some? ==>
      var p := pose.value;
      (!r <==> 0.2 <= p[LeftShoulder].x + p[RightShoulder].x <= 1.8 && 0.05 <= p[Nose].x <= 0.95)
  {
    match pose
    case None => false
    case Some(p) =>
      AvgShoulderX(p) < 0.1 || AvgShoulderX(p) > 0.9 || p[Nose].x < 0.05 || p[Nose].x > 0.95
  }

  /** `detectRaisingHand` (main.js:249-257): a wrist more than 0.1 above the left shoulder. */
  function DetectRaisingHand(pose: Option<Pose>, hands: seq<Hand>): (r: bool)
    ensures r <==> pose.Some? && exists i :: 0 <= i < |hands| &&
                                       hands[i][Wrist].y + 0.1 < pose.value[LeftShoulder].y
  {
    match pose
    case None => false
    case Some(p) => AnyHand(hands, (h: Hand) => h[Wrist].y < p[LeftShoulder].y - 0.1)
  }

  /**
   * The per-hand test of `detectSmartphoneUsage` (main.js:264-275): wrist in
   * front of the left shoulder, at chest level, within reach, thumb and index
   * extended, and the head bowed.
   */
  predicate HoldsPhone(p: Pose, h: Hand)
  {
    var shoulder := p[LeftShoulder];
    var wrist := h[Wrist];
    wrist.z < shoulder.z
    && wrist.y > shoulder.y - 0.2 && wrist.y < shoulder.y + 0.3
    && Abs(wrist.x - shoulder.x) < 0.4
    && PhoneGrip(h)
    && p[Nose].y > shoulder.y + 0.1
  }

  /** `detectSmartphoneUsage` (main.js:259-278). */
  function DetectSmartphoneUsage(pose: Option<Pose>, hands: seq<Hand>): (r: bool)
    ensures r ==> pose.Some? && pose.value[Nose].y > pose.value[LeftShoulder].y + 0.1
    ensures r <==> pose.Some? && exists i :: 0 <= i < |hands| && HoldsPhone(pose.value, hands[i])
  {
    match pose
    case None => false
    case Some(p) => AnyHand(hands, (h: Hand) => HoldsPhone(p, h))
  }

  /** `detectWritingAfterExam` (main.js:280-291). */
  function DetectWritingAfterExam(phase: Phase, hands: seq<Hand>): (r: bool)
    ensures r <==> !phase.isExamActive && phase.examEndTime.Some?
                   && exists i :: 0 <= i < |hands| && FingersExtended(hands[i])
  {
    !phase.isExamActive && phase.examEndTime.Some? && |hands| > 0 && AnyHand(hands, FingersExtended)
  }

  /** Whether the detector of kind `k` reports its behaviour in this frame. */
  function Detect(k: BehaviorKind, pose: Option<Pose>, hands: seq<Hand>, phase: Phase, atan2Degrees: Atan2Degrees): (r: bool)
    ensures pose.None? && k != PreAnswering && k != WritingAfterExam ==> !r
    ensures hands == [] && k !in {HeadTilt, StandingUp, LeavingRoom} ==> !r
    ensures phase.isExamActive && (k == PreAnswering || k == WritingAfterExam) ==> !r
    ensures k == PreAnswering && r ==> phase.examStartTime.None?
    ensures k == WritingAfterExam && r ==> phase.examEndTime.Some?
  {
    match k
    case PreAnswering => DetectPreAnswering(phase, hands)
    case HeadTilt => DetectHeadTilt(pose, atan2Degrees)
    case StandingUp => DetectStandingUp(pose)
    case PassingObjects => DetectPassingObjects(pose, hands)
    case SuspiciousObjects => DetectSuspiciousObjects(pose, hands)
    case HandsUnderTable => DetectHandsUnderTable(pose, hands)
    case LeavingRoom => DetectLeavingRoom(pose)
    case RaisingHand => DetectRaisingHand(pose, hands)
    case SmartphoneUsage => DetectSmartphoneUsage(pose, hands)
    case WritingAfterExam => DetectWritingAfterExam(phase, hands)
  }

  /** The ten detector outcomes for one frame, on the intended hand list. */
  function Candidates(frame: Results, phase: Phase, atan2Degrees: Atan2Degrees): (c: BehaviorKind -> bool)
    ensures phase.isExamActive ==> !c(PreAnswering) && !c(WritingAfterExam)
    ensures c(PreAnswering) ==> phase.examStartTime.None?
    ensures c(WritingAfterExam) ==> phase.examEndTime.Some?
    ensures frame.pose.None? ==>
      forall k :: k != PreAnswering && k != WritingAfterExam ==> !c(k)
    ensures frame.leftHand.None? && frame.rightHand.None? ==>
      forall k :: k !in {HeadTilt, StandingUp, LeavingRoom} ==> !c(k)
  {
    k => Detect(k, frame.pose, Hands(frame), phase, atan2Degrees)
  }

  /**
   * The right hand is lost as written: a frame whose only hand is a right hand
   * raised above the left shoulder is a raised hand for the intended hand list,
   * but the hand list as main.js:445 builds it throws before any detector runs.
   */
  lemma RaisedRightHandLostAsWritten(p: Pose, h: Hand, phase: Phase, atan2Degrees: Atan2Degrees)
    requires h[Wrist].y + 0.1 < p[LeftShoulder].y
    ensures var frame := Results(Some(p), None, Some(h));
      HandsAsWritten(frame).Failure? && Candidates(frame, phase, atan2Degrees)(BehaviorKind.RaisingHand)
  {
  }
}
