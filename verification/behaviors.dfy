/** The ten behaviours `onResults` watches (the keys of `detectedBehaviors`, main.js:30-41). */
module Behaviors {
  datatype BehaviorKind =
    | PreAnswering
    | HeadTilt
    | StandingUp
    | PassingObjects
    | SuspiciousObjects
    | HandsUnderTable
    | LeavingRoom
    | RaisingHand
    | SmartphoneUsage
    | WritingAfterExam

  /** The kinds in the order of the ten blocks of `onResults` (main.js:453-561). */
  const AllKinds: seq<BehaviorKind> := [
    PreAnswering, HeadTilt, StandingUp, PassingObjects, SuspiciousObjects,
    HandsUnderTable, LeavingRoom, RaisingHand, SmartphoneUsage, WritingAfterExam
  ]

  predicate Distinct(kinds: seq<BehaviorKind>)
  {
    forall i, j :: 0 <= i < j < |kinds| ==> kinds[i] != kinds[j]
  }

  /** The name each block hands to `logBehavior`: a non-empty lower-case snake_case word. */
  function LogName(k: BehaviorKind): (name: string)
    ensures |name| > 0 && ' ' !in name
  {
    match k
    case PreAnswering => "pre_answering_before_exam_starts"
    case HeadTilt => "head_tilt_detected"
    case StandingUp => "candidate_standing_up"
    case PassingObjects => "passing_or_picking_up_objects"
    case SuspiciousObjects => "carrying_or_hiding_suspicious_objects"
    case HandsUnderTable => "hands_under_table_looking_down"
    case LeavingRoom => "entering_leaving_room"
    case RaisingHand => "raising_hand"
    case SmartphoneUsage => "smartphone_usage_detected"
    case WritingAfterExam => "writing_after_exam_ends"
  }

  /** Every kind has exactly one block, and the blocks are listed once each. */
  lemma AllKindsExact(k: BehaviorKind)
    ensures k in AllKinds
    ensures |AllKinds| == 10
    ensures Distinct(AllKinds)
  {
  }

  /** Distinct behaviours are logged under distinct names. */
  lemma LogNamesDistinct(k1: BehaviorKind, k2: BehaviorKind)
    ensures LogName(k1) == LogName(k2) ==> k1 == k2
  {
  }
}
