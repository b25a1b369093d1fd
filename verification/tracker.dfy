/**
 * The behaviour tracker: the two dictionaries `detectedBehaviors` and
 * `lastDetectionTime` (main.js:26-41) and the per-frame pass of `onResults`
 * (main.js:436-564) that runs the ten detectors, applies the debounce rule to
 * each behaviour in turn and logs one alert per firing (`logBehavior`,
 * main.js:294-309).
 */
module Tracker {
  import opened Wrappers
  import opened Behaviors
  import opened Landmarks
  import opened Session
  import opened Detectors
  import opened Debounce

  /** The entries of every behaviour, keyed by kind. */
  type Slots = map<BehaviorKind, Slot>

  /** The detectors' outcomes for one frame and its clock reading. */
  datatype Tick = Tick(candidates: BehaviorKind -> bool, now: int)

  /** The log entry of `logBehavior`; its ISO time stamp and console output are not modelled. */
  datatype Alert = Alert(behavior: string, confidence: real, examActive: bool, examTime: real)

  /** The alert `logBehavior(LogName(k))` writes, with its default confidence of 1.0. */
  function AlertFor(k: BehaviorKind, phase: Phase, now: int): (a: Alert)
    ensures a.behavior == LogName(k) && a.confidence == 1.0 && a.examActive == phase.isExamActive
    ensures a.examTime == ExamTime(phase, now)
    ensures phase.examStartTime.None? ==> a.examTime == 0.0
    ensures phase.examStartTime.Some? && phase.examStartTime.value != 0
        ==> a.examTime * 1000.0 == (now - phase.examStartTime.value) as real
  {
    Alert(LogName(k), 1.0, phase.isExamActive, ExamTime(phase, now))
  }

  /** An alert names exactly one behaviour: distinct kinds give distinct alerts. */
  lemma AlertNamesBehavior(k1: BehaviorKind, k2: BehaviorKind, phase: Phase, now: int)
    ensures AlertFor(k1, phase, now).behavior == AlertFor(k2, phase, now).behavior ==> k1 == k2
  {
    LogNamesDistinct(k1, k2);
  }

  function AlertsFor(ks: seq<BehaviorKind>, phase: Phase, now: int): (alerts: seq<Alert>)
    ensures |alerts| == |ks|
    ensures forall i :: 0 <= i < |ks| ==> alerts[i] == AlertFor(ks[i], phase, now)
  {
    seq(|ks|, i requires 0 <= i < |ks| => AlertFor(ks[i], phase, now))
  }

  /** Every behaviour advanced on its own detector's outcome. */
  function StepSlots(slots: Slots, candidates: BehaviorKind -> bool, now: int): Slots
  {
    map k | k in slots :: Advance(slots[k], candidates(k), now).next
  }

  /** The kinds among `kinds` that fire in this frame, in the order given. */
  function FiredAmong(slots: Slots, candidates: BehaviorKind -> bool, now: int, kinds: seq<BehaviorKind>): seq<BehaviorKind>
    requires forall i :: 0 <= i < |kinds| ==> kinds[i] in slots
  {
    if kinds == [] then []
    else
      var k := kinds[|kinds| - 1];
      FiredAmong(slots, candidates, now, kinds[..|kinds| - 1])
        + (if Advance(slots[k], candidates(k), now).fired then [k] else [])
  }

  /**
   * A kind is reported in a frame exactly when its own block fires, and no
   * kind is reported twice when the blocks are distinct.
   */
  lemma {:induction false} FiredAmongExact(slots: Slots, candidates: BehaviorKind -> bool, now: int, kinds: seq<BehaviorKind>)
    requires forall i :: 0 <= i < |kinds| ==> kinds[i] in slots
    ensures forall k :: k in FiredAmong(slots, candidates, now, kinds)
                    <==> k in kinds && Advance(slots[k], candidates(k), now).fired
    ensures Distinct(kinds) ==> Distinct(FiredAmong(slots, candidates, now, kinds))
  {
    if kinds != [] {
      var init := kinds[..|kinds| - 1];
      var k := kinds[|kinds| - 1];
      FiredAmongExact(slots, candidates, now, init);
      assert kinds == init + [k];
      if Distinct(kinds) {
        assert Distinct(init);
        assert k !in init;
      }
    }
  }

  /** The blocks for `kinds` run one after another, each on the entries the previous ones left. */
  function StepKinds(slots: Slots, candidates: BehaviorKind -> bool, now: int, kinds: seq<BehaviorKind>): (r: Slots)
    requires forall i :: 0 <= i < |kinds| ==> kinds[i] in slots
    ensures r.Keys == slots.Keys
  {
    if kinds == [] then slots
    else
      var s := StepKinds(slots, candidates, now, kinds[..|kinds| - 1]);
      var k := kinds[|kinds| - 1];
      s[k := Advance(s[k], candidates(k), now).next]
  }

  /**
   * Running the blocks one after another touches only their own kinds: each
   * kind in the list moves by its own rule from its own entry, every other
   * entry is unchanged.
   */
  lemma {:induction false} StepKindsAt(slots: Slots, candidates: BehaviorKind -> bool, now: int, kinds: seq<BehaviorKind>, k: BehaviorKind)
    requires forall i :: 0 <= i < |kinds| ==> kinds[i] in slots
    requires k in slots && Distinct(kinds)
    ensures StepKinds(slots, candidates, now, kinds)[k]
         == if k in kinds then Advance(slots[k], candidates(k), now).next else slots[k]
  {
    if kinds != [] {
      var init := kinds[..|kinds| - 1];
      var last := kinds[|kinds| - 1];
      assert kinds == init + [last];
      assert Distinct(init);
      StepKindsAt(slots, candidates, now, init, k);
      if k == last {
        assert k !in init;
        StepKindsAt(slots, candidates, now, init, last);
      }
    }
  }

  /**
   * Block `i` of `onResults` sees its behaviour's entry as the frame began,
   * because the blocks before it touch other behaviours only.
   */
  lemma NextBlock(slots: Slots, candidates: BehaviorKind -> bool, now: int, i: nat)
    requires forall k: BehaviorKind :: k in slots
    requires i < |AllKinds|
    ensures var k := AllKinds[i];
      var before := StepKinds(slots, candidates, now, AllKinds[..i]);
      before[k] == slots[k]
      && StepKinds(slots, candidates, now, AllKinds[..i + 1]) == before[k := Advance(slots[k], candidates(k), now).next]
      && FiredAmong(slots, candidates, now, AllKinds[..i + 1])
         == FiredAmong(slots, candidates, now, AllKinds[..i]) + (if Advance(slots[k], candidates(k), now).fired then [k] else [])
  {
    AllKindsExact(AllKinds[i]);
    assert AllKinds[..i + 1][..i] == AllKinds[..i];
    StepKindsAt(slots, candidates, now, AllKinds[..i], AllKinds[i]);
  }

  /** Running the ten blocks in order is the same as advancing every behaviour on its own. */
  lemma StepKindsCoversAll(slots: Slots, candidates: BehaviorKind -> bool, now: int)
    requires forall k: BehaviorKind :: k in slots
    ensures StepKinds(slots, candidates, now, AllKinds) == StepSlots(slots, candidates, now)
  {
    forall k: BehaviorKind ensures StepKinds(slots, candidates, now, AllKinds)[k] == StepSlots(slots, candidates, now)[k] {
      AllKindsExact(k);
      StepKindsAt(slots, candidates, now, AllKinds, k);
    }
  }

  /** The tracker's entries after a series of frames. */
  function RunSlots(slots: Slots, ticks: seq<Tick>): Slots
    decreases |ticks|
  {
    if ticks == [] then slots
    else RunSlots(StepSlots(slots, ticks[0].candidates, ticks[0].now), ticks[1..])
  }

  /** The frames as the one behaviour `k` sees them. */
  function Project(ticks: seq<Tick>, k: BehaviorKind): (obs: seq<Obs>)
    ensures |obs| == |ticks|
    ensures forall i :: 0 <= i < |ticks| ==> obs[i] == Obs(ticks[i].candidates(k), ticks[i].now)
  {
    seq(|ticks|, i requires 0 <= i < |ticks| => Obs(ticks[i].candidates(k), ticks[i].now))
  }

  /**
   * The ten trackers do not affect one another: over any series of frames,
   * a behaviour's entries depend only on its own detector's outcomes, exactly
   * as if it were tracked alone.
   */
  lemma {:induction false} TrackersIndependent(slots: Slots, ticks: seq<Tick>, k: BehaviorKind)
    requires k in slots
    ensures k in RunSlots(slots, ticks)
    ensures RunSlots(slots, ticks)[k] == Run(slots[k], Project(ticks, k)).final
    decreases |ticks|
  {
    if ticks != [] {
      var next := StepSlots(slots, ticks[0].candidates, ticks[0].now);
      TrackersIndependent(next, ticks[1..], k);
      assert Project(ticks[1..], k) == Project(ticks, k)[1..];
    }
  }

  /** The clock readings of the frames in which the tracker reports behaviour `k`. */
  function RunFired(slots: Slots, ticks: seq<Tick>, k: BehaviorKind): seq<int>
    requires forall j: BehaviorKind :: j in slots
    decreases |ticks|
  {
    if ticks == [] then []
    else
      var t := ticks[0];
      (if k in FiredAmong(slots, t.candidates, t.now, AllKinds) then [t.now] else [])
        + RunFired(StepSlots(slots, t.candidates, t.now), ticks[1..], k)
  }

  /**
   * The alerts the tracker logs for `k` over any series of frames are exactly
   * the firings of `k`'s own debounce run on its own detector's outcomes.
   */
  lemma {:induction false} AlertTimesIndependent(slots: Slots, ticks: seq<Tick>, k: BehaviorKind)
    requires forall j: BehaviorKind :: j in slots
    ensures RunFired(slots, ticks, k) == Run(slots[k], Project(ticks, k)).fires
    decreases |ticks|
  {
    if ticks != [] {
      var t := ticks[0];
      AllKindsExact(k);
      FiredAmongExact(slots, t.candidates, t.now, AllKinds);
      var next := StepSlots(slots, t.candidates, t.now);
      AlertTimesIndependent(next, ticks[1..], k);
      assert Project(ticks[1..], k) == Project(ticks, k)[1..];
    }
  }

  /**
   * Cooldown on the logged alerts: on a clock that only shows positive
   * times, any two alerts the tracker logs for one behaviour are more than
   * 2000 ms apart.
   */
  lemma LoggedAlertsSpaced(slots: Slots, ticks: seq<Tick>, k: BehaviorKind)
    requires forall j: BehaviorKind :: j in slots
    requires forall i :: 0 <= i < |ticks| ==> ticks[i].now > 0
    ensures var f := RunFired(slots, ticks, k);
      forall i, j :: 0 <= i < j < |f| ==> f[j] - f[i] > DetectionCooldown
  {
    AlertTimesIndependent(slots, ticks, k);
    FiresPairwiseSpaced(slots[k], Project(ticks, k));
  }

  /**
   * Session gating: while an exam is active, neither pre-answering nor
   * writing after the exam is reported, whatever the frame shows.
   */
  lemma ActiveExamSilencesGatedKinds(slots: Slots, frame: Results, phase: Phase, atan2Degrees: Atan2Degrees, now: int)
    requires forall i :: 0 <= i < |AllKinds| ==> AllKinds[i] in slots
    requires phase.isExamActive
    ensures var fired := FiredAmong(slots, Candidates(frame, phase, atan2Degrees), now, AllKinds);
      PreAnswering !in fired && WritingAfterExam !in fired
  {
    FiredAmongExact(slots, Candidates(frame, phase, atan2Degrees), now, AllKinds);
  }

  /**
   * Once any `startExam` has run, pre-answering is never reported again,
   * whatever commands follow: the start time is never cleared.
   */
  lemma NoPreAnsweringOnceStarted(slots: Slots, cmds: seq<Command>, frame: Results, atan2Degrees: Atan2Degrees, now: int)
    requires forall i :: 0 <= i < |AllKinds| ==> AllKinds[i] in slots
    requires exists i :: 0 <= i < |cmds| && cmds[i].Start?
    ensures var phase := ApplyAll(Initial, cmds);
      PreAnswering !in FiredAmong(slots, Candidates(frame, phase, atan2Degrees), now, AllKinds)
  {
    var phase := ApplyAll(Initial, cmds);
    StartTimeUnsetIffNeverStarted(Initial, cmds);
    FiredAmongExact(slots, Candidates(frame, phase, atan2Degrees), now, AllKinds);
  }

  /** The tracker state of `onResults`, updated in place frame by frame. */
  class BehaviorTracker {
    var detectedBehaviors: map<BehaviorKind, bool>
    var lastDetectionTime: map<BehaviorKind, int>

    /** Every behaviour has a flag (main.js:30-41). */
    ghost predicate Valid()
      reads this
    {
      forall k: BehaviorKind :: k in detectedBehaviors
    }

    /** The two dictionaries viewed as one entry per behaviour. */
    function Entries(): Slots
      reads this
    {
      map k | k in detectedBehaviors ::
        Slot(detectedBehaviors[k], if k in lastDetectionTime then Some(lastDetectionTime[k]) else None)
    }

    /** All flags false and no detection time recorded (main.js:26, main.js:30-41). */
    constructor ()
      ensures Valid()
      ensures forall k: BehaviorKind :: Entries()[k] == Fresh
    {
      detectedBehaviors := map k | k in AllKinds :: false;
      lastDetectionTime := map[];
      new;
      forall k: BehaviorKind ensures k in detectedBehaviors {
        AllKindsExact(k);
      }
    }

    /** One of the ten blocks of main.js:453-561, for behaviour `k`. */
    method Update(k: BehaviorKind, candidate: bool, now: int) returns (fired: bool)
      requires Valid()
      modifies this
      ensures Valid()
      ensures fired == Advance(old(Entries())[k], candidate, now).fired
      ensures Entries() == old(Entries())[k := Advance(old(Entries())[k], candidate, now).next]
    {
      if candidate {
        if !detectedBehaviors[k]
          && (k !in lastDetectionTime || lastDetectionTime[k] == 0 || now - lastDetectionTime[k] > DetectionCooldown)
        {
          detectedBehaviors := detectedBehaviors[k := true];
          lastDetectionTime := lastDetectionTime[k := now];
          fired := true;
        } else {
          fired := false;
        }
      } else {
        detectedBehaviors := detectedBehaviors[k := false];
        fired := false;
      }
    }

    /**
     * The ten blocks in order, on the detectors' outcomes for one frame:
     * every behaviour moves by its own rule and the fired kinds come out in
     * block order.
     */
    method Step(candidates: BehaviorKind -> bool, now: int) returns (fired: seq<BehaviorKind>)
      requires Valid()
      modifies this
      ensures Valid()
      ensures Entries() == StepSlots(old(Entries()), candidates, now)
      ensures fired == FiredAmong(old(Entries()), candidates, now, AllKinds)
    {
      AllKindsExact(PreAnswering);
      ghost var start := Entries();
      fired := [];
      var i := 0;
      while i < |AllKinds|
        invariant 0 <= i <= |AllKinds|
        invariant Valid()
        invariant Entries() == StepKinds(start, candidates, now, AllKinds[..i])
        invariant fired == FiredAmong(start, candidates, now, AllKinds[..i])
      {
        var k := AllKinds[i];
        NextBlock(start, candidates, now, i);
        var f := Update(k, candidates(k), now);
        if f {
          fired := fired + [k];
        }
        i := i + 1;
      }
      assert AllKinds[..i] == AllKinds;
      StepKindsCoversAll(start, candidates, now);
    }

    /**
     * `onResults` (main.js:436-564) on a frame whose hand list is built as
     * intended; returns the alerts it logs, in block order.
     */
    method OnResults(now: int, frame: Results, session: ExamSession, atan2Degrees: Atan2Degrees)
      returns (alerts: seq<Alert>)
      requires Valid()
      modifies this
      ensures Valid()
      ensures Entries() == StepSlots(old(Entries()), Candidates(frame, session.Snapshot(), atan2Degrees), now)
      ensures alerts == AlertsFor(FiredAmong(old(Entries()), Candidates(frame, session.Snapshot(), atan2Degrees), now, AllKinds),
                                  session.Snapshot(), now)
    {
      var phase := session.Snapshot();
      var candidates := Candidates(frame, phase, atan2Degrees);
      var fired := Step(candidates, now);
      alerts := [];
      for i := 0 to |fired|
        invariant alerts == AlertsFor(fired[..i], phase, now)
      {
        alerts := alerts + [AlertFor(fired[i], phase, now)];
      }
      assert fired[..|fired|] == fired;
    }

    /**
     * `onResults` as written: the hand list throws on any frame with a right
     * hand (main.js:445), so such a frame logs nothing and leaves every flag
     * and time as it was; other frames behave as `OnResults`.
     */
    method OnResultsAsWritten(now: int, frame: Results, session: ExamSession, atan2Degrees: Atan2Degrees)
      returns (r: Result<seq<Alert>, FrameError>)
      requires Valid()
      modifies this
      ensures Valid()
      ensures frame.rightHand.Some? ==> r.Failure? && Entries() == old(Entries())
      ensures frame.rightHand.None? ==>
        r.Success?
        && Entries() == StepSlots(old(Entries()), Candidates(frame, session.Snapshot(), atan2Degrees), now)
        && r.value == AlertsFor(FiredAmong(old(Entries()), Candidates(frame, session.Snapshot(), atan2Degrees), now, AllKinds),
                                session.Snapshot(), now)
    {
      match HandsAsWritten(frame)
      case Failure(e) =>
        r := Failure(e);
      case Success(_) =>
        var alerts := OnResults(now, frame, session, atan2Degrees);
        r := Success(alerts);
    }
  }
}
