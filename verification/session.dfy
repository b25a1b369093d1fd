/**
 * The exam session: the three variables `examStartTime`, `examEndTime` and
 * `isExamActive` (main.js:23-25) and the two commands that assign them,
 * `startExam` and `endExam` (main.js:585-605). Times are milliseconds of the
 * wall clock, which the model takes as a parameter.
 */
module Session {
  import opened Wrappers

  /** A read-only snapshot of the session, as the detectors and the alert log see it. */
  datatype Phase = Phase(examStartTime: Option<int>, examEndTime: Option<int>, isExamActive: bool)
  {
    /** An active exam has started and has not ended. */
    predicate Consistent()
    {
      isExamActive ==> examStartTime.Some? && examEndTime.None?
    }
  }

  /** The state before any key is pressed (main.js:23-25). */
  const Initial: Phase := Phase(None, None, false)

  /** The two control commands, with the clock reading at which each runs. */
  datatype Command = Start(at: int) | End(at: int)

  /** The session after one command. */
  function Apply(p: Phase, c: Command): (q: Phase)
    ensures q.Consistent()
    ensures c.Start? ==> q.isExamActive && q.examStartTime == Some(c.at) && q.examEndTime.None?
    ensures c.End? ==> !q.isExamActive && q.examEndTime == Some(c.at) && q.examStartTime == p.examStartTime
  {
    match c
    case Start(t) => Phase(Some(t), None, true)
    case End(t) => p.(examEndTime := Some(t), isExamActive := false)
  }

  /** The session after a series of commands, applied in order. */
  function ApplyAll(p: Phase, cmds: seq<Command>): Phase
  {
    if cmds == [] then p else Apply(ApplyAll(p, cmds[..|cmds| - 1]), cmds[|cmds| - 1])
  }

  /**
   * Once an exam has started the start time is never cleared again: `endExam`
   * leaves it alone and `startExam` overwrites it. So the start time is unset
   * exactly when it was unset before and no command started an exam.
   */
  lemma {:induction false} StartTimeUnsetIffNeverStarted(p: Phase, cmds: seq<Command>)
    ensures ApplyAll(p, cmds).examStartTime.None?
        <==> p.examStartTime.None? && forall i :: 0 <= i < |cmds| ==> !cmds[i].Start?
  {
    if cmds != [] {
      var init := cmds[..|cmds| - 1];
      StartTimeUnsetIffNeverStarted(p, init);
      forall i | 0 <= i < |init| ensures init[i] == cmds[i] { }
    }
  }

  /**
   * After at least one command, the exam is over (not active, end time set)
   * exactly when the last command was `endExam`.
   */
  lemma EndedIffLastCommandEnded(p: Phase, cmds: seq<Command>)
    requires cmds != []
    ensures var q := ApplyAll(p, cmds);
      (!q.isExamActive && q.examEndTime.Some?) <==> cmds[|cmds| - 1].End?
  {
  }

  /**
   * `examTime` in an alert (main.js:301): seconds since the start, or 0 when
   * the start time is falsy (unset, or the clock value 0).
   */
  function ExamTime(p: Phase, now: int): (secs: real)
    ensures p.examStartTime.None? || p.examStartTime.value == 0 ==> secs == 0.0
    ensures p.examStartTime.Some? && p.examStartTime.value != 0
        ==> secs * 1000.0 == (now - p.examStartTime.value) as real
    ensures p.examStartTime.Some? && p.examStartTime.value <= now ==> secs >= 0.0
  {
    if p.examStartTime.None? || p.examStartTime.value == 0 then 0.0
    else (now - p.examStartTime.value) as real / 1000.0
  }

  /**
   * The `duration` logged by `endExam` (main.js:602). With no start time the
   * source subtracts `null`, which JavaScript reads as 0.
   */
  function EndDuration(start: Option<int>, now: int): (secs: real)
    ensures start.Some? ==> secs * 1000.0 == (now - start.value) as real
    ensures start.None? ==> secs * 1000.0 == now as real
  {
    (now - (if start.Some? then start.value else 0)) as real / 1000.0
  }

  /** The session variables, updated in place by the two keyboard commands. */
  class ExamSession {
    var examStartTime: Option<int>
    var examEndTime: Option<int>
    var isExamActive: bool

    function Snapshot(): Phase
      reads this
    {
      Phase(examStartTime, examEndTime, isExamActive)
    }

    constructor ()
      ensures Snapshot() == Initial && Snapshot().Consistent()
    {
      examStartTime := None;
      examEndTime := None;
      isExamActive := false;
    }

    /** `startExam` (main.js:585-594). */
    method StartExam(now: int)
      modifies this
      ensures examStartTime == Some(now) && isExamActive && examEndTime == None
      ensures Snapshot() == Apply(old(Snapshot()), Start(now)) && Snapshot().Consistent()
    {
      examStartTime := Some(now);
      isExamActive := true;
      examEndTime := None;
    }

    /** `endExam` (main.js:596-605); returns the duration it logs. */
    method EndExam(now: int) returns (duration: real)
      modifies this
      ensures examEndTime == Some(now) && !isExamActive && examStartTime == old(examStartTime)
      ensures Snapshot() == Apply(old(Snapshot()), End(now)) && Snapshot().Consistent()
      ensures duration == EndDuration(old(examStartTime), now)
    {
      examEndTime := Some(now);
      isExamActive := false;
      duration := (now - (if examStartTime.Some? then examStartTime.value else 0)) as real / 1000.0;
    }
  }
}
