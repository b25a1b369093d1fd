/**
 * The debounce rule that each of the ten blocks of `onResults`
 * (main.js:453-561) applies to its own behaviour: a falling edge clears the
 * flag at once; a rising edge fires only when the flag is clear and the
 * cooldown since the last firing has passed.
 */
module Debounce {
  import opened Wrappers

  /** `detectionCooldown` (main.js:27), in milliseconds. */
  const DetectionCooldown: int := 2000

  /**
   * One behaviour's entries: its flag in `detectedBehaviors` and its entry in
   * `lastDetectionTime`, `None` when the key has never been written.
   */
  datatype Slot = Slot(active: bool, last: Option<int>)

  /** The entries before the first frame (main.js:26, main.js:30-41). */
  const Fresh: Slot := Slot(false, None)

  /**
   * `!lastDetectionTime.k || currentTime - lastDetectionTime.k > detectionCooldown`.
   * The negation is JavaScript's, so a stored time of 0 also reads as "never".
   */
  predicate CooldownElapsed(last: Option<int>, now: int)
  {
    last.None? || last.value == 0 || now - last.value > DetectionCooldown
  }

  /** The slot after one frame, and whether that frame logged an alert. */
  datatype Outcome = Outcome(next: Slot, fired: bool)

  /** One block of `onResults` for one behaviour, given its detector's result. */
  function Advance(s: Slot, candidate: bool, now: int): (o: Outcome)
    ensures !candidate ==> !o.fired && !o.next.active && o.next.last == s.last
    ensures o.fired <==> candidate && !s.active && CooldownElapsed(s.last, now)
    ensures o.fired ==> o.next == Slot(true, Some(now))
    ensures candidate && !o.fired ==> o.next == s
  {
    if candidate then
      if !s.active && CooldownElapsed(s.last, now) then Outcome(Slot(true, Some(now)), true)
      else Outcome(s, false)
    else
      Outcome(s.(active := false), false)
  }

  /** One frame as one behaviour sees it: its detector's result and the clock. */
  datatype Obs = Obs(candidate: bool, now: int)

  /** Where a series of frames leaves a slot, and the clock readings at which it fired. */
  datatype Trace = Trace(final: Slot, fires: seq<int>)

  function Run(s: Slot, obs: seq<Obs>): Trace
    decreases |obs|
  {
    if obs == [] then Trace(s, [])
    else
      var o := Advance(s, obs[0].candidate, obs[0].now);
      var t := Run(o.next, obs[1..]);
      Trace(t.final, (if o.fired then [obs[0].now] else []) + t.fires)
  }

  predicate AllCandidates(obs: seq<Obs>)
  {
    forall i :: 0 <= i < |obs| ==> obs[i].candidate
  }

  /**
   * Cooldown: after a firing at `t0`, no frame up to `t0 + 2000` fires again,
   * whatever the detector says in between; falling edges do not reset the
   * timer, and a clear flag stays clear through the suppressed frames.
   */
  lemma {:induction false} CooldownSuppresses(s: Slot, obs: seq<Obs>, t0: int)
    requires s.last == Some(t0) && t0 != 0
    requires forall i :: 0 <= i < |obs| ==> obs[i].now <= t0 + DetectionCooldown
    ensures Run(s, obs).fires == []
    ensures Run(s, obs).final.last == Some(t0)
    ensures !s.active ==> !Run(s, obs).final.active
    decreases |obs|
  {
    if obs != [] {
      var o := Advance(s, obs[0].candidate, obs[0].now);
      CooldownSuppresses(o.next, obs[1..], t0);
    }
  }

  /** `lastDetectionTime` ends at the last firing of a run, or is untouched when nothing fired. */
  lemma {:induction false} LastFireRecorded(s: Slot, obs: seq<Obs>)
    ensures var t := Run(s, obs);
      t.final.last == (if t.fires == [] then s.last else Some(t.fires[|t.fires| - 1]))
    decreases |obs|
  {
    if obs != [] {
      var o := Advance(s, obs[0].candidate, obs[0].now);
      LastFireRecorded(o.next, obs[1..]);
    }
  }

  /** The first firing of a run comes more than 2000 ms after the stored time, when that time is truthy. */
  lemma {:induction false} FirstFireAfterCooldown(s: Slot, obs: seq<Obs>)
    ensures var f := Run(s, obs).fires;
      f != [] && s.last.Some? && s.last.value != 0 ==> f[0] - s.last.value > DetectionCooldown
    decreases |obs|
  {
    if obs != [] {
      var o := Advance(s, obs[0].candidate, obs[0].now);
      if !o.fired {
        FirstFireAfterCooldown(o.next, obs[1..]);
      }
    }
  }

  /** Each time in `f` that is truthy is followed, if at all, by one more than 2000 ms later. */
  predicate ConsecutivelySpaced(f: seq<int>)
  {
    forall i :: 0 <= i < |f| - 1 && f[i] != 0 ==> f[i + 1] - f[i] > DetectionCooldown
  }

  /** Each firing of a run comes more than 2000 ms after the one before, when that one is truthy. */
  lemma {:induction false} ConsecutiveFiresSpaced(s: Slot, obs: seq<Obs>)
    ensures ConsecutivelySpaced(Run(s, obs).fires)
    decreases |obs|
  {
    if obs != [] {
      var o := Advance(s, obs[0].candidate, obs[0].now);
      ConsecutiveFiresSpaced(o.next, obs[1..]);
      var rest := Run(o.next, obs[1..]).fires;
      if o.fired {
        FirstFireAfterCooldown(o.next, obs[1..]);
        var f := Run(s, obs).fires;
        assert f == [obs[0].now] + rest;
        assert o.next.last == Some(obs[0].now);
        forall i | 0 <= i < |f| - 1 && f[i] != 0 ensures f[i + 1] - f[i] > DetectionCooldown {
          if i > 0 {
            assert f[i] == rest[i - 1] && f[i + 1] == rest[i];
          } else {
            assert f[1] == rest[0] && f[0] == obs[0].now;
          }
        }
      } else {
        assert Run(s, obs).fires == rest;
      }
    }
  }

  /** On a clock that only shows positive times, every firing time is positive. */
  lemma {:induction false} FiresPositive(s: Slot, obs: seq<Obs>)
    requires forall i :: 0 <= i < |obs| ==> obs[i].now > 0
    ensures forall i :: 0 <= i < |Run(s, obs).fires| ==> Run(s, obs).fires[i] > 0
    decreases |obs|
  {
    if obs != [] {
      var o := Advance(s, obs[0].candidate, obs[0].now);
      FiresPositive(o.next, obs[1..]);
    }
  }

  /**
   * Cooldown between any two alerts: on a clock that only shows positive
   * times, any two firings of one behaviour are more than 2000 ms apart.
   */
  lemma {:induction false} FiresPairwiseSpaced(s: Slot, obs: seq<Obs>)
    requires forall i :: 0 <= i < |obs| ==> obs[i].now > 0
    ensures var f := Run(s, obs).fires;
      forall i, j :: 0 <= i < j < |f| ==> f[j] - f[i] > DetectionCooldown
  {
    var f := Run(s, obs).fires;
    ConsecutiveFiresSpaced(s, obs);
    FiresPositive(s, obs);
    forall i | 0 <= i < |f| - 1 ensures f[i + 1] - f[i] > DetectionCooldown {
      assert f[i] > 0;
    }
    forall i, j | 0 <= i < j < |f| ensures f[j] - f[i] > DetectionCooldown {
      var k := i + 1;
      while k < j
        invariant i < k <= j
        invariant f[k] - f[i] > DetectionCooldown
      {
        assert f[k + 1] - f[k] > DetectionCooldown;
        k := k + 1;
      }
    }
  }

  /** An active flag under a sustained detection stays active and logs nothing. */
  lemma {:induction false} SustainedActiveStaysSilent(s: Slot, obs: seq<Obs>)
    requires s.active && AllCandidates(obs)
    ensures Run(s, obs) == Trace(s, [])
    decreases |obs|
  {
    if obs != [] {
      SustainedActiveStaysSilent(s, obs[1..]);
    }
  }

  /**
   * One alert per sustained run: frames on which the detector keeps saying
   * yes fire at most once; from a clear flag whose cooldown has passed they
   * fire exactly once, on the first frame, and leave the flag set.
   */
  lemma {:induction false} SustainedRunFiresOnce(s: Slot, obs: seq<Obs>)
    requires AllCandidates(obs)
    ensures |Run(s, obs).fires| <= 1
    ensures s.active ==> Run(s, obs).fires == []
    ensures obs != [] && !s.active && CooldownElapsed(s.last, obs[0].now)
        ==> Run(s, obs).fires == [obs[0].now] && Run(s, obs).final.active
    decreases |obs|
  {
    if obs != [] {
      var o := Advance(s, true, obs[0].now);
      if o.fired {
        SustainedActiveStaysSilent(o.next, obs[1..]);
      } else if s.active {
        SustainedActiveStaysSilent(s, obs);
      } else {
        SustainedRunFiresOnce(o.next, obs[1..]);
      }
    }
  }

  /**
   * Immediate fall: the flag is set after a series of frames only if the last
   * of them detected the behaviour, so a frame without it always clears the
   * flag, cooldown or not.
   */
  lemma {:induction false} ActiveOnlyWhileDetected(s: Slot, obs: seq<Obs>)
    requires obs != []
    ensures Run(s, obs).final.active ==> obs[|obs| - 1].candidate
    decreases |obs|
  {
    var o := Advance(s, obs[0].candidate, obs[0].now);
    if |obs| > 1 {
      ActiveOnlyWhileDetected(o.next, obs[1..]);
      assert obs[1..][|obs[1..]| - 1] == obs[|obs| - 1];
    } else {
      assert Run(o.next, obs[1..]) == Trace(o.next, []);
    }
  }

  /**
   * A worked series: the behaviour is seen at 1000, 1100 and 1200 ms, lost at
   * 1300, seen again at 2500 (suppressed: 1500 ms since 1000) and at 3100
   * (2100 ms since 1000). It fires at 1000 and 3100 only.
   */
  lemma FlickerScenario()
    ensures Run(Fresh, [Obs(true, 1000), Obs(true, 1100), Obs(true, 1200),
                        Obs(false, 1300), Obs(true, 2500), Obs(true, 3100)]).fires == [1000, 3100]
  {
  }

  /**
   * The falsy test at work: a firing at clock reading 0 is stored as 0, which
   * the next rising edge reads as "never fired", so no cooldown follows it.
   */
  lemma ZeroTimeStartsNoCooldown()
    ensures Run(Fresh, [Obs(true, 0), Obs(false, 50), Obs(true, 100)]).fires == [0, 100]
  {
  }
}
