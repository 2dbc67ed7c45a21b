/**
 * Long-press detection (`detect_long_press`) over an explicit trace of
 * samples instead of the real clock. The function reads the button once; if
 * it is pressed it takes the start time and then polls: each pass reads the
 * pin and, while it is still low, the clock.
 */
module LongPress {

  /** The long-press threshold in milliseconds (3.0 s). */
  const LONG_PRESS_DURATION: int := 3000

  /** One pass of the wait loop: the pin level (true = released) and the clock. */
  datatype Poll = Poll(level: bool, now: int)

  /**
   * How a call ends: the button was not pressed at entry (no wait at all),
   * it was released after `polls` passes, it was held past the threshold at
   * pass `polls`, or the trace ended while it was still waiting.
   */
  datatype Outcome = NotPressed | Released(polls: nat) | Held(polls: nat) | Waiting

  /** The caller's view of an outcome: `True` only for a long press. */
  predicate IsLongPress(o: Outcome) {
    o.Held?
  }

  /** The wait loop from pass `k` on. */
  function WaitFrom(start: int, polls: seq<Poll>, duration: int, k: nat): Outcome
    decreases |polls| - k
  {
    if k >= |polls| then Waiting
    else if polls[k].level then Released(k + 1)
    else if polls[k].now - start > duration then Held(k + 1)
    else WaitFrom(start, polls, duration, k + 1)
  }

  function Detect(entryLevel: bool, start: int, polls: seq<Poll>, duration: int): Outcome {
    if entryLevel then NotPressed else WaitFrom(start, polls, duration, 0)
  }

  /** Passes `k .. m-1` all saw the button held, none of them past the threshold. */
  predicate HeldWithin(start: int, polls: seq<Poll>, duration: int, k: nat, m: nat)
    requires k <= m <= |polls|
  {
    forall j :: k <= j < m ==> !polls[j].level && polls[j].now - start <= duration
  }

  lemma {:induction false} WaitFromCharacterised(start: int, polls: seq<Poll>, duration: int, k: nat, m: nat)
    requires k <= m < |polls|
    ensures WaitFrom(start, polls, duration, k) == Held(m + 1) <==>
              HeldWithin(start, polls, duration, k, m) && !polls[m].level && polls[m].now - start > duration
    ensures WaitFrom(start, polls, duration, k) == Released(m + 1) <==>
              HeldWithin(start, polls, duration, k, m) && polls[m].level
    decreases m - k
  {
    if k < m {
      WaitFromRunsOut(start, polls, duration, k);
      WaitFromCharacterised(start, polls, duration, k + 1, m);
    } else {
      WaitFromRunsOut(start, polls, duration, k + 1);
    }
  }

  lemma {:induction false} WaitFromRunsOut(start: int, polls: seq<Poll>, duration: int, k: nat)
    requires k <= |polls|
    ensures WaitFrom(start, polls, duration, k) == Waiting <==> HeldWithin(start, polls, duration, k, |polls|)
    ensures WaitFrom(start, polls, duration, k) != NotPressed
    ensures WaitFrom(start, polls, duration, k).Held? || WaitFrom(start, polls, duration, k).Released? ==>
              k < WaitFrom(start, polls, duration, k).polls <= |polls|
    decreases |polls| - k
  {
    if k < |polls| {
      WaitFromRunsOut(start, polls, duration, k + 1);
    }
  }

  /**
   * A long press is reported after pass `m` exactly when the button was
   * pressed at entry and stayed low through pass `m`, and pass `m` is the
   * first whose elapsed time is strictly greater than the duration.
   */
  lemma DetectHeld(entryLevel: bool, start: int, polls: seq<Poll>, duration: int, m: nat)
    requires m < |polls|
    ensures Detect(entryLevel, start, polls, duration) == Held(m + 1) <==>
              !entryLevel && HeldWithin(start, polls, duration, 0, m) && !polls[m].level && polls[m].now - start > duration
  {
    WaitFromCharacterised(start, polls, duration, 0, m);
  }

  /**
   * A release is reported after pass `m` exactly when the button was pressed
   * at entry, pass `m` reads it released, and every earlier pass saw it held
   * without reaching the threshold.
   */
  lemma DetectReleased(entryLevel: bool, start: int, polls: seq<Poll>, duration: int, m: nat)
    requires m < |polls|
    ensures Detect(entryLevel, start, polls, duration) == Released(m + 1) <==>
              !entryLevel && HeldWithin(start, polls, duration, 0, m) && polls[m].level
  {
    WaitFromCharacterised(start, polls, duration, 0, m);
  }

  /** A button not pressed at entry is answered at once, without a single poll. */
  lemma DetectNotPressed(entryLevel: bool, start: int, polls: seq<Poll>, duration: int)
    ensures Detect(entryLevel, start, polls, duration) == NotPressed <==> entryLevel
  {
    WaitFromRunsOut(start, polls, duration, 0);
  }

  /** The trace runs out only when every pass saw the button held below the threshold. */
  lemma DetectWaiting(entryLevel: bool, start: int, polls: seq<Poll>, duration: int)
    ensures Detect(entryLevel, start, polls, duration) == Waiting <==>
              !entryLevel && HeldWithin(start, polls, duration, 0, |polls|)
  {
    WaitFromRunsOut(start, polls, duration, 0);
  }

  /** A button held 3.5 s, sampled every half second, is a long press; released after 1 s it is not. */
  lemma DetectExamples()
    ensures Detect(false, 0, [Poll(false, 500), Poll(false, 1000), Poll(false, 1500), Poll(false, 2000),
                              Poll(false, 2500), Poll(false, 3000), Poll(false, 3500)], LONG_PRESS_DURATION) == Held(7)
    ensures Detect(false, 0, [Poll(false, 500), Poll(false, 1000), Poll(true, 1000)], LONG_PRESS_DURATION) == Released(3)
    ensures Detect(true, 0, [], LONG_PRESS_DURATION) == NotPressed
  {
  }

  /** detect_long_press: the busy wait itself. */
  method DetectLongPress(entryLevel: bool, start: int, polls: seq<Poll>, duration: int) returns (outcome: Outcome)
    ensures outcome == Detect(entryLevel, start, polls, duration)
  {
    if entryLevel {
      return NotPressed;
    }
    var k := 0;
    while k < |polls| && !polls[k].level
      invariant 0 <= k <= |polls|
      invariant WaitFrom(start, polls, duration, k) == WaitFrom(start, polls, duration, 0)
    {
      if polls[k].now - start > duration {
        return Held(k + 1);
      }
      k := k + 1;
    }
    if k < |polls| {
      outcome := Released(k + 1);
    } else {
      outcome := Waiting;
    }
  }
}
