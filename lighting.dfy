/**
 * The colour and brightness rules of colour-change mode. Brightness is an
 * integer number of hundredths (0.05 is 5, 1.0 is 100); the palette holds
 * `n > 0` colours.
 */
module Lighting {

  const BRIGHTNESS_STEP: int := 5
  const MIN_BRIGHTNESS: int := 5
  const MAX_BRIGHTNESS: int := 100

  predicate InPalette(idx: int, n: nat) {
    0 <= idx < n
  }

  predicate InBrightnessRange(b: int) {
    MIN_BRIGHTNESS <= b <= MAX_BRIGHTNESS
  }

  /**
   * The colour index after encoder 1 reads `pos` against `last`: one step
   * right or left with wrap-around, whatever the size of the move, and no
   * change when the encoder did not move.
   */
  function ColourStep(idx: int, n: nat, last: int, pos: int): (r: int)
    requires n > 0
    ensures pos == last ==> r == idx
    ensures pos != last ==> InPalette(r, n)
    ensures pos > last && InPalette(idx, n) ==> r == if idx == n - 1 then 0 else idx + 1
    ensures pos < last && InPalette(idx, n) ==> r == if idx == 0 then n - 1 else idx - 1
  {
    if pos != last then
      if pos > last then (idx + 1) % n else (idx - 1) % n
    else idx
  }

  function Min(a: int, b: int): int { if a <= b then a else b }
  function Max(a: int, b: int): int { if a >= b then a else b }

  /** One step brighter, saturating at the maximum. */
  function BrightnessUp(b: int): (r: int)
    ensures r <= MAX_BRIGHTNESS && r <= b + BRIGHTNESS_STEP
    ensures r == MAX_BRIGHTNESS || r == b + BRIGHTNESS_STEP
  {
    Min(b + BRIGHTNESS_STEP, MAX_BRIGHTNESS)
  }

  /** One step dimmer, saturating at the minimum. */
  function BrightnessDown(b: int): (r: int)
    ensures r >= MIN_BRIGHTNESS && r >= b - BRIGHTNESS_STEP
    ensures r == MIN_BRIGHTNESS || r == b - BRIGHTNESS_STEP
  {
    Max(b - BRIGHTNESS_STEP, MIN_BRIGHTNESS)
  }

  /** The brightness after encoder 2 reads `pos` against `last`. */
  function BrightnessStep(b: int, last: int, pos: int): (r: int)
    ensures pos == last ==> r == b
    ensures InBrightnessRange(b) ==> InBrightnessRange(r)
    ensures pos > last ==> r >= b || r == MAX_BRIGHTNESS
    ensures pos < last ==> r <= b || r == MIN_BRIGHTNESS
    ensures pos > last ==> r == BrightnessUp(b)
    ensures pos < last ==> r == BrightnessDown(b)
  {
    if pos != last then
      if pos > last then BrightnessUp(b) else BrightnessDown(b)
    else b
  }

  /** `k` up-steps in a row. */
  function UpSteps(b: int, k: nat): int {
    if k == 0 then b else BrightnessUp(UpSteps(b, k - 1))
  }

  /** `k` down-steps in a row. */
  function DownSteps(b: int, k: nat): int {
    if k == 0 then b else BrightnessDown(DownSteps(b, k - 1))
  }

  /** Repeated up-steps climb by one step each and saturate at the maximum. */
  lemma {:induction false} UpStepsSaturate(b: int, k: nat)
    requires b <= MAX_BRIGHTNESS
    ensures UpSteps(b, k) == Min(b + k * BRIGHTNESS_STEP, MAX_BRIGHTNESS)
  {
    if k > 0 {
      UpStepsSaturate(b, k - 1);
    }
  }

  /** Repeated down-steps descend by one step each and saturate at the minimum. */
  lemma {:induction false} DownStepsSaturate(b: int, k: nat)
    requires b >= MIN_BRIGHTNESS
    ensures DownSteps(b, k) == Max(b - k * BRIGHTNESS_STEP, MIN_BRIGHTNESS)
  {
    if k > 0 {
      DownStepsSaturate(b, k - 1);
    }
  }

  /** From 0.95 one step reaches 1.0 and any further steps stay there; from 0.1 the floor is 0.05. */
  lemma SaturationExamples(k: nat)
    ensures UpSteps(95, k + 1) == MAX_BRIGHTNESS
    ensures DownSteps(10, k + 1) == MIN_BRIGHTNESS
  {
    UpStepsSaturate(95, k + 1);
    DownStepsSaturate(10, k + 1);
  }

  /** Wrapping at both ends of the palette. */
  lemma ColourWrapExamples(n: nat)
    requires n > 0
    ensures ColourStep(0, n, 1, 0) == n - 1
    ensures ColourStep(n - 1, n, 0, 1) == 0
  {
  }
}
