/**
 * Colour-change mode (`colour_change_mode`): a loop of sub-ticks in which
 * encoder 1 moves the working colour index and encoder 2 the working
 * brightness, until the gating button (encoder 1's push button) reads
 * released; then the working pair is saved and returned.
 */
module ColourMode {
  import opened Wrappers
  import opened Lighting
  import opened Preset

  /** One sub-tick's reads: both encoder positions, then the gating pin's level (true = released). */
  datatype SubTick = SubTick(pos1: int, pos2: int, gateLevel: bool)

  /** The working pair at exit and the number of sub-ticks it took. */
  datatype Exit = Exit(working: Preset, subTicks: nat)

  /** The working pair after one sub-tick's encoder reads. */
  function Step(n: nat, w: Preset, last1: int, last2: int, t: SubTick): Preset
    requires n > 0
  {
    Preset(ColourStep(w.colourIdx, n, last1, t.pos1), BrightnessStep(w.brightness, last2, t.pos2))
  }

  /** The loop from sub-tick `k` on, with the positions last seen; `None` if the trace ends first. */
  function RunFrom(n: nat, w: Preset, last1: int, last2: int, ticks: seq<SubTick>, k: nat): Option<Exit>
    requires n > 0
    decreases |ticks| - k
  {
    if k >= |ticks| then None
    else
      var next := Step(n, w, last1, last2, ticks[k]);
      if ticks[k].gateLevel then Some(Exit(next, k + 1))
      else RunFrom(n, next, ticks[k].pos1, ticks[k].pos2, ticks, k + 1)
  }

  /** The whole mode: the positions read at entry are the reference for the first sub-tick. */
  function Run(n: nat, w: Preset, entry1: int, entry2: int, ticks: seq<SubTick>): Option<Exit>
    requires n > 0
  {
    RunFrom(n, w, entry1, entry2, ticks, 0)
  }

  /** Some sub-tick of the trace reads the gating button released. */
  predicate Exits(ticks: seq<SubTick>) {
    exists k :: 0 <= k < |ticks| && ticks[k].gateLevel
  }

  /** The first sub-tick that reads the gating button released. */
  function FirstRelease(ticks: seq<SubTick>): (k: nat)
    requires Exits(ticks)
    ensures k < |ticks| && ticks[k].gateLevel
    ensures forall j :: 0 <= j < k ==> !ticks[j].gateLevel
  {
    if ticks[0].gateLevel then 0
    else
      assert Exits(ticks[1..]) by {
        var k :| 0 <= k < |ticks| && ticks[k].gateLevel;
        assert ticks[1..][k - 1] == ticks[k];
      }
      1 + FirstRelease(ticks[1..])
  }

  /** The loop ends exactly on the first sub-tick at or after `k` that reads the button released. */
  lemma {:induction false} RunFromEndsAtRelease(n: nat, w: Preset, last1: int, last2: int, ticks: seq<SubTick>, k: nat, m: nat)
    requires n > 0
    requires k <= m < |ticks|
    ensures (RunFrom(n, w, last1, last2, ticks, k).Some? && RunFrom(n, w, last1, last2, ticks, k).value.subTicks == m + 1)
            <==> ticks[m].gateLevel && forall j :: k <= j < m ==> !ticks[j].gateLevel
    decreases m - k
  {
    var next := Step(n, w, last1, last2, ticks[k]);
    if !ticks[k].gateLevel {
      if k < m {
        RunFromEndsAtRelease(n, next, ticks[k].pos1, ticks[k].pos2, ticks, k + 1, m);
      } else {
        RunFromNoneWithoutRelease(n, next, ticks[k].pos1, ticks[k].pos2, ticks, k + 1);
      }
    }
  }

  lemma {:induction false} RunFromNoneWithoutRelease(n: nat, w: Preset, last1: int, last2: int, ticks: seq<SubTick>, k: nat)
    requires n > 0
    requires k <= |ticks|
    ensures RunFrom(n, w, last1, last2, ticks, k).None? <==> forall j :: k <= j < |ticks| ==> !ticks[j].gateLevel
    ensures RunFrom(n, w, last1, last2, ticks, k).Some? ==> k < RunFrom(n, w, last1, last2, ticks, k).value.subTicks
    decreases |ticks| - k
  {
    if k < |ticks| && !ticks[k].gateLevel {
      RunFromNoneWithoutRelease(n, Step(n, w, last1, last2, ticks[k]), ticks[k].pos1, ticks[k].pos2, ticks, k + 1);
    }
  }

  /**
   * The mode ends on the first sub-tick that reads the gating button
   * released, and only a trace without such a sub-tick leaves it running.
   */
  lemma RunEndsAtFirstRelease(n: nat, w: Preset, entry1: int, entry2: int, ticks: seq<SubTick>)
    requires n > 0
    ensures Run(n, w, entry1, entry2, ticks).None? <==> !Exits(ticks)
    ensures Exits(ticks) ==> Run(n, w, entry1, entry2, ticks).value.subTicks == FirstRelease(ticks) + 1
  {
    RunFromNoneWithoutRelease(n, w, entry1, entry2, ticks, 0);
    if Exits(ticks) {
      RunFromEndsAtRelease(n, w, entry1, entry2, ticks, 0, FirstRelease(ticks));
    }
  }

  lemma {:induction false} RunFromKeepsRange(n: nat, w: Preset, last1: int, last2: int, ticks: seq<SubTick>, k: nat)
    requires n > 0
    requires InPalette(w.colourIdx, n) && InBrightnessRange(w.brightness)
    requires RunFrom(n, w, last1, last2, ticks, k).Some?
    ensures InPalette(RunFrom(n, w, last1, last2, ticks, k).value.working.colourIdx, n)
    ensures InBrightnessRange(RunFrom(n, w, last1, last2, ticks, k).value.working.brightness)
    decreases |ticks| - k
  {
    var next := Step(n, w, last1, last2, ticks[k]);
    if !ticks[k].gateLevel {
      RunFromKeepsRange(n, next, ticks[k].pos1, ticks[k].pos2, ticks, k + 1);
    }
  }

  /** A working pair that starts in range (index in the palette, brightness in [0.05, 1.0]) leaves in range. */
  lemma RunKeepsRange(n: nat, w: Preset, entry1: int, entry2: int, ticks: seq<SubTick>)
    requires n > 0
    requires InPalette(w.colourIdx, n) && InBrightnessRange(w.brightness)
    requires Run(n, w, entry1, entry2, ticks).Some?
    ensures InPalette(Run(n, w, entry1, entry2, ticks).value.working.colourIdx, n)
    ensures InBrightnessRange(Run(n, w, entry1, entry2, ticks).value.working.brightness)
  {
    RunFromKeepsRange(n, w, entry1, entry2, ticks, 0);
  }

  lemma {:induction false} RunFromStationary(n: nat, w: Preset, last1: int, last2: int, ticks: seq<SubTick>, k: nat)
    requires n > 0
    requires forall j :: k <= j < |ticks| ==> ticks[j].pos1 == last1 && ticks[j].pos2 == last2
    requires RunFrom(n, w, last1, last2, ticks, k).Some?
    ensures RunFrom(n, w, last1, last2, ticks, k).value.working == w
    decreases |ticks| - k
  {
    if !ticks[k].gateLevel {
      RunFromStationary(n, w, last1, last2, ticks, k + 1);
    }
  }

  /** With both encoders left where they were at entry, the mode returns the pair it was given. */
  lemma RunStationary(n: nat, w: Preset, entry1: int, entry2: int, ticks: seq<SubTick>)
    requires n > 0
    requires forall j :: 0 <= j < |ticks| ==> ticks[j].pos1 == entry1 && ticks[j].pos2 == entry2
    requires Run(n, w, entry1, entry2, ticks).Some?
    ensures Run(n, w, entry1, entry2, ticks).value.working == w
  {
    RunFromStationary(n, w, entry1, entry2, ticks, 0);
  }

  /**
   * In a palette of three, three right steps of encoder 1 bring the colour
   * back to where it started; a single left step wraps colour 0 round to 2
   * while a right step of encoder 2 saturates the brightness at 1.0.
   */
  lemma FullTurnExample()
    ensures Run(3, Preset(2, 50), 0, 0, [SubTick(1, 0, false), SubTick(2, 0, false), SubTick(3, 0, true)])
            == Some(Exit(Preset(2, 50), 3))
    ensures Run(3, Preset(0, 95), 0, 0, [SubTick(-4, 9, true)]) == Some(Exit(Preset(2, 100), 1))
  {
  }

  /**
   * colour_change_mode: loops over the sub-ticks until the gating button
   * reads released, saves the working pair once and returns it.
   */
  method ColourChangeMode(file: PresetFile, n: nat, w: Preset, entry1: int, entry2: int, ticks: seq<SubTick>)
    returns (result: Preset)
    requires n > 0
    requires Exits(ticks)
    modifies file
    ensures Run(n, w, entry1, entry2, ticks) == Some(Exit(result, FirstRelease(ticks) + 1))
    ensures file.content == Some(PresetRecord(result.colourIdx, result.brightness))
    ensures file.writes == old(file.writes) + [PresetRecord(result.colourIdx, result.brightness)]
  {
    var lastPos1, lastPos2 := entry1, entry2;
    var colourIdx, brightness := w.colourIdx, w.brightness;
    ghost var stop := FirstRelease(ticks);
    var i := 0;
    while true
      invariant 0 <= i <= stop
      invariant RunFrom(n, Preset(colourIdx, brightness), lastPos1, lastPos2, ticks, i) == Run(n, w, entry1, entry2, ticks)
      invariant file.content == old(file.content) && file.writes == old(file.writes)
      decreases stop - i
    {
      var t := ticks[i];
      if t.pos1 != lastPos1 {
        if t.pos1 > lastPos1 {
          colourIdx := (colourIdx + 1) % n;
        } else {
          colourIdx := (colourIdx - 1) % n;
        }
        lastPos1 := t.pos1;
      }
      if t.pos2 != lastPos2 {
        if t.pos2 > lastPos2 {
          brightness := Min(brightness + BRIGHTNESS_STEP, MAX_BRIGHTNESS);
        } else {
          brightness := Max(brightness - BRIGHTNESS_STEP, MIN_BRIGHTNESS);
        }
        lastPos2 := t.pos2;
      }
      if t.gateLevel {
        file.Save(colourIdx, brightness);
        result := Preset(colourIdx, brightness);
        break;
      }
      i := i + 1;
    }
    RunEndsAtFirstRelease(n, w, entry1, entry2, ticks);
  }
}
