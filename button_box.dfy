/**
 * The main program: start-up (load and check the preset, seed the encoder
 * positions) and the main loop, one `Tick` per pass. The hardware reads of a
 * pass are given as a `TickInput`.
 */
module Controller {
  import opened Hid
  import opened Buttons
  import opened Encoder
  import opened LongPress
  import opened Lighting
  import opened Preset
  import opened ColourMode
  import opened Wrappers

  /** One long-press check: the gating pin's level at entry, the clock just after, then the polls. */
  datatype LongPressTrace = LongPressTrace(entryLevel: bool, start: int, polls: seq<Poll>)

  /** One stay in colour mode: both encoder positions read at entry, then the sub-ticks. */
  datatype ColourTrace = ColourTrace(entry1: int, entry2: int, subTicks: seq<SubTick>)

  /** Everything one pass of the main loop reads, in the order it reads it. */
  datatype TickInput = TickInput(
    push: seq<bool>, rocker: seq<bool>, encoderButtons: seq<bool>,
    pos1: int, pos2: int,
    longPress: LongPressTrace, colour: ColourTrace)

  /** One level per binding of each group. */
  predicate WellFormed(input: TickInput) {
    |input.push| == |PushButtons| && |input.rocker| == |RockerButtons| && |input.encoderButtons| == |EncoderButtons|
  }

  /** The pin levels of all bindings, in the order of `AllBindings`. */
  function Levels(input: TickInput): (levels: seq<bool>)
    requires WellFormed(input)
    ensures |levels| == |AllBindings|
  {
    input.push + input.rocker + input.encoderButtons
  }

  function LongPressOf(input: TickInput): Outcome {
    Detect(input.longPress.entryLevel, input.longPress.start, input.longPress.polls, LONG_PRESS_DURATION)
  }

  /**
   * The pass finishes within its trace: the long-press wait comes to a
   * decision and, after a long press, colour mode sees the button released.
   */
  predicate Completes(input: TickInput) {
    LongPressOf(input) != Waiting && (LongPressOf(input).Held? ==> Exits(input.colour.subTicks))
  }

  class ButtonBox {
    const paletteSize: nat
    const gamepad: Gamepad
    const presetFile: PresetFile
    var lastPos1: int
    var lastPos2: int
    var colourIdx: int
    var brightness: int

    /** The report covers every button and the working pair is in range. */
    ghost predicate Valid()
      reads this, gamepad
    {
      gamepad.Valid() && paletteSize > 0 && InPalette(colourIdx, paletteSize) && InBrightnessRange(brightness)
    }

    /**
     * Start-up: the working pair is the loaded preset after the range check,
     * both encoders' last positions are 0, and the report holds exactly the
     * descriptor's buttons, every one released.
     */
    constructor (paletteSize: nat, file: PresetFile)
      requires paletteSize > 0
      ensures Valid()
      ensures this.paletteSize == paletteSize && presetFile == file && fresh(gamepad)
      ensures Preset(colourIdx, brightness) == ValidatePreset(LoadPreset(file.content), paletteSize)
      ensures lastPos1 == 0 && lastPos2 == 0
      ensures gamepad.report.Keys == Hid.Buttons()
      ensures forall id :: id in gamepad.report ==> !gamepad.report[id]
    {
      var loaded := file.Load();
      var checked := ValidatePreset(loaded, paletteSize);
      this.paletteSize := paletteSize;
      presetFile := file;
      colourIdx := checked.colourIdx;
      brightness := checked.brightness;
      lastPos1 := 0;
      lastPos2 := 0;
      gamepad := new Gamepad();
    }

    /**
     * The report half of a pass: release the four pulse buttons, map every
     * binding, then pulse each encoder that moved since the last pass.
     */
    method UpdateReport(input: TickInput)
      requires Valid() && WellFormed(input)
      modifies this, gamepad
      ensures Valid()
      ensures lastPos1 == input.pos1 && lastPos2 == input.pos2
      ensures colourIdx == old(colourIdx) && brightness == old(brightness)
      ensures gamepad.report.Keys == old(gamepad.report.Keys)
      ensures PassReport(gamepad.report, input, old(lastPos1), old(lastPos2))
      ensures forall id :: id in old(gamepad.report) && !Written(id) ==>
                id in gamepad.report && gamepad.report[id] == old(gamepad.report)[id]
    {
      ghost var r0 := gamepad.report;
      gamepad.ReleaseButtons(PulseButtons);
      ghost var released := gamepad.report;
      HandleButtons(input.push, PushButtons, gamepad);
      HandleButtons(input.rocker, RockerButtons, gamepad);
      HandleButtons(input.encoderButtons, EncoderButtons, gamepad);
      ghost var old1, old2 := lastPos1, lastPos2;
      lastPos1 := HandleEncoder(input.pos1, Some(lastPos1), ENC_1_BTN_L, ENC_1_BTN_R, gamepad);
      lastPos2 := HandleEncoder(input.pos2, Some(lastPos2), ENC_2_BTN_L, ENC_2_BTN_R, gamepad);
      MapAllGroups(released, input);
      StaticBindingsDistinct();
      MappedAfterRelease(r0, released, Levels(input), AllBindings);
      PulsesPressed(ApplyBindings(released, Levels(input), AllBindings), old1, input.pos1, old2, input.pos2, gamepad.report);
      WrittenExactly();
    }

    /**
     * One pass of the main loop: the report update, then the long-press
     * check on the gating button and, after a long press, colour mode.
     */
    method Tick(input: TickInput)
      requires Valid() && WellFormed(input) && Completes(input)
      modifies this, gamepad, presetFile
      ensures Valid()
      ensures lastPos1 == input.pos1 && lastPos2 == input.pos2
      ensures gamepad.report.Keys == old(gamepad.report.Keys)
      ensures PassReport(gamepad.report, input, old(lastPos1), old(lastPos2))
      ensures forall id :: id in old(gamepad.report) && !Written(id) ==>
                id in gamepad.report && gamepad.report[id] == old(gamepad.report)[id]
      ensures LongPressOf(input).Held? ==>
                && Run(paletteSize, Preset(old(colourIdx), old(brightness)), input.colour.entry1, input.colour.entry2, input.colour.subTicks)
                   == Some(Exit(Preset(colourIdx, brightness), FirstRelease(input.colour.subTicks) + 1))
                && presetFile.content == Some(PresetRecord(colourIdx, brightness))
                && presetFile.writes == old(presetFile.writes) + [PresetRecord(colourIdx, brightness)]
      ensures !LongPressOf(input).Held? ==>
                && colourIdx == old(colourIdx) && brightness == old(brightness)
                && presetFile.content == old(presetFile.content) && presetFile.writes == old(presetFile.writes)
      ensures Preset(colourIdx, brightness) == PassPair(paletteSize, old(Preset(colourIdx, brightness)), input)
      ensures presetFile.writes == old(presetFile.writes) + PassRecords(paletteSize, old(Preset(colourIdx, brightness)), input)
      ensures presetFile.content
              == LastRecord(old(presetFile.content), PassRecords(paletteSize, old(Preset(colourIdx, brightness)), input))
    {
      UpdateReport(input);
      var lp := input.longPress;
      var outcome := DetectLongPress(lp.entryLevel, lp.start, lp.polls, LONG_PRESS_DURATION);
      if IsLongPress(outcome) {
        var ct := input.colour;
        var w := Preset(colourIdx, brightness);
        var chosen := ColourChangeMode(presetFile, paletteSize, w, ct.entry1, ct.entry2, ct.subTicks);
        RunKeepsRange(paletteSize, w, ct.entry1, ct.entry2, ct.subTicks);
        colourIdx, brightness := chosen.colourIdx, chosen.brightness;
      }
    }

    /**
     * The main loop's account after the first `i` passes of `inputs`, for a
     * run that began with the pair `w0`, the file's `writes0` and `content0`,
     * the report `report0` and the readings `readings1[0]`, `readings2[0]`:
     * the pair and the file follow the folds, the encoders hold the `i`-th
     * reading, ids the loop never writes keep their entries, and the report
     * is the one pass `i` left.
     */
    ghost predicate Progress(inputs: seq<TickInput>, i: nat, w0: Preset, writes0: seq<string>, content0: Option<string>,
                             report0: map<int, bool>, readings1: seq<int>, readings2: seq<int>)
      reads this, gamepad, presetFile
    {
      && i <= |inputs| && i < |readings1| && i < |readings2|
      && (forall k :: 0 <= k < |inputs| ==> WellFormed(inputs[k]))
      && Valid()
      && gamepad.report.Keys == report0.Keys
      && Preset(colourIdx, brightness) == PairAfter(paletteSize, w0, inputs, i)
      && presetFile.writes == writes0 + SavedRecords(paletteSize, w0, inputs, i)
      && presetFile.content == LastRecord(content0, SavedRecords(paletteSize, w0, inputs, i))
      && lastPos1 == readings1[i] && lastPos2 == readings2[i]
      && (forall id :: id in report0 && !Written(id) ==> id in gamepad.report && gamepad.report[id] == report0[id])
      && (i > 0 ==> PassReport(gamepad.report, inputs[i - 1], readings1[i - 1], readings2[i - 1]))
    }

    /** Pass `i` of the main loop: one `Tick` carries the account from `i` passes to `i + 1`. */
    method Pass(inputs: seq<TickInput>, i: nat, ghost w0: Preset, ghost writes0: seq<string>, ghost content0: Option<string>,
                ghost report0: map<int, bool>, ghost readings1: seq<int>, ghost readings2: seq<int>)
      requires i < |inputs| && Completes(inputs[i])
      requires i + 1 < |readings1| && i + 1 < |readings2|
      requires readings1[i + 1] == inputs[i].pos1 && readings2[i + 1] == inputs[i].pos2
      requires Progress(inputs, i, w0, writes0, content0, report0, readings1, readings2)
      modifies this, gamepad, presetFile
      ensures Progress(inputs, i + 1, w0, writes0, content0, report0, readings1, readings2)
    {
      ghost var saved := SavedRecords(paletteSize, w0, inputs, i);
      ghost var pass := PassRecords(paletteSize, PairAfter(paletteSize, w0, inputs, i), inputs[i]);
      Tick(inputs[i]);
      assert writes0 + saved + pass == writes0 + (saved + pass);
      LastRecordAppend(content0, saved, pass);
    }

    /**
     * The main loop over a sequence of passes: the working pair and the
     * preset writes follow the passes one after another, and the report is
     * the one the last pass built, with each encoder pulse the last entry of
     * that encoder's pulse train.
     */
    method MainLoop(inputs: seq<TickInput>)
      requires Valid()
      requires forall i :: 0 <= i < |inputs| ==> WellFormed(inputs[i]) && Completes(inputs[i])
      modifies this, gamepad, presetFile
      ensures Valid()
      ensures gamepad.report.Keys == old(gamepad.report.Keys)
      ensures Preset(colourIdx, brightness) == PairAfter(paletteSize, old(Preset(colourIdx, brightness)), inputs, |inputs|)
      ensures presetFile.writes == old(presetFile.writes) + SavedRecords(paletteSize, old(Preset(colourIdx, brightness)), inputs, |inputs|)
      ensures presetFile.content
              == LastRecord(old(presetFile.content), SavedRecords(paletteSize, old(Preset(colourIdx, brightness)), inputs, |inputs|))
      ensures |inputs| > 0 ==> lastPos1 == inputs[|inputs| - 1].pos1 && lastPos2 == inputs[|inputs| - 1].pos2
      ensures |inputs| == 0 ==> lastPos1 == old(lastPos1) && lastPos2 == old(lastPos2)
      ensures |inputs| == 0 ==> gamepad.report == old(gamepad.report)
      ensures forall id :: id in old(gamepad.report) && !Written(id) ==>
                id in gamepad.report && gamepad.report[id] == old(gamepad.report)[id]
      ensures |inputs| > 0 ==> FollowsPins(gamepad.report, inputs[|inputs| - 1])
      ensures |inputs| > 0 ==>
                var train1 := PulseTrain(old(lastPos1), Positions1(inputs));
                var train2 := PulseTrain(old(lastPos2), Positions2(inputs));
                && gamepad.report[ENC_1_BTN_L] == (train1[|inputs| - 1] == Left)
                && gamepad.report[ENC_1_BTN_R] == (train1[|inputs| - 1] == Right)
                && gamepad.report[ENC_2_BTN_L] == (train2[|inputs| - 1] == Left)
                && gamepad.report[ENC_2_BTN_R] == (train2[|inputs| - 1] == Right)
    {
      if inputs == [] {
        return;
      }
      ghost var w0 := Preset(colourIdx, brightness);
      ghost var writes0, content0 := presetFile.writes, presetFile.content;
      ghost var report0 := gamepad.report;
      ghost var readings1, readings2 := [lastPos1] + Positions1(inputs), [lastPos2] + Positions2(inputs);
      for i := 0 to |inputs|
        invariant Progress(inputs, i, w0, writes0, content0, report0, readings1, readings2)
      {
        Pass(inputs, i, w0, writes0, content0, report0, readings1, readings2);
      }
      LastPassReport(gamepad.report, inputs, old(lastPos1), old(lastPos2), readings1, readings2);
    }
  }

  /** Every bound button is in the report and reads pressed exactly when its pin reads low. */
  ghost predicate FollowsPins(report: map<int, bool>, input: TickInput)
    requires WellFormed(input)
  {
    forall k :: 0 <= k < |AllBindings| ==>
      AllBindings[k].button in report && report[AllBindings[k].button] == !Levels(input)[k]
  }

  /**
   * The report one pass leaves: every bound button follows its pin and each
   * pulse button says whether its encoder moved that way since the reading
   * before.
   */
  ghost predicate PassReport(report: map<int, bool>, input: TickInput, prev1: int, prev2: int)
    requires WellFormed(input)
  {
    && FollowsPins(report, input)
    && ENC_1_BTN_L in report && report[ENC_1_BTN_L] == (input.pos1 < prev1)
    && ENC_1_BTN_R in report && report[ENC_1_BTN_R] == (input.pos1 > prev1)
    && ENC_2_BTN_L in report && report[ENC_2_BTN_L] == (input.pos2 < prev2)
    && ENC_2_BTN_R in report && report[ENC_2_BTN_R] == (input.pos2 > prev2)
  }

  /** The file content after the records `saved` are written over `content0`, one after another. */
  function LastRecord(content0: Option<string>, saved: seq<string>): (content: Option<string>)
    ensures content == content0 <==> saved == [] || content0 == Some(saved[|saved| - 1])
  {
    if saved == [] then content0 else Some(saved[|saved| - 1])
  }

  /** The first encoder's reading of each pass. */
  function Positions1(inputs: seq<TickInput>): (ps: seq<int>)
    ensures |ps| == |inputs| && forall i :: 0 <= i < |inputs| ==> ps[i] == inputs[i].pos1
  {
    seq(|inputs|, i requires 0 <= i < |inputs| => inputs[i].pos1)
  }

  /** The second encoder's reading of each pass. */
  function Positions2(inputs: seq<TickInput>): (ps: seq<int>)
    ensures |ps| == |inputs| && forall i :: 0 <= i < |inputs| ==> ps[i] == inputs[i].pos2
  {
    seq(|inputs|, i requires 0 <= i < |inputs| => inputs[i].pos2)
  }

  /** The working pair after one pass: colour mode's choice after a long press, otherwise unchanged. */
  ghost function PassPair(n: nat, w: Preset, input: TickInput): Preset
    requires n > 0
  {
    if LongPressOf(input).Held? then
      match Run(n, w, input.colour.entry1, input.colour.entry2, input.colour.subTicks)
      case Some(exit) => exit.working
      case None => w
    else w
  }

  /** The preset records one pass writes: the pair colour mode chose, after a long press only. */
  ghost function PassRecords(n: nat, w: Preset, input: TickInput): seq<string>
    requires n > 0
  {
    var chosen := PassPair(n, w, input);
    if LongPressOf(input).Held? then [PresetRecord(chosen.colourIdx, chosen.brightness)] else []
  }

  /** The working pair after the first `i` passes, one after another. */
  ghost function PairAfter(n: nat, w: Preset, inputs: seq<TickInput>, i: nat): Preset
    requires n > 0 && i <= |inputs|
  {
    if i == 0 then w else PassPair(n, PairAfter(n, w, inputs, i - 1), inputs[i - 1])
  }

  /**
   * The preset records written by the first `i` passes: one per long press,
   * holding the pair colour mode chose.
   */
  ghost function SavedRecords(n: nat, w: Preset, inputs: seq<TickInput>, i: nat): seq<string>
    requires n > 0 && i <= |inputs|
  {
    if i == 0 then [] else SavedRecords(n, w, inputs, i - 1) + PassRecords(n, PairAfter(n, w, inputs, i - 1), inputs[i - 1])
  }

  /**
   * The report the last pass left, read against the whole run: each pulse
   * button is the last entry of its encoder's pulse train over the passes.
   */
  lemma LastPassReport(report: map<int, bool>, inputs: seq<TickInput>, start1: int, start2: int,
                        readings1: seq<int>, readings2: seq<int>)
    requires |inputs| > 0 && forall i :: 0 <= i < |inputs| ==> WellFormed(inputs[i])
    requires readings1 == [start1] + Positions1(inputs) && readings2 == [start2] + Positions2(inputs)
    requires PassReport(report, inputs[|inputs| - 1], readings1[|inputs| - 1], readings2[|inputs| - 1])
    ensures FollowsPins(report, inputs[|inputs| - 1])
    ensures var train1 := PulseTrain(start1, Positions1(inputs));
            var train2 := PulseTrain(start2, Positions2(inputs));
            && report[ENC_1_BTN_L] == (train1[|inputs| - 1] == Left)
            && report[ENC_1_BTN_R] == (train1[|inputs| - 1] == Right)
            && report[ENC_2_BTN_L] == (train2[|inputs| - 1] == Left)
            && report[ENC_2_BTN_R] == (train2[|inputs| - 1] == Right)
  {
    PulseTrainMovesOnly(start1, Positions1(inputs), |inputs| - 1);
    PulseTrainMovesOnly(start2, Positions2(inputs), |inputs| - 1);
  }

  /** Writing `a` and then `b` leaves what writing `a + b` at once leaves. */
  lemma LastRecordAppend(content0: Option<string>, a: seq<string>, b: seq<string>)
    ensures LastRecord(LastRecord(content0, a), b) == LastRecord(content0, a + b)
  {
    if b != [] {
      assert (a + b)[|a + b| - 1] == b[|b| - 1];
    }
  }

  /** The three binding groups mapped in turn are the whole binding list mapped at once. */
  lemma MapAllGroups(released: map<int, bool>, input: TickInput)
    requires WellFormed(input)
    ensures ApplyBindings(ApplyBindings(ApplyBindings(released, input.push, PushButtons),
                                        input.rocker, RockerButtons), input.encoderButtons, EncoderButtons)
            == ApplyBindings(released, Levels(input), AllBindings)
  {
    ApplyBindingsAppend(released, input.push, PushButtons, input.rocker, RockerButtons);
    ApplyBindingsAppend(released, input.push + input.rocker, PushButtons + RockerButtons,
                        input.encoderButtons, EncoderButtons);
  }

  /**
   * The report after the pulse buttons are released and the bindings mapped:
   * bound ids follow their pins, pulse ids are released, the rest is kept.
   */
  lemma MappedAfterRelease(r0: map<int, bool>, released: map<int, bool>, levels: seq<bool>, bindings: seq<Binding>)
    requires |levels| == |bindings|
    requires DistinctButtons(bindings)
    requires forall k :: 0 <= k < |bindings| ==> bindings[k].button !in PulseButtons && bindings[k].button in r0
    requires forall id :: id in PulseButtons ==> id in r0
    requires released.Keys == r0.Keys + set id | id in PulseButtons
    requires forall id :: id in PulseButtons ==> !released[id]
    requires forall id :: id in r0 && id !in PulseButtons ==> released[id] == r0[id]
    ensures ApplyBindings(released, levels, bindings).Keys == r0.Keys
    ensures forall k :: 0 <= k < |bindings| ==> ApplyBindings(released, levels, bindings)[bindings[k].button] == !levels[k]
    ensures forall id :: id in PulseButtons ==> !ApplyBindings(released, levels, bindings)[id]
    ensures forall id :: id in r0 && !Bound(bindings, id) && id !in PulseButtons ==>
              ApplyBindings(released, levels, bindings)[id] == r0[id]
  {
    var mapped := ApplyBindings(released, levels, bindings);
    ApplyBindingsKeys(released, levels, bindings);
    assert (set b | b in bindings :: b.button) <= r0.Keys by {
      forall b | b in bindings ensures b.button in r0 {
        var k :| 0 <= k < |bindings| && bindings[k] == b;
      }
    }
    assert (set id | id in PulseButtons) <= r0.Keys;
    forall k | 0 <= k < |bindings|
      ensures mapped[bindings[k].button] == !levels[k]
    {
      ApplyBindingsSets(released, levels, bindings, k);
    }
    forall id | id in PulseButtons
      ensures !mapped[id]
    {
      assert !Bound(bindings, id) by {
        forall k | 0 <= k < |bindings| ensures bindings[k].button != id {
        }
      }
      ApplyBindingsFrame(released, levels, bindings, id);
    }
    forall id | id in r0 && !Bound(bindings, id) && id !in PulseButtons
      ensures mapped[id] == r0[id]
    {
      ApplyBindingsFrame(released, levels, bindings, id);
    }
  }

  /** Pressing both encoders' pulses on a report whose pulse buttons are released. */
  lemma PulsesPressed(mapped: map<int, bool>, last1: int, pos1: int, last2: int, pos2: int, r: map<int, bool>)
    requires forall id :: id in PulseButtons ==> id in mapped && !mapped[id]
    requires r == PressPulse(PressPulse(mapped, PulseFor(Some(last1), pos1), ENC_1_BTN_L, ENC_1_BTN_R),
                             PulseFor(Some(last2), pos2), ENC_2_BTN_L, ENC_2_BTN_R)
    ensures r.Keys == mapped.Keys
    ensures r[ENC_1_BTN_L] == (pos1 < last1) && r[ENC_1_BTN_R] == (pos1 > last1)
    ensures r[ENC_2_BTN_L] == (pos2 < last2) && r[ENC_2_BTN_R] == (pos2 > last2)
    ensures forall id :: id in mapped && id !in PulseButtons ==> r[id] == mapped[id]
  {
    assert ENC_1_BTN_L in PulseButtons && ENC_1_BTN_R in PulseButtons;
    assert ENC_2_BTN_L in PulseButtons && ENC_2_BTN_R in PulseButtons;
  }
}
