# ButtonBox input core, in Dafny

A model of the firmware of a USB gamepad "button box" (`code.py`). Each pass of
the main loop does the following:

- maps the push buttons, rocker switches and encoder push buttons into the
  gamepad report;
- turns each rotary encoder's movement into a one-pass "left" or "right"
  button pulse;
- checks for a long press of encoder 1's button.

A long press enters colour-change mode. There, encoder 1 steps through the
LED palette and encoder 2 steps the brightness. When the button is released,
the mode saves the chosen pair as a one-line preset record. At start-up the
record is loaded (with a fallback) and range-checked.

Modelling choices:

- Brightness is an integer number of hundredths (0.05 is 5, 1.0 is 100, step 5,
  fallback 20). Time is in integer milliseconds (the 3.0 s threshold is 3000).
- The palette size is a parameter `n > 0`. The palette itself lives in the
  `colours` module, which is not part of this model.
- Hardware reads are parameters. A `TickInput` holds, in reading order:
  - the pin levels of every binding (`true` = high = released, as the
    pull-up pins read);
  - both encoder positions;
  - the long-press trace: the gating pin at entry, the clock, then each
    poll's pin level and clock;
  - the colour-mode trace: the entry positions, then each sub-tick's two
    positions and gating pin level.
- The gamepad is the `Gamepad` class. Its field `report` maps each of the 32
  buttons declared by `boot.py`'s report descriptor to "pressed".
- The controller is the `ButtonBox` class. It holds the last encoder
  positions and the working colour index and brightness.
- The preset file is the `PresetFile` class. It holds the file's content and
  a ghost history of what was written.
- Text handling follows CircuitPython, the runtime code.py runs on: `strip`
  removes exactly space, tab, newline, carriage return, vertical tab and form
  feed.

Modules: `Hid` (gamepad.dfy), `Buttons`, `Encoder`, `LongPress`, `Lighting`,
`Preset`, `ColourMode`, `Controller` (button_box.dfy) and `Wrappers`.

Behaviour of code.py worth noting (the model follows it in each case):

- A first encoder reading with no prior position counts as a right turn only
  when it is positive; 0 counts as left.
- `main` seeds both last positions with 0, not with the power-on reading.
- A long press needs elapsed time strictly greater than the threshold.
- Range checking of a loaded preset happens in `main`, not in `load_preset`.

## Model

| member | source | states |
|---|---|---|
| Hid.Gamepad.constructor | code.py:216 | a new gamepad has an entry for each of the 32 buttons, all released |
| Hid.Gamepad.PressButtons | code.py:152 | pressing sets exactly that id to pressed; every button keeps its entry |
| Hid.Gamepad.ReleaseButtons | code.py:221 | every listed id is released and every other entry is unchanged |
| Buttons.StaticBindingsDistinct | code.py:20-46 | the 19 static bindings use distinct ids; none is an encoder pulse id; all are within the 32 report buttons |
| Buttons.WrittenExactly | code.py:20-46 | the ids a pass writes (1-11, 15-20, 22-27) are exactly the bound ids and the four encoder pulse ids; ids 12-14, 21 and 28-32 are never written |
| Buttons.HandleButtons | code.py:146-152 | after the loop, the report equals the bindings applied in order, each id pressed iff its pin reads low |
| Buttons.ApplyBindingsSets | code.py:146-152 | with distinct ids, each bound id is in the report, pressed iff its pin reads low and released iff it reads high |
| Buttons.ApplyBindingsFrame | code.py:146-152 | an id not in the binding list keeps its entry (or stays absent) |
| Buttons.ApplyBindingsKeys | code.py:146-152 | the report's keys grow by exactly the bound ids |
| Buttons.ApplyBindingsIdempotent | code.py:146-152 | mapping the same sample twice gives the same report as mapping it once |
| Buttons.ApplyBindingsAppend | code.py:223-225 | mapping one binding list and then a second equals mapping their concatenation in one go |
| Encoder.PulseFor | code.py:163-179 | no pulse iff the position equals the last one; left iff it decreased, right iff it increased; with no prior position, right iff positive and left otherwise (0 counts as left) |
| Encoder.HandleEncoder | code.py:163-181 | presses exactly the pulse's button and nothing else, and returns the reading as the new last position |
| Encoder.PulseTrainMovesOnly | code.py:212-228 | across successive passes, a pulse appears exactly on readings that differ from the previous one, and it is "right" exactly when the reading went up |
| Encoder.PulseTrainExample | code.py:212-228 | readings 1, 1, -1, -1, 2 after the 0 seed give right, none, left, none, right |
| LongPress.DetectLongPress | code.py:83-95 | the polling loop returns exactly the outcome of the trace's specification `Detect` |
| LongPress.DetectNotPressed | code.py:83-95 | the call ends at once, with no poll, iff the button reads released at entry |
| LongPress.DetectHeld | code.py:85-92 | a long press at poll m iff: pressed at entry; held through polls 0..m with elapsed time at most the duration before m; elapsed time strictly greater at m |
| LongPress.DetectReleased | code.py:88-94 | a release at poll m iff: pressed at entry; poll m reads released; every earlier poll was held at or below the threshold |
| LongPress.DetectWaiting | code.py:88-92 | the trace runs out undecided only when every poll saw the button held at or below the threshold |
| LongPress.DetectExamples | code.py:49-49 | a 3.5 s hold is a long press; a release after 1 s is not; a button never pressed answers false immediately |
| Lighting.ColourStep | code.py:103-110 | no move keeps the index; any move yields an index in [0, n); from an index in range, right goes to the next index with n-1 wrapping to 0, and left goes to the previous with 0 wrapping to n-1 (one step whatever the delta) |
| Lighting.ColourWrapExamples | code.py:106-109 | 0 stepped left is n-1, and n-1 stepped right is 0 |
| Lighting.BrightnessUp | code.py:117-118 | the result is b+STEP or MAX, whichever is smaller: never above MAX, never above b+STEP |
| Lighting.BrightnessDown | code.py:120-121 | the result is b-STEP or MIN, whichever is larger: never below MIN, never below b-STEP |
| Lighting.BrightnessStep | code.py:115-124 | no move keeps the brightness; a move right is exactly one clamped up-step and a move left exactly one clamped down-step, whatever the delta; a brightness in [MIN, MAX] stays there; right does not dim, left does not brighten, except when clamping to a bound |
| Lighting.UpStepsSaturate | code.py:115-118 | k up-steps from b at most MAX give min(b + k*STEP, MAX) |
| Lighting.DownStepsSaturate | code.py:115-121 | k down-steps from b at least MIN give max(b - k*STEP, MIN) |
| Lighting.SaturationExamples | code.py:52-54 | from 0.95 any number of up-steps ends at 1.0; from 0.1 any number of down-steps ends at 0.05 |
| Preset.IntText | code.py:69 | the printed index is non-empty numeral text, starts with '-' iff negative, ends in a digit |
| Preset.BrightnessText | code.py:69 | the printed brightness is non-empty numeral text, starts with '-' iff negative, ends in a digit |
| Preset.PresetRecord | code.py:66-69 | the saved record is one line: a newline at the end and nowhere else |
| Preset.DigitsValue | code.py:78 | reading back the printed digits of a natural gives that natural |
| Preset.ReadLineStopsAtNewline | code.py:76 | readline returns the text up to and including the first newline |
| Preset.ReadLineNoNewline | code.py:76 | readline of a last line without a newline returns the whole line |
| Preset.FirstLineStrips | code.py:76-77 | a trimmed line followed by a newline reads and strips to itself, whatever follows |
| Preset.FirstLineStripsCrLf | code.py:76-77 | a trimmed line followed by CR LF reads and strips to itself: strip drops the carriage return too |
| Preset.StripNewline | code.py:77 | text with no white space at either end strips to itself, also after a trailing newline |
| Preset.SplitWithout | code.py:77 | text without the separator splits into one piece |
| Preset.SplitAtFirst | code.py:77 | splitting at a first separator yields the part before it, then the split of the rest |
| Preset.ParseInt | code.py:78 | int() succeeds exactly on text that, stripped, is ASCII digits with at most one leading sign and at least one digit; a negative value comes only from a leading '-' |
| Preset.IntTextParses | code.py:78 | int() of a printed index gives that index |
| Preset.BrightnessTextParses | code.py:78 | float() of a printed brightness gives that brightness |
| Preset.LoadPreset | code.py:73-81 | a file that cannot be opened loads as the fallback (0, 0.2) |
| Preset.SavedRecordFields | code.py:66-77 | a saved record's first line, stripped and split at commas, is exactly the index text and the brightness text |
| Preset.LoadSaved | code.py:66-81 | loading a record that save_preset wrote gives the saved pair, whatever follows the first line |
| Preset.LoadWithoutComma | code.py:73-81 | a first line without a comma, an empty file and a missing file all load as (0, 0.2) |
| Preset.LoadExtraField | code.py:73-81 | a first line that strips to three comma-separated fields (whatever its line ending, or none) loads as the fallback (0, 0.2) |
| Preset.LoadUnparsableField | code.py:73-81 | a first line that strips to two fields (whatever its line ending, or none) loads as the fallback (0, 0.2) whenever int() rejects the first or float() rejects the second |
| Preset.LoadExtraFieldExample | code.py:73-81 | "1,0.5,2" loads as the fallback |
| Preset.LoadExtraFieldLine | code.py:73-81 | in particular, a trimmed three-field first line followed by a newline loads as the fallback, whatever follows |
| Preset.LoadUnparsableFieldLine | code.py:73-81 | in particular, a trimmed two-field first line followed by a newline loads as the fallback when either field does not parse |
| Preset.LoadExtraFieldCrLf | code.py:76-81 | "1,0.5,2" with a CR LF line ending loads as the fallback |
| Preset.LoadExtraFieldUnterminated | code.py:76-81 | "1,0.5,2" as a last line without a newline loads as the fallback |
| Preset.LoadWordIndexExample | code.py:73-81 | "one,0.5" loads as the fallback |
| Preset.WordIsNotBrightness | code.py:78 | a lower-case word such as "bright" is no brightness (Python's float() would also take inf and nan, which the brightness parser does not model; see Left out) |
| Preset.LoadWordBrightnessExample | code.py:73-81 | "1,bright" loads as the fallback |
| Preset.ValidatePreset | code.py:196-205 | the start-up pair is always in range; an index outside [0, n) becomes 0 and a brightness outside [0.05, 1.0] becomes 0.2; in-range values are kept |
| Preset.StartupAsWritten | code.py:196-207 | as written, start-up crashes exactly when the range check would have to substitute a fallback, and otherwise agrees with it |
| Preset.StartupCrashesOnBrightRecord | code.py:194-207 | the record "0,5.0" loads as (0, 5.0); as written, start-up crashes on it; the intended fallback gives (0, 0.2) |
| Preset.PresetFile.Save | code.py:66-71 | the file afterwards holds exactly the one-line record of the pair, and one write is added to the history |
| Preset.PresetFile.Load | code.py:73-81 | returns the pair the record holds, or the fallback when there is no file |
| ColourMode.FirstRelease | code.py:127-131 | the first sub-tick that reads the gating button released: it reads released and no earlier one does |
| ColourMode.RunEndsAtFirstRelease | code.py:102-133 | the mode ends exactly on the first sub-tick that reads the gating button released; only a trace without one leaves it running |
| ColourMode.RunKeepsRange | code.py:103-124 | a working pair that starts in range leaves in range |
| ColourMode.RunStationary | code.py:100-124 | with both encoders left at their entry positions, the mode returns the pair it was given (entry positions are the reference) |
| ColourMode.FullTurnExample | code.py:103-124 | three right turns on a 3-colour palette come back to the start; one left jump of 4 moves the index only one step and one up jump of 9 moves brightness only one step, clamped at 1.0 |
| ColourMode.ColourChangeMode | code.py:97-133 | the loop returns the pair the mode specification gives at the first release; it saves exactly that pair, once |
| Controller.ButtonBox.constructor | code.py:194-213 | start-up as corrected (see Findings): the working pair is the loaded record after the range check of Preset.ValidatePreset, both last positions are 0, and the report holds exactly the 32 descriptor buttons, every one released |
| Controller.MapAllGroups | code.py:223-225 | mapping the push, rocker and encoder-button groups in turn equals mapping all bindings at once |
| Controller.MappedAfterRelease | code.py:221-225 | after releasing the pulse ids and mapping: bound ids follow their pins, pulse ids are released, every other id keeps its entry |
| Controller.PulsesPressed | code.py:227-228 | on that report, encoder 1's left or right id is pressed iff its position went down or up, likewise for encoder 2, and nothing else changes |
| Controller.ButtonBox.UpdateReport | code.py:219-228 | after the report half of a pass: each bound id is pressed iff its pin reads low; a pulse id is pressed iff its encoder moved that way since the last pass (so a stationary encoder has no pulse); every id the pass never writes (12-14, 21, 28-32) keeps its value and the key set is unchanged; the last positions become the new readings |
| Controller.ButtonBox.Tick | code.py:219-233 | the report as in UpdateReport, with the unwritten ids keeping their values; after a long press the working pair is colour mode's result, saved once; otherwise the pair and the preset file are unchanged |
| Controller.LastRecord | code.py:66-71 | the file content after a list of writes is the last record written, and is the earlier content only when nothing, or that same record, was written |
| Controller.LastRecordAppend | code.py:66-71 | writing one list of records and then a second leaves the file as writing both in one go would |
| Controller.LastPassReport | code.py:212-228 | the report the last pass left, read against the whole run: bound ids follow the last pass's pins and each pulse id is the last entry of its encoder's pulse train from the start positions |
| Controller.ButtonBox.Pass | code.py:219-233 | one pass of the main loop keeps its account: the pair and the file follow the per-pass colour-mode choices and records so far, unwritten ids keep their values, and the report is that pass's |
| Controller.ButtonBox.MainLoop | code.py:219-233 | over any sequence of passes: the working pair is colour mode's choice at each long press in turn (unchanged without one); the writes are one record per long press, in order, and the file holds the last; the report is the final pass's, bound ids following its pins and each pulse id the last entry of its encoder's pulse train; ids 12-14, 21 and 28-32, which no pass writes, keep their values; with no passes the report, the pair, the file and the last positions are all unchanged; every report button keeps its entry and the pair stays in range |

## Left out

- boot.py: the report descriptor and the USB/storage set-up are configuration with no logic. The only thing taken from it is the count of 32 buttons.
- Pin and pixel set-up (`setup_buttons`, `setup_neopixels`) and the `pixels.fill` / `brightness` / `show` calls drive foreign hardware libraries. Quadrature decoding in `rotaryio` and the HID transport inside `Gamepad` are foreign too. The gamepad is only its report map, and the library's own range check on ids is not modelled.
- `log_debug`, the rotating log file and every `print` have no effect on state.
- `sleep` calls are not modelled. `time.monotonic` is replaced by the clock values in the long-press trace.
- Controller.ButtonBox.Tick: requires the pass to finish within its traces: the long-press wait must decide, and colour mode must see a release. A button held forever and a colour mode never left, both of which block the source indefinitely, are not modelled.
- Preset.PresetFile.Save: a failing write (caught and printed in the source) is not modelled; the model's save always succeeds.
- Preset.BrightnessText: brightness is exact hundredths. Float rounding drift (CircuitPython floats are single precision) from repeated ±0.05 steps, and Python's exponent notation for huge magnitudes, are not modelled.
- Preset.ParseBrightness: accepts an optional sign, digits and at most two fraction digits. Text that Python's float() also accepts (exponents, inf, nan, underscores, more fraction digits) is treated as a parse failure, so it gives the fallback rather than a value for the start-up check.
- Preset.ParseInt: accepts an optional sign and ASCII digits. Underscore separators, which the runtime's int() may accept, are treated as a parse failure.
- Preset.IsSpace: follows CircuitPython's six white-space characters. Under CPython `str.strip` would also remove further Unicode white space (for example U+0085 and U+00A0), which is not modelled.
- The `COLOUR` / `BRIGHTNESS` pixel initialisation is modelled only as the crash it causes (see Findings). Colour mode is given `pixels.brightness` in the source; the model assumes the pixel library returns the brightness it was last given, and so passes the working brightness.
- After colour mode, `main` does not update its last encoder positions. The first pass afterwards therefore pulses for any turn made during colour mode. The model keeps this: `Tick` compares with the positions from before the mode.
- Controller.ButtonBox.constructor: follows the corrected start-up (Preset.ValidatePreset), not the crash code.py:207 has as written when a loaded value is out of range. That crash is modelled separately by Preset.StartupAsWritten (see Findings).
- Encoder.PulseFor: its no-prior-position branch is modelled, but `main` never reaches it because it seeds both positions with 0.

## Findings

| source | as written | input that shows it | evidently intended | confidence | as-written member | corrected member |
|---|---|---|---|---|---|---|
| code.py:196-207 | `COLOUR` and `BRIGHTNESS` are assigned inside `main`, so they are locals of `main`, bound only on the in-range branches. Line 207 reads both, which raises the local-variable-before-assignment error (`NameError` on CircuitPython, `UnboundLocalError` on CPython) whenever either loaded value is out of range. | preset.txt holding `0,5.0` (brightness 5.0 > 1.0) | fall back to colour index 0 / brightness 0.2 and start normally | high (Python scoping rule); not executed | Preset.StartupAsWritten | Preset.ValidatePreset |
