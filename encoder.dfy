/**
 * Encoder direction pulses (`handle_encoder`): a new position compared with
 * the last recorded one presses exactly one of the encoder's "left" and
 * "right" buttons, or nothing when the encoder did not move.
 */
module Encoder {
  import opened Wrappers
  import opened Hid

  datatype Pulse = NoPulse | Left | Right

  /**
   * The pulse for a reading `pos` after `lastPos`. With no prior position a
   * positive reading counts as a right turn and any other as a left turn.
   */
  function PulseFor(lastPos: Option<int>, pos: int): (p: Pulse)
    ensures p == NoPulse <==> lastPos == Some(pos)
    ensures lastPos.Some? ==> (p == Left <==> pos < lastPos.value)
    ensures lastPos.Some? ==> (p == Right <==> pos > lastPos.value)
    ensures lastPos.None? ==> (p == Left <==> pos <= 0)
    ensures lastPos.None? ==> (p == Right <==> 0 < pos)
  {
    if lastPos.None? || pos != lastPos.value then
      if lastPos.None? then
        if pos > 0 then Right else Left
      else if lastPos.value > pos then Left
      else Right
    else NoPulse
  }

  /** The report after pressing the button of `pulse`, if any. */
  function PressPulse(report: map<int, bool>, pulse: Pulse, left: int, right: int): map<int, bool> {
    match pulse
    case NoPulse => report
    case Left => report[left := true]
    case Right => report[right := true]
  }

  /** handle_encoder: press the pulse's button and return the reading as the new last position. */
  method HandleEncoder(pos: int, lastPos: Option<int>, left: int, right: int, gamepad: Gamepad) returns (newLast: int)
    requires gamepad.Valid()
    modifies gamepad
    ensures gamepad.Valid()
    ensures newLast == pos
    ensures gamepad.report == PressPulse(old(gamepad.report), PulseFor(lastPos, pos), left, right)
  {
    if lastPos.None? || pos != lastPos.value {
      if lastPos.None? {
        if pos > 0 {
          gamepad.PressButtons(right);
        } else {
          gamepad.PressButtons(left);
        }
      } else if lastPos.value > pos {
        gamepad.PressButtons(left);
      } else {
        gamepad.PressButtons(right);
      }
    }
    newLast := pos;
  }

  /**
   * Pulses seen by the main loop over successive readings, each compared
   * with the reading before it; `main` seeds the first comparison with 0.
   * The main loop's report carries, for each encoder, the last entry of its
   * train (`Controller.ButtonBox.MainLoop`).
   */
  function PulseTrain(last: int, positions: seq<int>): (pulses: seq<Pulse>)
    ensures |pulses| == |positions|
    decreases positions
  {
    if positions == [] then []
    else [PulseFor(Some(last), positions[0])] + PulseTrain(positions[0], positions[1..])
  }

  /** A pulse is emitted exactly on the readings that differ from the one before. */
  lemma {:induction false} PulseTrainMovesOnly(last: int, positions: seq<int>, k: nat)
    requires k < |positions|
    ensures PulseTrain(last, positions)[k] == NoPulse <==> positions[k] == (if k == 0 then last else positions[k - 1])
    ensures PulseTrain(last, positions)[k] == Right <==> positions[k] > (if k == 0 then last else positions[k - 1])
    decreases k
  {
    if k > 0 {
      PulseTrainMovesOnly(positions[0], positions[1..], k - 1);
    }
  }

  /** The readings 1, 1, -1, -1, 2 after a seed of 0 give right, none, left, none, right. */
  lemma PulseTrainExample()
    ensures PulseTrain(0, [1, 1, -1, -1, 2]) == [Right, NoPulse, Left, NoPulse, Right]
  {
  }
}
