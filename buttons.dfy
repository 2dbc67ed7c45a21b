/**
 * The logical button ids, the static pin-to-button bindings and the per-tick
 * mapping of pin levels into the gamepad report (`handle_buttons`).
 *
 * Pins are pulled up: a pin level of `true` (high) means the switch is
 * released, `false` (pulled low) means it is pressed.
 */
module Buttons {
  import opened Hid

  const BTN_0_1: int := 1
  const BTN_0_2: int := 2
  const BTN_1_1: int := 3
  const BTN_1_2: int := 4
  const BTN_1_3: int := 5
  const BTN_2_1: int := 6
  const BTN_2_2: int := 7
  const BTN_2_3: int := 8
  const BTN_3_1: int := 9
  const BTN_3_2: int := 10
  const BTN_3_3: int := 11
  const TOG_1_1: int := 15
  const TOG_1_2: int := 16
  const TOG_2_1: int := 17
  const TOG_2_2: int := 18
  const TOG_3_1: int := 19
  const TOG_3_2: int := 20
  const ENC_1: int := 22
  const ENC_1_BTN_R: int := 23
  const ENC_1_BTN_L: int := 24
  const ENC_2: int := 25
  const ENC_2_BTN_R: int := 26
  const ENC_2_BTN_L: int := 27

  /** A physical input (the number of its GPxx pin) bound to a logical button. */
  datatype Binding = Binding(pin: nat, button: int)

  const PushButtons: seq<Binding> := [
    Binding(0, BTN_0_1), Binding(1, BTN_0_2), Binding(15, BTN_1_1), Binding(5, BTN_1_2),
    Binding(2, BTN_1_3), Binding(16, BTN_2_1), Binding(6, BTN_2_2), Binding(3, BTN_2_3),
    Binding(14, BTN_3_1), Binding(7, BTN_3_2), Binding(4, BTN_3_3)]

  const RockerButtons: seq<Binding> := [
    Binding(8, TOG_1_1), Binding(9, TOG_1_2), Binding(10, TOG_2_1),
    Binding(11, TOG_2_2), Binding(12, TOG_3_1), Binding(13, TOG_3_2)]

  /** The encoders' push buttons; entry 0 (ENC_1) is the gating button of colour mode. */
  const EncoderButtons: seq<Binding> := [Binding(19, ENC_1), Binding(22, ENC_2)]

  const AllBindings: seq<Binding> := PushButtons + RockerButtons + EncoderButtons

  /** The four ids that carry encoder direction pulses. */
  const PulseButtons: seq<int> := [ENC_1_BTN_L, ENC_2_BTN_L, ENC_1_BTN_R, ENC_2_BTN_R]

  predicate Bound(bindings: seq<Binding>, id: int) {
    exists k :: 0 <= k < |bindings| && bindings[k].button == id
  }

  /**
   * The ids the main loop writes: push buttons 1-11, rocker switches 15-20,
   * and the encoder buttons and pulses 22-27. Ids 12-14, 21 and 28-32 are
   * never touched.
   */
  predicate Written(id: int) {
    1 <= id <= 11 || 15 <= id <= 20 || 22 <= id <= 27
  }

  /** No logical id is bound to two inputs. */
  predicate DistinctButtons(bindings: seq<Binding>) {
    forall j, k :: 0 <= j < k < |bindings| ==> bindings[j].button != bindings[k].button
  }

  /**
   * The report after the bindings are applied one after the other, each
   * binding setting its id to "pressed" exactly when its pin reads low.
   */
  function ApplyBindings(report: map<int, bool>, levels: seq<bool>, bindings: seq<Binding>): map<int, bool>
    requires |levels| == |bindings|
  {
    if bindings == [] then report
    else
      var n := |bindings| - 1;
      ApplyBindings(report, levels[..n], bindings[..n])[bindings[n].button := !levels[n]]
  }

  /** Ids outside the bindings keep their entry (or stay absent). */
  lemma {:induction false} ApplyBindingsFrame(report: map<int, bool>, levels: seq<bool>, bindings: seq<Binding>, id: int)
    requires |levels| == |bindings|
    requires !Bound(bindings, id)
    ensures id in ApplyBindings(report, levels, bindings) <==> id in report
    ensures id in report ==> ApplyBindings(report, levels, bindings)[id] == report[id]
  {
    if bindings != [] {
      var n := |bindings| - 1;
      assert !Bound(bindings[..n], id) by {
        forall k | 0 <= k < n ensures bindings[..n][k].button != id {
          assert bindings[..n][k] == bindings[k];
        }
      }
      ApplyBindingsFrame(report, levels[..n], bindings[..n], id);
    }
  }

  /** With distinct ids, every bound id is pressed iff its pin reads low. */
  lemma {:induction false} ApplyBindingsSets(report: map<int, bool>, levels: seq<bool>, bindings: seq<Binding>, k: nat)
    requires |levels| == |bindings|
    requires DistinctButtons(bindings)
    requires k < |bindings|
    ensures bindings[k].button in ApplyBindings(report, levels, bindings)
    ensures ApplyBindings(report, levels, bindings)[bindings[k].button] == !levels[k]
  {
    var n := |bindings| - 1;
    if k < n {
      assert DistinctButtons(bindings[..n]) by {
        forall i, j | 0 <= i < j < n ensures bindings[..n][i].button != bindings[..n][j].button {
          assert bindings[..n][i] == bindings[i] && bindings[..n][j] == bindings[j];
        }
      }
      assert bindings[..n][k] == bindings[k] && levels[..n][k] == levels[k];
      ApplyBindingsSets(report, levels[..n], bindings[..n], k);
    }
  }

  /** The key set grows by exactly the bound ids. */
  lemma {:induction false} ApplyBindingsKeys(report: map<int, bool>, levels: seq<bool>, bindings: seq<Binding>)
    requires |levels| == |bindings|
    ensures ApplyBindings(report, levels, bindings).Keys == report.Keys + set b | b in bindings :: b.button
  {
    if bindings != [] {
      var n := |bindings| - 1;
      ApplyBindingsKeys(report, levels[..n], bindings[..n]);
      assert bindings == bindings[..n] + [bindings[n]];
      assert (set b | b in bindings :: b.button)
          == (set b | b in bindings[..n] :: b.button) + {bindings[n].button};
    }
  }

  /** Applying two binding lists in turn is applying their concatenation. */
  lemma {:induction false} ApplyBindingsAppend(report: map<int, bool>, l1: seq<bool>, b1: seq<Binding>, l2: seq<bool>, b2: seq<Binding>)
    requires |l1| == |b1| && |l2| == |b2|
    ensures ApplyBindings(ApplyBindings(report, l1, b1), l2, b2) == ApplyBindings(report, l1 + l2, b1 + b2)
  {
    if b2 == [] {
      assert l1 + l2 == l1 && b1 + b2 == b1;
    } else {
      var n := |b2| - 1;
      ApplyBindingsAppend(report, l1, b1, l2[..n], b2[..n]);
      assert (l1 + l2)[..|l1| + n] == l1 + l2[..n];
      assert (b1 + b2)[..|b1| + n] == b1 + b2[..n];
    }
  }

  /** Mapping the same sample twice gives the same report as mapping it once. */
  lemma ApplyBindingsIdempotent(report: map<int, bool>, levels: seq<bool>, bindings: seq<Binding>)
    requires |levels| == |bindings|
    requires DistinctButtons(bindings)
    ensures ApplyBindings(ApplyBindings(report, levels, bindings), levels, bindings) == ApplyBindings(report, levels, bindings)
  {
    var once := ApplyBindings(report, levels, bindings);
    var twice := ApplyBindings(once, levels, bindings);
    ApplyBindingsKeys(report, levels, bindings);
    ApplyBindingsKeys(once, levels, bindings);
    forall id | id in twice ensures twice[id] == once[id] {
      if Bound(bindings, id) {
        var k :| 0 <= k < |bindings| && bindings[k].button == id;
        ApplyBindingsSets(report, levels, bindings, k);
        ApplyBindingsSets(once, levels, bindings, k);
      } else {
        ApplyBindingsFrame(once, levels, bindings, id);
      }
    }
  }

  /** The static configuration never binds one id twice, and never binds a pulse id. */
  lemma StaticBindingsDistinct()
    ensures DistinctButtons(AllBindings)
    ensures forall k :: 0 <= k < |AllBindings| ==> AllBindings[k].button !in PulseButtons && IsButton(AllBindings[k].button)
  {
  }

  /** The ids the main loop writes are exactly the bound ids and the pulse ids. */
  lemma WrittenExactly()
    ensures forall id :: Written(id) <==> Bound(AllBindings, id) || id in PulseButtons
  {
    assert forall k :: 0 <= k < |AllBindings| ==> Written(AllBindings[k].button);
    forall id | Written(id) && id !in PulseButtons
      ensures Bound(AllBindings, id)
    {
      var k := if id <= 11 then id - 1 else if id <= 20 then id - 4 else if id == 22 then 17 else 18;
      assert AllBindings[k].button == id;
    }
  }

  /**
   * handle_buttons: walks the bindings in order and presses each id whose pin
   * reads low, releasing it otherwise.
   */
  method HandleButtons(levels: seq<bool>, bindings: seq<Binding>, gamepad: Gamepad)
    requires |levels| == |bindings|
    requires gamepad.Valid()
    modifies gamepad
    ensures gamepad.Valid()
    ensures gamepad.report == ApplyBindings(old(gamepad.report), levels, bindings)
  {
    var i := 0;
    while i < |bindings|
      invariant 0 <= i <= |bindings|
      invariant gamepad.Valid()
      invariant gamepad.report == ApplyBindings(old(gamepad.report), levels[..i], bindings[..i])
    {
      var button := bindings[i].button;
      assert levels[..i + 1][..i] == levels[..i] && bindings[..i + 1][..i] == bindings[..i];
      ghost var before := gamepad.report;
      if levels[i] {
        gamepad.ReleaseButtons([button]);
        assert gamepad.report == before[button := false] by {
          assert gamepad.report.Keys == before.Keys + {button};
          forall id | id in gamepad.report ensures gamepad.report[id] == before[button := false][id] {
            if id != button { assert id !in [button]; }
          }
        }
      } else {
        gamepad.PressButtons(button);
      }
      i := i + 1;
    }
    assert levels[..i] == levels && bindings[..i] == bindings;
  }
}
