/**
 * The outbound gamepad report. The HID transport itself is not part of this
 * model: the report is the map from logical button id to "pressed", and the
 * two operations the core uses on it are press and release.
 */
module Hid {

  /** The report descriptor declares usages Button 1 .. Button 32. */
  const ButtonCount: int := 32

  predicate IsButton(id: int) {
    1 <= id <= ButtonCount
  }

  /** The ids the report carries (the `IsButton` conjunct is the comprehension's trigger). */
  function Buttons(): (ids: set<int>)
    ensures forall id :: id in ids <==> IsButton(id)
  {
    set id | 1 <= id <= ButtonCount && IsButton(id)
  }

  class Gamepad {
    var report: map<int, bool>

    /** Every button of the descriptor has an entry in the report. */
    ghost predicate Valid()
      reads this
    {
      forall id :: IsButton(id) ==> id in report
    }

    /** A fresh gamepad reports every button released. */
    constructor ()
      ensures Valid()
      ensures report.Keys == Buttons()
      ensures forall id :: id in report ==> !report[id]
    {
      report := map id | id in Buttons() :: false;
    }

    method PressButtons(id: int)
      requires Valid()
      modifies this
      ensures Valid()
      ensures report == old(report)[id := true]
    {
      report := report[id := true];
    }

    /** Releases every id of `ids` and leaves every other entry alone. */
    method ReleaseButtons(ids: seq<int>)
      requires Valid()
      modifies this
      ensures Valid()
      ensures report.Keys == old(report).Keys + set id | id in ids
      ensures forall id :: id in ids ==> !report[id]
      ensures forall id :: id in old(report) && id !in ids ==> report[id] == old(report)[id]
    {
      report := map id | id in report.Keys + (set i | i in ids) :: if id in ids then false else report[id];
    }
  }
}
