/**
 * Whole-controller runs: a freshly built controller driven by concrete
 * samples, with the exact event log and lookups each run produces.
 */
module Scenarios {
  import opened Wrappers
  import opened Events
  import opened Sticks
  import opened Buttons
  import opened SwitchPro

  /** On a fresh controller an all-zero sample with no button pressed emits nothing. */
  method FreshZeroSampleIsSilent() returns (c: Controller)
    ensures c.Valid() && c.events == []
  {
    c := new Controller();
    InitStickAtRest("left");
    InitStickAtRest("right");
    InitStickAtRest("pad");
    c.UpdateSticks([0, 0, 0, 0, 0, 0]);
    ZeroMaskOnInitialIsSilent();
    c.UpdateButtons(0);
  }

  /**
   * Pressing button k alone on a fresh controller emits exactly its event,
   * and its state then reads back as pressed.
   */
  method PressOnly(k: nat) returns (c: Controller, state: int, err: Option<LookupError>)
    requires k < |Codes|
    ensures c.Valid()
    ensures c.events == [ButtonEv(ButtonNames[k], 1)]
    ensures state == 1 && err == None
  {
    c := new Controller();
    SingleCodePressesOne(c.buttons, k);
    CodesBelow();
    c.UpdateButtons(Codes[k]);
    ButtonNamesDistinct();
    state, err := c.GetButtonState(ButtonNames[k]);
  }

  /**
   * A fresh controller reads back at rest: the left stick centred with the
   * default bounds, button "a" released, and an unknown name fails.
   */
  method FreshReadsAtRest()
    returns (left: Result<Stick, LookupError>, a: Result<Button, LookupError>, q: Result<Button, LookupError>)
    ensures left == Success(InitStick("left"))
    ensures a == Success(Button("a", 0, 2))
    ensures q == Failure(ButtonNotFound)
  {
    var c := new Controller();
    ButtonNamesDistinct();
    InitialButtonsTable();
    assert c.sticks[0].name == "left";
    assert c.buttons[12] == Button("a", 0, 2);
    left := c.GetStick("left");
    a := c.GetButton("a");
    q := c.GetButton("q");
  }

  /**
   * Calibration of the left stick: a full deflection reads 100, half of it
   * 50; a wider deflection moves the bound, and the old half deflection
   * then reads 50 of the new range.
   */
  method LeftStickCalibration() returns (c: Controller)
    ensures c.events == [
      StickEv("left", 100.0, 0.0), StickEv("left", 50.0, 0.0),
      StickEv("left", 100.0, 0.0), StickEv("left", 50.0, 0.0)]
  {
    c := new Controller();
    c.UpdateSticks([20000, 0, 0, 0, 0, 0]);
    c.UpdateSticks([10000, 0, 0, 0, 0, 0]);
    c.UpdateSticks([40000, 0, 0, 0, 0, 0]);
    c.UpdateSticks([20000, 0, 0, 0, 0, 0]);
  }
}
