/**
 * The controller: a fixed table of three sticks and fourteen buttons, the
 * lookups by name, the per-sample updates and the ordered event output.
 */
module SwitchPro {
  import opened Wrappers
  import opened Events
  import opened Sticks
  import opened Buttons

  datatype LookupError = StickNotFound | ButtonNotFound

  /** Stick names in table order. */
  const StickNames: seq<string> := ["left", "right", "pad"]

  /** Position of a known stick name in the table. */
  function StickSlot(name: string): (i: nat)
    requires name in StickNames
    ensures i < |StickNames| && StickNames[i] == name
  {
    if name == "left" then 0 else if name == "right" then 1 else 2
  }

  /** The stick table: the fixed names in order, every stick calibrated. */
  ghost predicate StickTable(ss: seq<Stick>)
  {
    && |ss| == |StickNames|
    && forall i :: 0 <= i < |ss| ==> ss[i].name == StickNames[i] && Calibrated(ss[i])
  }

  class Controller {
    var sticks: seq<Stick>
    var buttons: seq<Button>
    /** Every event emitted so far, oldest first. */
    var events: seq<Event>

    /**
     * The fixed tables: stick and button names and button codes never
     * change, every stick is calibrated and every button state is 0 or 1.
     */
    ghost predicate Valid()
      reads this
    {
      && StickTable(sticks)
      && ButtonTable(buttons)
    }

    /** A controller at rest with default calibration and no events. */
    constructor ()
      ensures Valid()
      ensures sticks == [InitStick("left"), InitStick("right"), InitStick("pad")]
      ensures buttons == InitialButtons
      ensures forall i :: 0 <= i < |buttons| ==> buttons[i].state == 0
      ensures events == []
    {
      sticks := [InitStick("left"), InitStick("right"), InitStick("pad")];
      buttons := InitialButtons;
      InitialButtonsTable();
      events := [];
    }

    /** Position of the first stick called name, if any. */
    method FindStick(name: string) returns (slot: Option<nat>)
      ensures slot.Some? ==>
        && slot.value < |sticks|
        && sticks[slot.value].name == name
        && forall j :: 0 <= j < slot.value ==> sticks[j].name != name
      ensures slot.None? ==> forall j :: 0 <= j < |sticks| ==> sticks[j].name != name
    {
      var i := 0;
      while i < |sticks|
        invariant 0 <= i <= |sticks|
        invariant forall j :: 0 <= j < i ==> sticks[j].name != name
      {
        if sticks[i].name == name {
          return Some(i);
        }
        i := i + 1;
      }
      return None;
    }

    /** Position of the first button called name, if any. */
    method FindButton(name: string) returns (slot: Option<nat>)
      ensures slot.Some? ==>
        && slot.value < |buttons|
        && buttons[slot.value].name == name
        && forall j :: 0 <= j < slot.value ==> buttons[j].name != name
      ensures slot.None? ==> forall j :: 0 <= j < |buttons| ==> buttons[j].name != name
    {
      var i := 0;
      while i < |buttons|
        invariant 0 <= i <= |buttons|
        invariant forall j :: 0 <= j < i ==> buttons[j].name != name
      {
        if buttons[i].name == name {
          return Some(i);
        }
        i := i + 1;
      }
      return None;
    }

    /** The first stick called name, or StickNotFound. */
    method GetStick(name: string) returns (r: Result<Stick, LookupError>)
      ensures r.Success? ==>
        exists i :: 0 <= i < |sticks| && sticks[i] == r.value && sticks[i].name == name
          && forall j :: 0 <= j < i ==> sticks[j].name != name
      ensures r.Failure? ==>
        r.error == StickNotFound && forall j :: 0 <= j < |sticks| ==> sticks[j].name != name
    {
      var slot := FindStick(name);
      if slot.None? {
        return Failure(StickNotFound);
      }
      return Success(sticks[slot.value]);
    }

    /** The first button called name, or ButtonNotFound. */
    method GetButton(name: string) returns (r: Result<Button, LookupError>)
      ensures r.Success? ==>
        exists i :: 0 <= i < |buttons| && buttons[i] == r.value && buttons[i].name == name
          && forall j :: 0 <= j < i ==> buttons[j].name != name
      ensures r.Failure? ==>
        r.error == ButtonNotFound && forall j :: 0 <= j < |buttons| ==> buttons[j].name != name
    {
      var slot := FindButton(name);
      if slot.None? {
        return Failure(ButtonNotFound);
      }
      return Success(buttons[slot.value]);
    }

    /** The state of the first button called name, or 0 with ButtonNotFound. */
    method GetButtonState(name: string) returns (state: int, err: Option<LookupError>)
      ensures err.None? ==>
        exists i :: 0 <= i < |buttons| && buttons[i].state == state && buttons[i].name == name
          && forall j :: 0 <= j < i ==> buttons[j].name != name
      ensures err.Some? ==>
        state == 0 && err.value == ButtonNotFound
          && forall j :: 0 <= j < |buttons| ==> buttons[j].name != name
    {
      var slot := FindButton(name);
      if slot.None? {
        return 0, Some(ButtonNotFound);
      }
      return buttons[slot.value].state, None;
    }

    /** Emits a stick event carrying the stick's current position. */
    method EventChangeStick(stick: Stick)
      modifies this
      ensures events == old(events) + [StickEv(stick.name, stick.x, stick.y)]
      ensures sticks == old(sticks) && buttons == old(buttons)
    {
      events := events + [StickEv(stick.name, stick.x, stick.y)];
    }

    /** Emits a button event carrying the button's current state. */
    method EventChangeButton(button: Button)
      modifies this
      ensures events == old(events) + [ButtonEv(button.name, button.state)]
      ensures sticks == old(sticks) && buttons == old(buttons)
    {
      events := events + [ButtonEv(button.name, button.state)];
    }

    /**
     * Applies one raw sample (x, y) to the named stick: widens its bounds,
     * normalises both axes and emits one event if either axis moved. No
     * other stick and no button changes.
     */
    method UpdateStick(name: string, x: int, y: int)
      requires Valid() && name in StickNames
      modifies this
      ensures Valid()
      ensures buttons == old(buttons)
      ensures sticks == old(sticks)[StickSlot(name) := StickStep(old(sticks)[StickSlot(name)], x, y)]
      ensures events == old(events) + StickChange(old(sticks)[StickSlot(name)], sticks[StickSlot(name)])
    {
      var slot := FindStick(name);
      assert sticks[StickSlot(name)].name == name;
      var i := slot.value;
      assert i == StickSlot(name);
      var stick := sticks[i];
      ghost var target := StickStep(stick, x, y);
      var valueChanged := false;
      if x < stick.xMin {
        stick := stick.(xMin := x);
      } else if x > stick.xMax {
        stick := stick.(xMax := x);
      }
      if y < stick.yMin {
        stick := stick.(yMin := y);
      } else if y > stick.yMax {
        stick := stick.(yMax := y);
      }
      assert (stick.xMin, stick.xMax) == Widen(x, sticks[i].xMin, sticks[i].xMax);
      assert (stick.yMin, stick.yMax) == Widen(y, sticks[i].yMin, sticks[i].yMax);
      var newX: real;
      var newY: real;
      if x > 0 {
        newX := (100.0 * x as real) / stick.xMax as real;
      } else if x < 0 {
        newX := (-100.0 * x as real) / stick.xMin as real;
      } else {
        newX := 0.0;
      }
      assert newX == target.x;
      if newX != stick.x {
        stick := stick.(x := newX);
        valueChanged := true;
      }
      if y > 0 {
        newY := (-100.0 * y as real) / stick.yMax as real;
      } else if y < 0 {
        newY := (100.0 * y as real) / stick.yMin as real;
      } else {
        newY := 0.0;
      }
      assert newY == target.y;
      if newY != stick.y {
        stick := stick.(y := newY);
        valueChanged := true;
      }
      assert stick == target;
      sticks := sticks[i := stick];
      if valueChanged {
        EventChangeStick(stick);
      }
    }

    /**
     * Applies the axis pairs (0, 1), (2, 3) and (4, 5) of one sample to
     * the left, right and pad sticks, in that order.
     */
    method UpdateSticks(axisData: seq<int>)
      requires Valid() && |axisData| >= 6
      modifies this
      ensures Valid()
      ensures buttons == old(buttons)
      ensures sticks == [
        StickStep(old(sticks)[0], axisData[0], axisData[1]),
        StickStep(old(sticks)[1], axisData[2], axisData[3]),
        StickStep(old(sticks)[2], axisData[4], axisData[5])]
      ensures events == old(events)
        + StickChange(old(sticks)[0], sticks[0])
        + StickChange(old(sticks)[1], sticks[1])
        + StickChange(old(sticks)[2], sticks[2])
    {
      UpdateStick("left", axisData[0], axisData[1]);
      UpdateStick("right", axisData[2], axisData[3]);
      UpdateStick("pad", axisData[4], axisData[5]);
    }

    /**
     * One step of the decoding loop: button i is pressed when what remains
     * of the mask is at least its code, which is then subtracted; an event
     * is emitted if its state flipped. Returns what remains.
     */
    method DecodeButton(i: nat, rest: nat) returns (left: nat)
      requires i < |buttons|
      modifies this
      ensures sticks == old(sticks)
      ensures var b := old(buttons)[i];
        && buttons == old(buttons)[i := b.(state := if rest >= b.code then 1 else 0)]
        && left == (if rest >= b.code then rest - b.code else rest)
        && events == old(events) + Flip(b, buttons[i].state)
    {
      var button := buttons[i];
      var previousState := button.state;
      left := rest;
      if left >= button.code {
        button := button.(state := 1);
        left := left - button.code;
      } else {
        button := button.(state := 0);
      }
      buttons := buttons[i := button];
      if button.state != previousState {
        EventChangeButton(button);
      }
    }

    /**
     * Decodes the button bitmask greedily over the table, largest code
     * first, and emits one event per button whose state flipped, in table
     * order. Sticks do not change.
     */
    method UpdateButtons(mask: U32)
      requires Valid()
      modifies this
      ensures Valid()
      ensures sticks == old(sticks)
      ensures buttons == SetStates(old(buttons), Greedy(Codes, mask), |old(buttons)|)
      ensures events == old(events) + ButtonChanges(old(buttons), Greedy(Codes, mask), |old(buttons)|)
    {
      ghost var before := buttons;
      TableCodes(before, ButtonNames, Codes);
      ghost var codes := CodesOf(before);
      ghost var decoded := Greedy(codes, mask);
      var rest: nat := mask;
      var i := 0;
      while i < |buttons|
        invariant 0 <= i <= |before| == |codes| == |decoded|
        invariant sticks == old(sticks)
        invariant buttons == SetStates(before, decoded, i)
        invariant rest == Remaining(codes, mask, i)
        invariant events == old(events) + ButtonChanges(before, decoded, i)
      {
        DecodeStep(before, mask, i);
        rest := DecodeButton(i, rest);
        i := i + 1;
      }
      assert decoded == Greedy(Codes, mask);
      SetStatesKeepsTable(before, decoded, ButtonNames, Codes);
    }
  }
}
