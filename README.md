# Switch Pro controller state engine

A Dafny model of the state-tracking core of `switchprocontroller.go`. The
controller holds a fixed table of three analog sticks ("left", "right",
"pad") and fourteen digital buttons ("capture" … "b"). Each raw input
sample is six signed axis integers plus one unsigned 32-bit button
bitmask. A sample updates the sticks and buttons, and one event is emitted
for every observed change.

- **Sticks** (`sticks.dfy`, module `Sticks`). Each stick keeps calibration
  bounds. They start at ±20000 and only ever widen to take in a sample. The
  sample is then scaled to a percentage in [-100, 100] against the widened
  bound on its side of zero. The Y axis has its sign inverted. One stick
  event is emitted when X or Y changed.
- **Buttons** (`buttons.dfy`, module `Buttons`). The mask is decoded
  greedily against the codes 8192, 4096, …, 1, taken from largest to
  smallest. A button is pressed when what remains of the mask is at least
  its code, and that code is then subtracted. One button event is emitted,
  in table order, for every button whose state flipped. `Greedy` is the
  specification of the decoding. It is proved equal to a bit test for masks
  below 16384.
- **Controller** (`controller.dfy`, module `SwitchPro`). `Controller` is a
  class. Its fields are the stick table, the button table and the sequence
  of emitted events. It offers:
  - lookups by name, which return the first match or an error;
  - the per-sample updates `UpdateStick`, `UpdateSticks` and
    `UpdateButtons`, whose bodies (the `UpdateButtons` loop among them) are
    proved against the specification functions `StickStep`, `StickChange`,
    `SetStates` and `ButtonChanges`;
  - the two event emitters.
- **Runs** (`scenarios.dfy`, module `Scenarios`). These drive a fresh
  controller with concrete samples and prove the exact event log and the
  values read back.
- `events.dfy` holds the `Event` datatype, and `wrappers.dfy` holds
  `Option` and `Result`.

Raw samples and calibration bounds are `int`, because a bound only ever
holds 20000 or a raw sample. Normalised positions are exact `real`s.

The greedy loop does not ignore mask bits above the fourteen codes. A mask
of 16384 is at least every code in turn, so it presses all fourteen buttons
(`Buttons.HighBitsAreNotIgnored`). The bit-test equivalence is therefore
stated for masks in [0, 16383] only.

## Model

| member | source | states |
|---|---|---|
| Sticks.InitStick | switchprocontroller.go:174-184 | a new stick is centred (X = Y = 0), has bounds ±20000 and satisfies the calibration invariant |
| Sticks.Widen | switchprocontroller.go:110-123 | the widened bounds contain the old ones and, for ordered bounds, the sample; they are (min(lo, v), max(hi, v)); a sample inside the bounds leaves them alone |
| Sticks.NormaliseX | switchprocontroller.go:126-136 | for a sample within the bounds the result is in [-100, 100]; it is 0 exactly for a 0 sample and positive exactly for a positive one; the bounds themselves map to 100 and -100 |
| Sticks.NormaliseY | switchprocontroller.go:137-147 | Y is the negation of the X normalisation: in [-100, 100], 0 exactly for a 0 sample, negative exactly for a positive sample |
| Sticks.StickStep | switchprocontroller.go:110-147 | one sample keeps the stick calibrated (bounds at least ±20000, X and Y in [-100, 100]); the bounds only widen and contain the sample; it keeps the name; zero maps to zero; X keeps the sample's sign and Y inverts it |
| Sticks.StickChange | switchprocontroller.go:133-150 | a stick update emits at most one event, and emits one exactly when X or Y changed; that event carries the stick's new name and position |
| Sticks.RepeatedSampleIsStable | switchprocontroller.go:110-147 | feeding the same raw sample twice changes nothing the second time and emits no event |
| Sticks.InitStickAtRest | switchprocontroller.go:174-184 | a centred sample leaves a fresh stick exactly as it was and emits nothing |
| Buttons.InitButton | switchprocontroller.go:186-192 | a new button has the given name and code and is released |
| Buttons.CodesOf | switchprocontroller.go:58 | the code column of a button table, position by position |
| Buttons.TableCodes | switchprocontroller.go:205-220 | a table with the fixed codes has exactly those codes, in order |
| Buttons.InitialButtonsTable | switchprocontroller.go:205-220 | the fourteen initial buttons have the fixed names and codes in order, and all are released |
| Buttons.ButtonNamesDistinct | switchprocontroller.go:205-220 | no two buttons share a name, so each name lookup finds its own button |
| Buttons.CodesBelow | switchprocontroller.go:205-220 | every code is below 2^14 and fits the 32-bit mask |
| Buttons.CodesArePowers | switchprocontroller.go:205-220 | the code of button i is 2^(13-i) |
| Buttons.CodesArePowersDown | switchprocontroller.go:205-220 | the code table is exactly the powers of two from 2^13 down to 1 |
| Buttons.Greedy | switchprocontroller.go:160-167 | the greedy decoding gives one state per code, and every state is 0 or 1 |
| Buttons.GreedyIsBitTest | switchprocontroller.go:160-167 | for m below 2^k, greedy decoding against 2^(k-1), …, 1 presses position i exactly when bit k-1-i of m is set |
| Buttons.DecodeIsBitTest | switchprocontroller.go:159-172 | for every mask in [0, 16383], button i is pressed exactly when the bit of its code is set in the mask |
| Buttons.TopBit | switchprocontroller.go:162 | for m below 2^(k+1), the comparison m >= 2^k is the test of bit k |
| Buttons.LowBitsAfterSubtract | switchprocontroller.go:164 | subtracting 2^k from m leaves all lower bits of m unchanged |
| Buttons.SingleCodeDecodes | switchprocontroller.go:159-172 | a mask holding one button's code alone presses that button and no other |
| Buttons.ZeroMaskReleasesAll | switchprocontroller.go:159-172 | the zero mask releases every button |
| Buttons.HighBitsAreNotIgnored | switchprocontroller.go:159-172 | 16384 has none of the fourteen code bits set, yet decoding it presses every button |
| Buttons.GreedyOfNextPower | switchprocontroller.go:160-167 | decoding 2^k against 2^(k-1), …, 1 presses every position |
| Buttons.PowerHasOneBit | switchprocontroller.go:206-219 | a power of two 2^k has bit k set and no other bit |
| Buttons.Pow2Below | switchprocontroller.go:206-219 | powers of two strictly grow with the exponent |
| Buttons.PowersDownAt | switchprocontroller.go:206-219 | entry i of the descending run of k powers is 2^(k-1-i) |
| Buttons.GreedyAt | switchprocontroller.go:160-167 | the greedy state of position i is decided by comparing its code with what the loop has left after the first i codes |
| Buttons.RemainingAfterFirst | switchprocontroller.go:162-164 | trying the first code and then i-1 more leaves what trying i codes leaves |
| Buttons.SetStates | switchprocontroller.go:160-167 | the table after the loop has written the first n states; it has the same length as the input |
| Buttons.SetStatesAt | switchprocontroller.go:160-167 | each of the first n buttons takes the decoded state while its name and code stay; every later button is unchanged |
| Buttons.SetStatesKeepsTable | switchprocontroller.go:160-167 | writing states that are 0 or 1 keeps the fixed names and codes and leaves every state 0 or 1 |
| Buttons.ButtonChanges | switchprocontroller.go:168-170 | the events emitted for the first n buttons are at most n |
| Buttons.Flip | switchprocontroller.go:168-170 | one button emits no event exactly when its new state equals its previous one |
| Buttons.DecodeStep | switchprocontroller.go:160-171 | loop step i reads button i in its old state, sets the greedy state, and extends the table, the remainder and the event list by exactly one position each |
| Buttons.Flipped | switchprocontroller.go:168-170 | the flipped positions among the first n, all below n |
| Buttons.FlippedIncreasing | switchprocontroller.go:160-171 | the flipped positions are listed in strictly increasing (table) order |
| Buttons.FlippedMembers | switchprocontroller.go:168-170 | a position is listed exactly when its state flips |
| Buttons.ChangesFollowFlipped | switchprocontroller.go:168-170 | event k belongs to the k-th flipped button and carries its new state; there is one event per flipped button |
| Buttons.ButtonChangesExact | switchprocontroller.go:160-171 | the decoding emits exactly one event per button whose state flipped, in table order, with its new state, and no other events |
| Buttons.SingleFlip | switchprocontroller.go:160-171 | when button k alone flips, the emitted events are exactly the one event for k |
| Buttons.NoFlipNoEvent | switchprocontroller.go:160-171 | the decoding emits nothing exactly when every button keeps its previous state |
| Buttons.ZeroHasNoBits | switchprocontroller.go:159-172 | zero has no bit set |
| Buttons.SingleCodePressesOne | switchprocontroller.go:159-172 | on a released table, the mask holding button k's code alone presses k, leaves every other button released and emits only the event for k |
| Buttons.ZeroMaskOnInitialIsSilent | switchprocontroller.go:159-172 | the zero mask on the initial released table emits nothing |
| SwitchPro.StickSlot | switchprocontroller.go:200-204 | a known stick name's position in the fixed table |
| SwitchPro.Controller.constructor | switchprocontroller.go:195-223 | a new controller holds the three sticks at rest in order, the fourteen buttons released in table order, and no events; the table invariant holds |
| SwitchPro.Controller.FindStick | switchprocontroller.go:65-69 | returns the index of the first stick with the name; if none is returned, no stick has the name |
| SwitchPro.Controller.FindButton | switchprocontroller.go:77-81 | returns the index of the first button with the name; if none is returned, no button has the name |
| SwitchPro.Controller.GetStick | switchprocontroller.go:64-71 | returns the first stick whose name matches exactly, or StickNotFound when no stick has the name; state unchanged |
| SwitchPro.Controller.GetButton | switchprocontroller.go:76-83 | returns the first button whose name matches exactly, or ButtonNotFound when no button has the name; state unchanged |
| SwitchPro.Controller.GetButtonState | switchprocontroller.go:92-99 | returns the state of the first button with the name, or 0 together with ButtonNotFound when no button has the name; state unchanged |
| SwitchPro.Controller.EventChangeStick | switchprocontroller.go:257-259 | appends one stick event with the stick's name and position; nothing else changes |
| SwitchPro.Controller.EventChangeButton | switchprocontroller.go:261-263 | appends one button event with the button's name and state; nothing else changes |
| SwitchPro.Controller.UpdateStick | switchprocontroller.go:101-151 | the named stick becomes StickStep of its old value; all other sticks and every button stay the same; the event log grows by StickChange (at most one event, exactly when X or Y moved); the table invariant is kept |
| SwitchPro.Controller.UpdateSticks | switchprocontroller.go:153-157 | applies the axis pairs (0,1), (2,3) and (4,5) to left, right and pad, in that order, with their events in that order; buttons unchanged |
| SwitchPro.Controller.DecodeButton | switchprocontroller.go:161-170 | one loop step: button i is pressed exactly when the remainder is at least its code, and the code is then subtracted; an event is emitted when its state flipped; nothing else changes |
| SwitchPro.Controller.UpdateButtons | switchprocontroller.go:159-172 | the buttons take the greedy decoding of the mask; sticks are unchanged; the event log grows by exactly the flipped buttons' events in table order; every state stays 0 or 1 |
| Scenarios.FreshZeroSampleIsSilent | switchprocontroller.go:153-172 | on a fresh controller, an all-zero axis sample followed by the zero mask emits no event |
| Scenarios.PressOnly | switchprocontroller.go:159-172 | on a fresh controller, the mask of button k alone emits exactly the press event of k, and k then reads back as pressed |
| Scenarios.FreshReadsAtRest | switchprocontroller.go:64-83 | a fresh controller's left stick is centred with the default bounds, "a" reads released with code 2, and an unknown name fails with ButtonNotFound |
| Scenarios.LeftStickCalibration | switchprocontroller.go:110-150 | left stick samples 20000, 10000, 40000, 20000 read 100, 50, 100, 50: a wider deflection moves the bound and rescales later samples |

## Left out

- `StartListener`: opening the joystick device through a foreign library, the polling goroutine, its sleep and its panic on a read error are I/O and concurrency. A sample is passed straight to `UpdateSticks` and `UpdateButtons`.
- The `Events` channel: its capacity of 100 and its blocking send are concurrency. Emission is an append to the `events` sequence.
- Aliasing through pointers is not modelled. The Go `GetStick` and `GetButton` return live `*Stick` and `*Button` pointers, and the exported `Sticks` and `Buttons` slices hand out the same pointers. Through them a caller sees later updates and can write `Name`, `X`, `Y` and `State`, which could rename a stick or set a state other than 0 or 1. The model's lookups return value copies, and writes through those pointers are not modelled. That is why `Valid()` (the fixed names and codes, calibrated sticks, states 0 or 1) may be required by `UpdateStick` and `UpdateButtons`. Events likewise hold snapshots of a stick's name and position or a button's name and state, not live pointers.
- `Display`: JSON marshalling and printing to standard output.
- All logging calls, including the log line for an unknown stick name and the lines for bound changes.
- `fetchDelta`, the polling interval, is timing.
- float32 arithmetic: the int-to-float32 conversion of the samples and the rounding of the normalisation. The model computes exactly over `real`.
- SwitchPro.Controller.UpdateStick: requires the name to be one of "left", "right" and "pad". For an unknown name the source logs the error and then dereferences a nil stick, and it is only ever called with the three known names.
- SwitchPro.Controller.UpdateSticks: requires at least six axis values. Go's slice indexing panics with fewer.
- SwitchPro.Controller.UpdateButtons: the mask is the 32-bit `U32` range. The loop's subtraction can never wrap, because it runs only when the remainder is at least the code, so no wrap-around is modelled.
- `examples_test.go`: its demo programs need a physical controller. The default values in their expected output are the ones `Scenarios.FreshReadsAtRest` and `Scenarios.PressOnly` state.
