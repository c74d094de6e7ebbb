/**
 * Digital buttons: the fixed table of names and power-of-two codes, the
 * greedy largest-code-first decoding of the button bitmask, and the change
 * events one decoding emits.
 */
module Buttons {
  import opened Events

  /** The button bitmask as the device reports it: an unsigned 32-bit word. */
  type U32 = x: int | 0 <= x < 0x1_0000_0000

  /** A button: its name, its state (1 pressed, 0 released) and its code. */
  datatype Button = Button(name: string, state: int, code: nat)

  /** Button names in table order. */
  const ButtonNames: seq<string> :=
    ["capture", "home", "rs", "ls", "+", "-", "zr", "zl", "r", "l", "x", "y", "a", "b"]

  /** Button codes in table order, from the largest to the smallest. */
  const Codes: seq<nat> :=
    [8192, 4096, 2048, 1024, 512, 256, 128, 64, 32, 16, 8, 4, 2, 1]

  /** The codes of a button table, in table order. */
  function CodesOf(bs: seq<Button>): (codes: seq<nat>)
    ensures |codes| == |bs| && forall i :: 0 <= i < |bs| ==> codes[i] == bs[i].code
  {
    if bs == [] then [] else [bs[0].code] + CodesOf(bs[1..])
  }

  /**
   * bs is a button table with the given names and codes, in order, and
   * every state 0 or 1.
   */
  ghost predicate TableOf(bs: seq<Button>, names: seq<string>, codes: seq<nat>)
  {
    && |bs| == |names| == |codes|
    && forall i :: 0 <= i < |bs| ==>
         && bs[i].name == names[i]
         && bs[i].code == codes[i]
         && (bs[i].state == 0 || bs[i].state == 1)
  }

  /** The controller's button table: the fixed names and codes. */
  ghost predicate ButtonTable(bs: seq<Button>)
  {
    TableOf(bs, ButtonNames, Codes)
  }

  /** A table's codes are its code column. */
  lemma TableCodes(bs: seq<Button>, names: seq<string>, codes: seq<nat>)
    requires TableOf(bs, names, codes)
    ensures CodesOf(bs) == codes
  {
  }

  /** A released button. */
  function InitButton(name: string, code: nat): (b: Button)
    ensures b.name == name && b.code == code && b.state == 0
  {
    Button(name, 0, code)
  }

  /** The released button table a new controller starts with. */
  const InitialButtons: seq<Button> := [
    InitButton("capture", 8192),
    InitButton("home", 4096),
    InitButton("rs", 2048),
    InitButton("ls", 1024),
    InitButton("+", 512),
    InitButton("-", 256),
    InitButton("zr", 128),
    InitButton("zl", 64),
    InitButton("r", 32),
    InitButton("l", 16),
    InitButton("x", 8),
    InitButton("y", 4),
    InitButton("a", 2),
    InitButton("b", 1)
  ]

  /** No two buttons share a name. */
  lemma ButtonNamesDistinct()
    ensures forall i, j :: 0 <= i < j < |ButtonNames| ==> ButtonNames[i] != ButtonNames[j]
  {
  }

  /** Every code is below 2^14, so it fits the 32-bit mask. */
  lemma CodesBelow()
    ensures forall i :: 0 <= i < |Codes| ==> Codes[i] < 16384
  {
  }

  /** The initial table has the fixed names and codes, every button released. */
  lemma InitialButtonsTable()
    ensures ButtonTable(InitialButtons)
    ensures forall i :: 0 <= i < |InitialButtons| ==> InitialButtons[i].state == 0
  {
  }

  function Pow2(k: nat): (p: nat)
    ensures p >= 1
  {
    if k == 0 then 1 else 2 * Pow2(k - 1)
  }

  /** Bit k of m is set. */
  predicate BitSet(m: nat, k: nat)
  {
    if k == 0 then m % 2 == 1 else BitSet(m / 2, k - 1)
  }

  /** The codes 2^(k-1), ..., 2, 1, largest first. */
  function PowersDown(k: nat): (s: seq<nat>)
    ensures |s| == k
  {
    if k == 0 then [] else [Pow2(k - 1)] + PowersDown(k - 1)
  }

  /**
   * Greedy decoding of rest against codes: a code not larger than what
   * remains marks its button pressed and is subtracted; otherwise the
   * button is released.
   */
  function Greedy(codes: seq<nat>, rest: nat): (states: seq<int>)
    ensures |states| == |codes|
    ensures forall i :: 0 <= i < |states| ==> states[i] == 0 || states[i] == 1
  {
    if codes == [] then []
    else if rest >= codes[0] then [1] + Greedy(codes[1..], rest - codes[0])
    else [0] + Greedy(codes[1..], rest)
  }

  /** Bit k of m is set exactly when 2^k <= m < 2^(k+1), given m < 2^(k+1). */
  lemma {:induction false} TopBit(m: nat, k: nat)
    requires m < 2 * Pow2(k)
    ensures BitSet(m, k) <==> Pow2(k) <= m
  {
    if k > 0 {
      TopBit(m / 2, k - 1);
    }
  }

  /** Subtracting 2^k from m leaves every lower bit of m as it was. */
  lemma {:induction false} LowBitsAfterSubtract(m: nat, k: nat, j: nat)
    requires Pow2(k) <= m && j < k
    ensures BitSet(m - Pow2(k), j) == BitSet(m, j)
  {
    if j > 0 {
      assert (m - Pow2(k)) / 2 == m / 2 - Pow2(k - 1);
      LowBitsAfterSubtract(m / 2, k - 1, j - 1);
    }
  }

  /**
   * For m < 2^k, greedy decoding against 2^(k-1), ..., 1 marks position i
   * pressed exactly when bit k-1-i of m is set.
   */
  lemma {:induction false} GreedyIsBitTest(k: nat, m: nat)
    requires m < Pow2(k)
    ensures forall i :: 0 <= i < k ==> (Greedy(PowersDown(k), m)[i] == 1 <==> BitSet(m, k - 1 - i))
  {
    if k > 0 {
      var p := Pow2(k - 1);
      var codes := PowersDown(k);
      assert codes[0] == p && codes[1..] == PowersDown(k - 1);
      TopBit(m, k - 1);
      var rest := if m >= p then m - p else m;
      GreedyIsBitTest(k - 1, rest);
      var g := Greedy(codes, m);
      assert g[1..] == Greedy(PowersDown(k - 1), rest);
      forall i | 0 < i < k
        ensures g[i] == 1 <==> BitSet(m, k - 1 - i)
      {
        assert g[i] == g[1..][i - 1];
        if m >= p {
          LowBitsAfterSubtract(m, k - 1, k - 1 - i);
        }
      }
    }
  }

  /** Powers of two grow with the exponent. */
  lemma {:induction false} Pow2Below(a: nat, b: nat)
    requires a < b
    ensures Pow2(a) < Pow2(b)
  {
    if a + 1 < b {
      Pow2Below(a, b - 1);
    }
  }

  /** Entry i of PowersDown(k) is 2^(k-1-i). */
  lemma {:induction false} PowersDownAt(k: nat)
    ensures forall i :: 0 <= i < k ==> PowersDown(k)[i] == Pow2(k - 1 - i)
  {
    if k > 0 {
      PowersDownAt(k - 1);
      assert forall i :: 1 <= i < k ==> PowersDown(k)[i] == PowersDown(k - 1)[i - 1];
    }
  }

  /** The code table is 2^13, ..., 2, 1: code i is the value of bit 13 - i. */
  lemma CodesArePowers()
    ensures forall i :: 0 <= i < 14 ==> Codes[i] == Pow2(13 - i)
  {
    assert Codes == [Pow2(13), Pow2(12), Pow2(11), Pow2(10), Pow2(9), Pow2(8), Pow2(7),
                     Pow2(6), Pow2(5), Pow2(4), Pow2(3), Pow2(2), Pow2(1), Pow2(0)];
  }

  /** The code table is the run of powers of two from 2^13 down. */
  lemma CodesArePowersDown()
    ensures Codes == PowersDown(14)
  {
    CodesArePowers();
    PowersDownAt(14);
  }

  /**
   * For a mask with no bits above the 14 known ones, the greedy decoding
   * presses button i exactly when the bit of its code is set in the mask.
   */
  lemma DecodeIsBitTest(mask: nat)
    requires mask < 16384
    ensures forall i :: 0 <= i < |Codes| ==> (Greedy(Codes, mask)[i] == 1 <==> BitSet(mask, 13 - i))
  {
    CodesArePowersDown();
    assert Pow2(14) == 16384;
    GreedyIsBitTest(14, mask);
  }

  /** The zero mask releases every button. */
  lemma ZeroMaskReleasesAll()
    ensures forall i :: 0 <= i < |Codes| ==> Greedy(Codes, 0)[i] == 0
  {
    DecodeIsBitTest(0);
    forall j: nat | j < 14
      ensures !BitSet(0, j)
    {
      ZeroHasNoBits(j);
    }
  }

  /** The zero mask on the released table flips nothing and emits nothing. */
  lemma ZeroMaskOnInitialIsSilent()
    ensures ButtonChanges(InitialButtons, Greedy(Codes, 0), |InitialButtons|) == []
  {
    InitialButtonsTable();
    ZeroMaskReleasesAll();
    NoFlipNoEvent(InitialButtons, Greedy(Codes, 0));
  }

  /** A mask holding the code of button k alone presses button k and no other. */
  lemma SingleCodeDecodes(k: nat)
    requires k < |Codes|
    ensures forall i :: 0 <= i < |Codes| ==> Greedy(Codes, Codes[k])[i] == if i == k then 1 else 0
  {
    CodesArePowers();
    Pow2Below(13 - k, 14);
    assert Pow2(14) == 16384;
    DecodeIsBitTest(Codes[k]);
    forall j: nat | j < 14
      ensures BitSet(Codes[k], j) <==> j == 13 - k
    {
      PowerHasOneBit(13 - k, j);
    }
  }

  /**
   * A mask holding the code of button k alone, applied to a table with
   * every button released, presses button k, leaves every other button
   * released and emits exactly the one event for k.
   */
  lemma SingleCodePressesOne(bs: seq<Button>, k: nat)
    requires |bs| == |Codes| && k < |bs|
    requires forall i :: 0 <= i < |bs| ==> bs[i].state == 0
    ensures var d := Greedy(Codes, Codes[k]);
      && (forall i :: 0 <= i < |bs| ==> SetStates(bs, d, |bs|)[i].state == if i == k then 1 else 0)
      && ButtonChanges(bs, d, |bs|) == [ButtonEv(bs[k].name, 1)]
  {
    var d := Greedy(Codes, Codes[k]);
    SingleCodeDecodes(k);
    SingleFlip(bs, d, k, |bs|);
    SetStatesAt(bs, d, |bs|);
  }

  /** Zero has no bit set. */
  lemma {:induction false} ZeroHasNoBits(j: nat)
    ensures !BitSet(0, j)
  {
    if j > 0 {
      ZeroHasNoBits(j - 1);
    }
  }

  /** A power of two has exactly one bit set: bit k of 2^k. */
  lemma {:induction false} PowerHasOneBit(k: nat, j: nat)
    ensures BitSet(Pow2(k), j) <==> j == k
  {
    if k == 0 && j > 0 {
      ZeroHasNoBits(j - 1);
    } else if k > 0 && j > 0 {
      PowerHasOneBit(k - 1, j - 1);
    }
  }

  /** Decoding 2^k against 2^(k-1), ..., 1 presses every button. */
  lemma {:induction false} GreedyOfNextPower(k: nat)
    ensures forall i :: 0 <= i < k ==> Greedy(PowersDown(k), Pow2(k))[i] == 1
  {
    if k > 0 {
      var codes := PowersDown(k);
      assert codes[0] == Pow2(k - 1) && codes[1..] == PowersDown(k - 1);
      GreedyOfNextPower(k - 1);
      var g := Greedy(codes, Pow2(k));
      assert g == [1] + Greedy(PowersDown(k - 1), Pow2(k - 1));
    }
  }

  /**
   * The greedy decoding does not ignore bits above the 14 known ones:
   * 16384 sets none of the codes' bits, yet every button reads pressed.
   */
  lemma HighBitsAreNotIgnored()
    ensures forall j: nat :: j < 14 ==> !BitSet(16384, j)
    ensures forall i :: 0 <= i < |Codes| ==> Greedy(Codes, 16384)[i] == 1
  {
    assert Pow2(14) == 16384;
    CodesArePowersDown();
    GreedyOfNextPower(14);
    forall j: nat | j < 14
      ensures !BitSet(16384, j)
    {
      PowerHasOneBit(14, j);
    }
  }

  /**
   * What remains of the mask after the first i codes have been tried: the
   * value the decoding loop carries from one button to the next.
   */
  function Remaining(codes: seq<nat>, mask: nat, i: nat): (r: nat)
    requires i <= |codes|
  {
    if i == 0 then mask
    else
      var r := Remaining(codes, mask, i - 1);
      if r >= codes[i - 1] then r - codes[i - 1] else r
  }

  /** Trying the first code, then i - 1 more, is trying i codes. */
  lemma {:induction false} RemainingAfterFirst(codes: seq<nat>, mask: nat, i: nat)
    requires 1 <= i <= |codes|
    ensures Remaining(codes, mask, i)
      == Remaining(codes[1..], if mask >= codes[0] then mask - codes[0] else mask, i - 1)
  {
    if i > 1 {
      RemainingAfterFirst(codes, mask, i - 1);
    }
  }

  /**
   * Position i of the greedy decoding is decided by what remains after the
   * first i codes, as the loop decides it.
   */
  lemma {:induction false} GreedyAt(codes: seq<nat>, mask: nat, i: nat)
    requires i < |codes|
    ensures Greedy(codes, mask)[i] == (if Remaining(codes, mask, i) >= codes[i] then 1 else 0)
  {
    if i > 0 {
      var first := if mask >= codes[0] then mask - codes[0] else mask;
      GreedyAt(codes[1..], first, i - 1);
      RemainingAfterFirst(codes, mask, i);
      assert Greedy(codes, mask)[i] == Greedy(codes[1..], first)[i - 1];
    }
  }

  /** The table bs with the states of its first n buttons taken from states. */
  function SetStates(bs: seq<Button>, states: seq<int>, n: nat): (r: seq<Button>)
    requires |bs| == |states| && n <= |bs|
    ensures |r| == |bs|
  {
    if n == 0 then bs else SetStates(bs, states, n - 1)[n - 1 := bs[n - 1].(state := states[n - 1])]
  }

  /**
   * SetStates changes the state of each of the first n buttons to the
   * given one and leaves every other field and every other button alone.
   */
  lemma {:induction false} SetStatesAt(bs: seq<Button>, states: seq<int>, n: nat)
    requires |bs| == |states| && n <= |bs|
    ensures forall j :: 0 <= j < |bs| ==>
      SetStates(bs, states, n)[j] == if j < n then bs[j].(state := states[j]) else bs[j]
  {
    if n > 0 {
      SetStatesAt(bs, states, n - 1);
    }
  }

  /** Setting every state to 0 or 1 keeps a button table a button table. */
  lemma SetStatesKeepsTable(bs: seq<Button>, states: seq<int>, names: seq<string>, codes: seq<nat>)
    requires TableOf(bs, names, codes) && |states| == |bs|
    requires forall i :: 0 <= i < |states| ==> states[i] == 0 || states[i] == 1
    ensures TableOf(SetStates(bs, states, |bs|), names, codes)
  {
    SetStatesAt(bs, states, |bs|);
  }

  /**
   * The events a decoding emits for the first n buttons: in table order,
   * one event carrying the new state for each button whose state differs
   * from the old one.
   */
  function ButtonChanges(before: seq<Button>, states: seq<int>, n: nat): (evs: seq<Event>)
    requires |before| == |states| && n <= |before|
    ensures |evs| <= n
  {
    if n == 0 then [] else ButtonChanges(before, states, n - 1) + Flip(before[n - 1], states[n - 1])
  }

  /** The events of button b taking the given state: one if it flipped, none otherwise. */
  function Flip(b: Button, state: int): (evs: seq<Event>)
    ensures evs == [] <==> state == b.state
  {
    if state != b.state then [ButtonEv(b.name, state)] else []
  }

  /**
   * Step i of the decoding loop, taken on the table the first i steps left
   * behind: button i still has its old state, the greedy rule decides its
   * new state, and the step extends the table, the remainder and the
   * event list by exactly one position.
   */
  lemma DecodeStep(before: seq<Button>, mask: nat, i: nat)
    requires i < |before|
    ensures var codes := CodesOf(before);
      var decoded := Greedy(codes, mask);
      var bs := SetStates(before, decoded, i);
      var rest := Remaining(codes, mask, i);
      var st := if rest >= bs[i].code then 1 else 0;
      && bs[i] == before[i]
      && st == decoded[i]
      && bs[i := bs[i].(state := st)] == SetStates(before, decoded, i + 1)
      && (if rest >= bs[i].code then rest - bs[i].code else rest) == Remaining(codes, mask, i + 1)
      && ButtonChanges(before, decoded, i) + Flip(bs[i], st) == ButtonChanges(before, decoded, i + 1)
  {
    var codes := CodesOf(before);
    SetStatesAt(before, Greedy(codes, mask), i);
    GreedyAt(codes, mask, i);
  }

  /** The positions among the first n whose state the decoding flips, in order. */
  function Flipped(before: seq<Button>, states: seq<int>, n: nat): (idx: seq<nat>)
    requires |before| == |states| && n <= |before|
    ensures forall k :: 0 <= k < |idx| ==> idx[k] < n
  {
    if n == 0 then []
    else Flipped(before, states, n - 1) + (if states[n - 1] != before[n - 1].state then [n - 1] else [])
  }

  /** Flipped lists its positions in strictly increasing order. */
  lemma {:induction false} FlippedIncreasing(before: seq<Button>, states: seq<int>, n: nat)
    requires |before| == |states| && n <= |before|
    ensures forall k, l :: 0 <= k < l < |Flipped(before, states, n)| ==>
      Flipped(before, states, n)[k] < Flipped(before, states, n)[l]
  {
    if n > 0 {
      FlippedIncreasing(before, states, n - 1);
    }
  }

  /** A position below n is listed exactly when its state flips. */
  lemma {:induction false} FlippedMembers(before: seq<Button>, states: seq<int>, n: nat)
    requires |before| == |states| && n <= |before|
    ensures forall i :: 0 <= i < n ==> (i in Flipped(before, states, n) <==> states[i] != before[i].state)
  {
    if n > 0 {
      FlippedMembers(before, states, n - 1);
      FlippedIncreasing(before, states, n - 1);
      var front := Flipped(before, states, n - 1);
      assert n - 1 !in front;
    }
  }

  /** Event k of the decoding belongs to the k-th flipped button and carries its new state. */
  lemma {:induction false} ChangesFollowFlipped(before: seq<Button>, states: seq<int>, n: nat)
    requires |before| == |states| && n <= |before|
    ensures |ButtonChanges(before, states, n)| == |Flipped(before, states, n)|
    ensures forall k :: 0 <= k < |Flipped(before, states, n)| ==>
      ButtonChanges(before, states, n)[k]
        == ButtonEv(before[Flipped(before, states, n)[k]].name, states[Flipped(before, states, n)[k]])
  {
    if n > 0 {
      ChangesFollowFlipped(before, states, n - 1);
      FlippedIncreasing(before, states, n - 1);
    }
  }

  /**
   * ButtonChanges holds one event per flipped button and no others, in
   * table order: idx lists the flipped positions in increasing order and
   * event k belongs to button idx[k].
   */
  lemma ButtonChangesExact(before: seq<Button>, states: seq<int>, n: nat) returns (idx: seq<nat>)
    requires |before| == |states| && n <= |before|
    ensures forall k :: 0 <= k < |idx| ==> idx[k] < n
    ensures forall k, l :: 0 <= k < l < |idx| ==> idx[k] < idx[l]
    ensures forall i :: 0 <= i < n ==> (i in idx <==> states[i] != before[i].state)
    ensures |ButtonChanges(before, states, n)| == |idx|
    ensures forall k :: 0 <= k < |idx| ==>
      ButtonChanges(before, states, n)[k] == ButtonEv(before[idx[k]].name, states[idx[k]])
  {
    idx := Flipped(before, states, n);
    FlippedIncreasing(before, states, n);
    FlippedMembers(before, states, n);
    ChangesFollowFlipped(before, states, n);
  }

  /**
   * A decoding that flips button k alone emits, over the first n buttons,
   * the one event for k once k is among them and nothing before.
   */
  lemma {:induction false} SingleFlip(before: seq<Button>, states: seq<int>, k: nat, n: nat)
    requires |before| == |states| && k < |before| && n <= |before|
    requires forall i :: 0 <= i < |before| ==> (states[i] != before[i].state <==> i == k)
    ensures ButtonChanges(before, states, n) == if k < n then [ButtonEv(before[k].name, states[k])] else []
  {
    if n > 0 {
      SingleFlip(before, states, k, n - 1);
    }
  }

  /** A decoding that reproduces every state emits nothing, and conversely. */
  lemma NoFlipNoEvent(before: seq<Button>, states: seq<int>)
    requires |before| == |states|
    ensures ButtonChanges(before, states, |before|) == [] <==>
      forall i :: 0 <= i < |before| ==> states[i] == before[i].state
  {
    var idx := ButtonChangesExact(before, states, |before|);
    if ButtonChanges(before, states, |before|) != [] {
      assert idx[0] in idx;
    }
  }
}
